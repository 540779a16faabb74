/** Canonical byte encodings: what is written, what is accepted, and that the two agree (src/buffer.cpp:20-205). */
module WireFormat {

  type Octet = x: int | 0 <= x < 256

  /** Layout of an encoded value. Counts and text lengths are four octets; all numbers are little-endian. */
  datatype Fmt =
    | Num(width: nat, lo: nat, hi: nat)
    | Blob(size: nat)
    | Text(max: nat)
    | Literal(text: seq<Octet>, max: nat)
    | List(max: nat, item: Fmt)
    | Then(first: Fmt, next: Fmt)
    | Done

  datatype Val = N(n: nat) | B(bytes: seq<Octet>) | L(items: seq<Val>) | P(first: Val, next: Val) | Unit

  // ----- little-endian numbers -----

  function LittleEndian(width: nat, n: nat): (b: seq<Octet>)
    ensures |b| == width
  {
    if width == 0 then [] else [n % 256] + LittleEndian(width - 1, n / 256)
  }

  function Number(b: seq<Octet>): nat {
    if b == [] then 0 else b[0] + 256 * Number(b[1..])
  }

  /** n has at most `width` octets. */
  predicate Fits(width: nat, n: nat) {
    if width == 0 then n == 0 else Fits(width - 1, n / 256)
  }

  lemma {:induction false} NumberOfEncoding(width: nat, n: nat)
    requires Fits(width, n)
    ensures Number(LittleEndian(width, n)) == n
  {
    if width > 0 {
      NumberOfEncoding(width - 1, n / 256);
      assert LittleEndian(width, n)[1..] == LittleEndian(width - 1, n / 256);
    }
  }

  lemma {:induction false} EncodingOfNumber(b: seq<Octet>)
    ensures Fits(|b|, Number(b)) && LittleEndian(|b|, Number(b)) == b
    decreases |b|
  {
    if b != [] {
      EncodingOfNumber(b[1..]);
      assert b == [b[0]] + b[1..];
      assert Number(b) / 256 == Number(b[1..]) && Number(b) % 256 == b[0];
    }
  }

  lemma {:induction false} FitsBelow(width: nat, n: nat, m: nat)
    requires n <= m && Fits(width, m)
    ensures Fits(width, n)
  {
    if width > 0 {
      FitsBelow(width - 1, n / 256, m / 256);
    }
  }

  // ----- the values a layout admits and their encoding -----

  /** Bounds of the layout are representable. */
  predicate Sound(f: Fmt) {
    match f
    case Num(_, _, _) => true
    case Blob(_) => true
    case Text(max) => Fits(4, max)
    case Literal(text, max) => Fits(4, max) && |text| <= max
    case List(max, item) => Fits(4, max) && Sound(item)
    case Then(first, next) => Sound(first) && Sound(next)
    case Done => true
  }

  predicate Admits(f: Fmt, v: Val)
    decreases f, 1, 0
  {
    match f
    case Num(width, lo, hi) => v.N? && lo <= v.n <= hi && Fits(width, v.n)
    case Blob(size) => v.B? && |v.bytes| == size
    case Text(max) => v.B? && |v.bytes| <= max
    case Literal(_, _) => v.Unit?
    case List(max, item) => v.L? && |v.items| <= max && AdmitsAll(item, v.items)
    case Then(first, next) => v.P? && Admits(first, v.first) && Admits(next, v.next)
    case Done => v.Unit?
  }

  predicate AdmitsAll(f: Fmt, vs: seq<Val>)
    decreases f, 2, |vs|
  {
    vs == [] || (Admits(f, vs[0]) && AdmitsAll(f, vs[1..]))
  }

  function WriteText(text: seq<Octet>): seq<Octet> {
    LittleEndian(4, |text|) + text
  }

  function Write(f: Fmt, v: Val): seq<Octet>
    requires Admits(f, v)
    decreases f, 1, 0
  {
    match f
    case Num(width, _, _) => LittleEndian(width, v.n)
    case Blob(_) => v.bytes
    case Text(_) => WriteText(v.bytes)
    case Literal(text, _) => WriteText(text)
    case List(_, item) => LittleEndian(4, |v.items|) + WriteAll(item, v.items)
    case Then(first, next) => Write(first, v.first) + Write(next, v.next)
    case Done => []
  }

  function WriteAll(f: Fmt, vs: seq<Val>): seq<Octet>
    requires AdmitsAll(f, vs)
    decreases f, 2, |vs|
  {
    if vs == [] then [] else Write(f, vs[0]) + WriteAll(f, vs[1..])
  }

  // ----- what is accepted -----

  datatype Parsed<T> = Bad | Good(value: T, rest: seq<Octet>)

  function ParseNum(width: nat, b: seq<Octet>): Parsed<nat> {
    if |b| < width then Bad else Good(Number(b[..width]), b[width..])
  }

  function ParseBlob(size: nat, b: seq<Octet>): Parsed<seq<Octet>> {
    if |b| < size then Bad else Good(b[..size], b[size..])
  }

  /** A bounded four-octet count. */
  function ParseCount(max: nat, b: seq<Octet>): Parsed<nat> {
    var n := ParseNum(4, b);
    if n.Good? && n.value > max then Bad else n
  }

  function ParseText(max: nat, b: seq<Octet>): Parsed<seq<Octet>> {
    match ParseCount(max, b)
    case Bad => Bad
    case Good(n, rest) => ParseBlob(n, rest)
  }

  function Parse(f: Fmt, b: seq<Octet>): Parsed<Val>
    decreases f, 1, 0
  {
    match f
    case Num(width, lo, hi) =>
      (match ParseNum(width, b)
       case Bad => Bad
       case Good(n, rest) => if lo <= n <= hi then Good(N(n), rest) else Bad)
    case Blob(size) => (match ParseBlob(size, b) case Bad => Bad case Good(x, rest) => Good(B(x), rest))
    case Text(max) => (match ParseText(max, b) case Bad => Bad case Good(x, rest) => Good(B(x), rest))
    case Literal(text, max) =>
      (match ParseText(max, b) case Bad => Bad case Good(x, rest) => if x == text then Good(Unit, rest) else Bad)
    case List(max, item) =>
      (match ParseCount(max, b)
       case Bad => Bad
       case Good(n, rest) => match ParseAll(item, n, rest) case Bad => Bad case Good(vs, rest') => Good(L(vs), rest'))
    case Then(first, next) =>
      (match Parse(first, b)
       case Bad => Bad
       case Good(x, rest) => match Parse(next, rest) case Bad => Bad case Good(y, rest') => Good(P(x, y), rest'))
    case Done => Good(Unit, b)
  }

  function ParseAll(f: Fmt, n: nat, b: seq<Octet>): Parsed<seq<Val>>
    decreases f, 2, n
  {
    if n == 0 then Good([], b)
    else
      match Parse(f, b)
      case Bad => Bad
      case Good(v, rest) => match ParseAll(f, n - 1, rest) case Bad => Bad case Good(vs, rest') => Good([v] + vs, rest')
  }

  // ----- reading back what was written -----

  lemma Split(a: seq<Octet>, b: seq<Octet>)
    ensures (a + b)[..|a|] == a && (a + b)[|a|..] == b
  {
  }

  lemma {:induction false} CountBack(max: nat, n: nat, rest: seq<Octet>)
    requires Fits(4, max) && n <= max
    ensures ParseCount(max, LittleEndian(4, n) + rest) == Good(n, rest)
  {
    FitsBelow(4, n, max);
    NumberOfEncoding(4, n);
    Split(LittleEndian(4, n), rest);
  }

  lemma {:induction false} TextBack(max: nat, text: seq<Octet>, rest: seq<Octet>)
    requires Fits(4, max) && |text| <= max
    ensures ParseText(max, WriteText(text) + rest) == Good(text, rest)
  {
    assert WriteText(text) + rest == LittleEndian(4, |text|) + (text + rest);
    CountBack(max, |text|, text + rest);
    Split(text, rest);
  }

  /** Whatever is written is read back, and nothing after it is touched. */
  lemma {:induction false} ParseWritten(f: Fmt, v: Val, rest: seq<Octet>)
    requires Sound(f) && Admits(f, v)
    ensures Parse(f, Write(f, v) + rest) == Good(v, rest)
    decreases f, 1, 0
  {
    match f
    case Num(width, _, _) =>
      NumberOfEncoding(width, v.n);
      Split(LittleEndian(width, v.n), rest);
    case Blob(_) => Split(v.bytes, rest);
    case Text(max) => TextBack(max, v.bytes, rest);
    case Literal(text, max) => TextBack(max, text, rest);
    case List(max, item) =>
      var body := WriteAll(item, v.items);
      assert Write(f, v) + rest == LittleEndian(4, |v.items|) + (body + rest);
      CountBack(max, |v.items|, body + rest);
      ParseAllWritten(item, v.items, rest);
    case Then(first, next) =>
      assert Write(f, v) + rest == Write(first, v.first) + (Write(next, v.next) + rest);
      ParseWritten(first, v.first, Write(next, v.next) + rest);
      ParseWritten(next, v.next, rest);
    case Done => assert Write(f, v) + rest == rest;
  }

  lemma {:induction false} ParseAllWritten(f: Fmt, vs: seq<Val>, rest: seq<Octet>)
    requires Sound(f) && AdmitsAll(f, vs)
    ensures ParseAll(f, |vs|, WriteAll(f, vs) + rest) == Good(vs, rest)
    decreases f, 2, |vs|
  {
    if vs == [] {
      assert WriteAll(f, vs) + rest == rest;
    } else {
      assert WriteAll(f, vs) + rest == Write(f, vs[0]) + (WriteAll(f, vs[1..]) + rest);
      ParseWritten(f, vs[0], WriteAll(f, vs[1..]) + rest);
      ParseAllWritten(f, vs[1..], rest);
      assert [vs[0]] + vs[1..] == vs;
    }
  }

  // ----- everything accepted was written -----

  lemma {:induction false} NumWritten(width: nat, b: seq<Octet>)
    requires ParseNum(width, b).Good?
    ensures var r := ParseNum(width, b); Fits(width, r.value) && b == LittleEndian(width, r.value) + r.rest
  {
    EncodingOfNumber(b[..width]);
  }

  lemma TextWritten(max: nat, b: seq<Octet>)
    requires ParseText(max, b).Good?
    ensures var r := ParseText(max, b); |r.value| <= max && b == WriteText(r.value) + r.rest
  {
    NumWritten(4, b);
    var n := ParseCount(max, b);
    assert n.rest == n.rest[..n.value] + n.rest[n.value..];
  }

  /** Only encodings of admitted values are accepted: the encoding is canonical. */
  lemma {:induction false} ParsedIsWritten(f: Fmt, b: seq<Octet>)
    requires Parse(f, b).Good?
    ensures Admits(f, Parse(f, b).value) && b == Write(f, Parse(f, b).value) + Parse(f, b).rest
    decreases f, 1, 0
  {
    match f
    case Num(width, _, _) => NumWritten(width, b);
    case Blob(size) => assert b == b[..size] + b[size..];
    case Text(max) => TextWritten(max, b);
    case Literal(text, max) => TextWritten(max, b);
    case List(max, item) => ListWritten(max, item, b);
    case Then(first, next) =>
      var x := Parse(first, b);
      ParsedIsWritten(first, b);
      ParsedIsWritten(next, x.rest);
      Regroup(Write(first, x.value), Write(next, Parse(next, x.rest).value), Parse(next, x.rest).rest);
    case Done => assert b == [] + b;
  }

  lemma Regroup(a: seq<Octet>, b: seq<Octet>, c: seq<Octet>)
    ensures a + (b + c) == (a + b) + c
  {
  }

  lemma {:induction false} ListWritten(max: nat, item: Fmt, b: seq<Octet>)
    requires Parse(List(max, item), b).Good?
    ensures var r := Parse(List(max, item), b);
              Admits(List(max, item), r.value) && b == Write(List(max, item), r.value) + r.rest
    decreases item, 3, 0
  {
    NumWritten(4, b);
    var n := ParseCount(max, b);
    ParsedAllIsWritten(item, n.value, n.rest);
    var vs := ParseAll(item, n.value, n.rest);
    Regroup(LittleEndian(4, n.value), WriteAll(item, vs.value), vs.rest);
  }

  lemma {:induction false} ParsedAllIsWritten(f: Fmt, n: nat, b: seq<Octet>)
    requires ParseAll(f, n, b).Good?
    ensures var r := ParseAll(f, n, b); |r.value| == n && AdmitsAll(f, r.value) && b == WriteAll(f, r.value) + r.rest
    decreases f, 2, n
  {
    if n > 0 {
      ParsedIsWritten(f, b);
      var v := Parse(f, b);
      ParsedAllIsWritten(f, n - 1, v.rest);
      var vs := ParseAll(f, n - 1, v.rest);
      assert ([v.value] + vs.value)[1..] == vs.value;
      Regroup(Write(f, v.value), WriteAll(f, vs.value), vs.rest);
    }
  }

  /** No accepted encoding is a proper prefix of another. */
  lemma {:induction false} PrefixFree(f: Fmt, u: Val, v: Val, tail: seq<Octet>)
    requires Sound(f) && Admits(f, u) && Admits(f, v) && Write(f, u) + tail == Write(f, v)
    ensures tail == [] && u == v
  {
    ParseWritten(f, u, tail);
    ParseWritten(f, v, []);
    assert Write(f, v) + [] == Write(f, v);
  }
}
