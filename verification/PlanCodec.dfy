/** The sticky reader (src/buffer.cpp:66-205) and the encoded plan (src/plan.cpp:17-45, 186-242, 249-403). */
module PlanCodec {
  import opened Candidates
  import opened WireFormat

  /** What a read reports: the value at the front, or a failure that is never cleared. */
  ghost predicate Reports<T>(failedBefore: bool, expected: Parsed<T>, value: T, failed: bool, after: seq<Octet>) {
    && (failedBefore ==> failed)
    && (!failedBefore ==> (failed <==> expected.Bad?) && (expected.Good? ==>
       value == expected.value && after == expected.rest))
  }

  lemma {:induction false} NumberJoin(a: seq<Octet>, b: seq<Octet>, unit: nat)
    requires unit == Unit256(|a|)
    ensures Number(a + b) == Number(a) + unit * Number(b)
    decreases |a|
  {
    if a == [] {
      assert a + b == b;
    } else {
      NumberJoin(a[1..], b, Unit256(|a| - 1));
      assert (a + b)[1..] == a[1..] + b;
      Scale(Unit256(|a| - 1), Number(b));
    }
  }

  lemma Scale(u: nat, n: nat)
    ensures 256 * (u * n) == (256 * u) * n
  {
  }

  function Unit256(k: nat): nat {
    if k == 0 then 1 else 256 * Unit256(k - 1)
  }

  /** Reads a number as a low and a high half. */
  lemma {:induction false} HalvesAreNumber(width: nat, b: seq<Octet>)
    ensures var lo := ParseNum(width, b);
            var hi := if lo.Good? then ParseNum(width, lo.rest) else Bad;
            ParseNum(2 * width, b) == if hi.Good? then Good(lo.value + Unit256(width) * hi.value, hi.rest) else Bad
  {
    if |b| >= 2 * width {
      assert b[..2 * width] == b[..width] + b[width..][..width];
      NumberJoin(b[..width], b[width..][..width], Unit256(width));
      assert b[width..][width..] == b[2 * width..];
    }
  }

  class ByteReader {
    const data: seq<Octet>
    var offset: nat
    var failed: bool

    ghost predicate Valid()
      reads this
    {
      offset <= |data|
    }

    ghost function Rest(): seq<Octet>
      reads this
      requires Valid()
    {
      data[offset..]
    }

    constructor (data: seq<Octet>)
      ensures Valid() && this.data == data && Rest() == data && !failed
    {
      this.data, offset, failed := data, 0, false;
    }

    method U8() returns (out: nat)
      requires Valid()
      modifies this
      ensures Valid() && Reports(old(failed), ParseNum(1, old(Rest())), out, failed, Rest())
    {
      out := 0;
      if failed {
        return;
      }
      if |data| - offset < 1 {
        failed := true;
        return;
      }
      out := data[offset];
      offset := offset + 1;
      assert Number(old(Rest())[..1]) == out by {
        assert old(Rest())[..1] == [out] && [out as Octet][1..] == [];
        assert Number([out as Octet]) == out + 256 * Number([]);
      }
    }

    method U16() returns (out: nat)
      requires Valid()
      modifies this
      ensures Valid() && Reports(old(failed), ParseNum(2, old(Rest())), out, failed, Rest())
    {
      HalvesAreNumber(1, Rest());
      var low := U8();
      out := 0;
      if failed {
        return;
      }
      var high := U8();
      if failed {
        return;
      }
      out := low + 256 * high;
    }

    method U32() returns (out: nat)
      requires Valid()
      modifies this
      ensures Valid() && Reports(old(failed), ParseNum(4, old(Rest())), out, failed, Rest())
    {
      HalvesAreNumber(2, Rest());
      var low := U16();
      out := 0;
      if failed {
        return;
      }
      var high := U16();
      if failed {
        return;
      }
      assert Unit256(2) == 256 * Unit256(1) == 0x1_0000;
      out := low + 0x1_0000 * high;
    }

    method U64() returns (out: nat)
      requires Valid()
      modifies this
      ensures Valid() && Reports(old(failed), ParseNum(8, old(Rest())), out, failed, Rest())
    {
      HalvesAreNumber(4, Rest());
      var low := U32();
      out := 0;
      if failed {
        return;
      }
      var high := U32();
      if failed {
        return;
      }
      assert Unit256(4) == 256 * Unit256(3) && Unit256(3) == 256 * Unit256(2) && Unit256(2) == 0x1_0000;
      out := low + 0x1_0000_0000 * high;
    }

    method Raw(size: nat) returns (out: seq<Octet>)
      requires Valid()
      modifies this
      ensures Valid() && Reports(old(failed), ParseBlob(size, old(Rest())), out, failed, Rest())
    {
      out := [];
      if failed {
        return;
      }
      if size > |data| - offset {
        failed := true;
        return;
      }
      out := data[offset..offset + size];
      offset := offset + size;
      assert out == old(Rest())[..size] && Rest() == old(Rest())[size..];
    }

    method Count(max: nat) returns (out: nat)
      requires Valid()
      modifies this
      ensures Valid() && Reports(old(failed), ParseCount(max, old(Rest())), out, failed, Rest())
      ensures failed ==> out == 0
    {
      out := 0;
      var n := U32();
      if failed {
        return;
      }
      if n > max {
        failed := true;
        return;
      }
      out := n;
    }

    method ReadText(max: nat) returns (out: seq<Octet>)
      requires Valid()
      modifies this
      ensures Valid() && Reports(old(failed), ParseText(max, old(Rest())), out, failed, Rest())
    {
      out := [];
      var n := Count(max);
      if !failed {
        out := Raw(n);
      }
    }
  
    /** Reads a number of one, two, four or eight octets and checks its range. */
    method ReadNum(width: nat, lo: nat, hi: nat) returns (v: Val)
      requires Valid() && (width == 1 || width == 2 || width == 4 || width == 8)
      modifies this
      ensures Valid() && Reports(old(failed), Parse(Num(width, lo, hi), old(Rest())), v, failed, Rest())
    {
      var n;
      match width {
        case 1 => n := U8();
        case 2 => n := U16();
        case 4 => n := U32();
        case _ => n := U64();
      }
      v := N(n);
      if !(lo <= n <= hi) {
        failed := true;
      }
    }

    /** Reads the items of a list; items read after a failure are read all the same and change nothing. */
    method ReadItems(item: Fmt, count: nat) returns (items: seq<Val>)
      requires Valid() && Readable(item)
      modifies this
      ensures Valid() && Reports(old(failed), ParseAll(item, count, old(Rest())), items, failed, Rest())
      decreases item, 2, count
    {
      items := [];
      ghost var start, sticky := Rest(), failed;
      ResumesStart(ParseAll(item, count, start));
      for i := 0 to count
        invariant Valid() && (sticky ==> failed)
        invariant !sticky ==> Resumes(ParseAll(item, count, start), items, failed, ParseAll(item, count - i, Rest()))
      {
        ghost var front, stuck := Rest(), failed;
        var v := ReadVal(item);
        if !stuck {
          ResumesStep(ParseAll(item, count, start), items, item, count - i, front, v, failed, Rest());
        }
        items := items + [v];
      }
      assert items + [] == items;
    }

    method ReadVal(f: Fmt) returns (v: Val)
      requires Valid() && Readable(f)
      modifies this
      ensures Valid() && Reports(old(failed), Parse(f, old(Rest())), v, failed, Rest())
      decreases f, 1, 0
    {
      match f
      case Num(width, lo, hi) => v := ReadNum(width, lo, hi);
      case Blob(size) =>
        var x := Raw(size);
        v := B(x);
      case Text(max) =>
        var x := ReadText(max);
        v := B(x);
      case Literal(text, max) =>
        var x := ReadText(max);
        v := Unit;
        if x != text {
          failed := true;
        }
      case List(max, item) =>
        var n := Count(max);
        var items := ReadItems(item, n);
        v := L(items);
      case Then(first, next) =>
        var x := ReadVal(first);
        var y := ReadVal(next);
        v := P(x, y);
      case Done => v := Unit;
    }
  }

  /** Numbers come in the widths the reader has. */
  predicate Readable(f: Fmt) {
    match f
    case Num(width, _, _) => width == 1 || width == 2 || width == 4 || width == 8
    case List(_, item) => Readable(item)
    case Then(first, next) => Readable(first) && Readable(next)
    case _ => true
  }

  /** Parsing the whole list continues what has been read so far with what is still to come. */
  ghost predicate Resumes(whole: Parsed<seq<Val>>, items: seq<Val>, failed: bool, remaining: Parsed<seq<Val>>) {
    if failed then whole.Bad?
    else whole == match remaining case Bad => Bad case Good(vs, rest) => Good(items + vs, rest)
  }

  lemma ResumesStart(whole: Parsed<seq<Val>>)
    ensures Resumes(whole, [], false, whole)
  {
    if whole.Good? {
      assert [] + whole.value == whole.value;
    }
  }

  lemma ResumesStep(whole: Parsed<seq<Val>>, items: seq<Val>, item: Fmt, left: nat, front: seq<Octet>, v: Val,
      failed: bool, rest: seq<Octet>)
    requires left > 0 && Resumes(whole, items, false, ParseAll(item, left, front))
    requires Reports(false, Parse(item, front), v, failed, rest)
    ensures Resumes(whole, items + [v], failed, ParseAll(item, left - 1, rest))
  {
    var tail := ParseAll(item, left - 1, rest);
    if !failed && tail.Good? {
      assert items + ([v] + tail.value) == items + [v] + tail.value;
    }
  }

  // ----- the encoded plan -----

  const MAX_RECORD: nat := 0x100_0000
  const ID_BYTES: nat := 64
  const U64_MAX: nat := 0xFFFF_FFFF_FFFF_FFFF
  const U32_MAX: nat := 0xFFFF_FFFF

  /** The octets of the tag cpath.plan.v1. */
  const PlanTag: seq<Octet> := [99, 112, 97, 116, 104, 46, 112, 108, 97, 110, 46, 118, 49]

  function Row(fields: seq<Fmt>): Fmt {
    if fields == [] then Done else Then(fields[0], Row(fields[1..]))
  }

  function Long(): Fmt {
    Num(8, 0, U64_MAX)
  }

  function Name(): Fmt {
    Text(ID_BYTES)
  }

  /** Index, logical edges, paths. */
  function StageFields(): seq<Fmt> {
    [Num(4, 0, U32_MAX), List(262144, Long()), List(262144, Long())]
  }

  /** Edge, from, to. */
  function HopFields(): seq<Fmt> {
    [Name(), Name(), Name()]
  }

  /** Id, logical edge, source, target, stage, hops, cost, bottleneck, domain signature, weakest evidence. */
  function PathFields(): seq<Fmt> {
    [Long(), Long(), Name(), Name(), Num(4, 0, U32_MAX), List(256, Row(HopFields())), Long(), Long(),
        List(65536, Name()), Num(1, 0, 2)]
  }

  /** Edge, amount. */
  function AllocationFields(): seq<Fmt> {
    [Name(), Long()]
  }

  /** Field positions used by the checks after parsing. */
  const INPUT_DIGEST: nat := 2
  const PATHS: nat := 13
  const PATH_COUNT: nat := 17

  /** Tag, version, input digest, generation, five bound generations, collective, kind, stage count, stages, paths,
      allocations, six statistics, weakest evidence. */
  function PlanFields(): seq<Fmt> {
    [Literal(PlanTag, 64), Num(2, 1, 1), Blob(32), Long(), Long(), Long(), Long(), Long(), Long(), Name(), Num(1, 0, 4),
     Num(4, 1, 64), List(64, Row(StageFields())), List(262144, Row(PathFields())),
         List(1048576, Row(AllocationFields())),
     Long(), Long(), Long(), Long(), Long(), Long(), Num(1, 0, 2)]
  }

  function PlanFmt(): Fmt {
    Row(PlanFields())
  }

  function FieldAt(v: Val, i: nat): Val {
    if !v.P? then Unit else if i == 0 then v.first else FieldAt(v.next, i - 1)
  }

  /** The checks on a parsed plan: the path count is the number of paths and the input digest is not zero. */
  predicate Consistent(v: Val) {
    var paths, count, digest := FieldAt(v, PATHS), FieldAt(v, PATH_COUNT), FieldAt(v, INPUT_DIGEST);
    && paths.L? && count == N(|paths.items|)
    && digest.B? && exists i | 0 <= i < |digest.bytes| :: digest.bytes[i] != 0
  }

  predicate Usable(f: Fmt) {
    Sound(f) && Readable(f)
  }

  lemma {:induction false} RowUsable(fields: seq<Fmt>)
    requires forall i | 0 <= i < |fields| :: Usable(fields[i])
    ensures Usable(Row(fields))
  {
    if fields != [] {
      RowUsable(fields[1..]);
    }
  }

  lemma {:induction false} FitsFour(n: nat)
    requires n <= U32_MAX
    ensures Fits(4, n)
  {
    assert Fits(0, n / 256 / 256 / 256 / 256);
    assert Fits(1, n / 256 / 256 / 256);
    assert Fits(2, n / 256 / 256);
    assert Fits(3, n / 256);
  }

  lemma PartsUsable()
    ensures Usable(Name()) && Usable(Row(StageFields())) && Usable(Row(PathFields())) && Usable(Row(AllocationFields()))
  {
    FitsFour(64);
    FitsFour(256);
    FitsFour(65536);
    FitsFour(262144);
    RowUsable(StageFields());
    RowUsable(HopFields());
    RowUsable(AllocationFields());
    RowUsable(PathFields());
  }

  lemma PlanFmtSound()
    ensures Usable(PlanFmt())
  {
    PartsUsable();
    FitsFour(64);
    FitsFour(262144);
    FitsFour(1048576);
    RowUsable(PlanFields());
  }

  /** What decode returns for a byte string read with layout f. */
  function Decoded(f: Fmt, bytes: seq<Octet>): Option<Val> {
    if |bytes| > MAX_RECORD then None
    else
      match Parse(f, bytes)
      case Bad => None
      case Good(v, rest) => if rest == [] && Consistent(v) then Some(v) else None
  }

  method Decode(f: Fmt, bytes: seq<Octet>) returns (r: Option<Val>)
    requires Readable(f)
    ensures r == Decoded(f, bytes)
  {
    if |bytes| > MAX_RECORD {
      return None;
    }
    var reader := new ByteReader(bytes);
    var v := reader.ReadVal(f);
    if reader.failed || reader.offset != |bytes| || !Consistent(v) {
      return None;
    }
    return Some(v);
  }

  method DecodePlan(bytes: seq<Octet>) returns (r: Option<Val>)
    ensures r == Decoded(PlanFmt(), bytes)
  {
    PlanFmtSound();
    r := Decode(PlanFmt(), bytes);
  }

  /** Decoding accepts exactly the encodings of consistent values within bounds, and returns the value encoded. */
  lemma {:induction false} DecodeInvertsEncode(f: Fmt, bytes: seq<Octet>, v: Val)
    requires Sound(f)
    ensures Decoded(f, bytes) == Some(v) <==>
              Admits(f, v) && Consistent(v) && bytes == Write(f, v) && |bytes| <= MAX_RECORD
  {
    if Decoded(f, bytes) == Some(v) {
      ParsedIsWritten(f, bytes);
    }
    if Admits(f, v) && bytes == Write(f, v) {
      ParseWritten(f, v, []);
      assert bytes + [] == bytes;
    }
  }

  /** The same for plans. */
  lemma {:induction false} PlanRoundTrip(bytes: seq<Octet>, v: Val)
    ensures Decoded(PlanFmt(), bytes) == Some(v) <==>
            Admits(PlanFmt(), v) && Consistent(v) && bytes == Write(PlanFmt(), v) && |bytes| <= MAX_RECORD
  {
    PlanFmtSound();
    DecodeInvertsEncode(PlanFmt(), bytes, v);
  }

  /** Appending anything to an accepted plan makes it unacceptable. */
  lemma {:induction false} PlanPrefixFree(bytes: seq<Octet>, tail: seq<Octet>)
    requires Decoded(PlanFmt(), bytes).Some? && tail != []
    ensures Decoded(PlanFmt(), bytes + tail).None?
  {
    PlanFmtSound();
    NoExtension(PlanFmt(), bytes, tail);
  }

  lemma {:induction false} NoExtension(f: Fmt, bytes: seq<Octet>, tail: seq<Octet>)
    requires Sound(f) && Decoded(f, bytes).Some? && tail != []
    ensures Decoded(f, bytes + tail).None?
  {
    var v := Decoded(f, bytes).value;
    DecodeInvertsEncode(f, bytes, v);
    if Decoded(f, bytes + tail).Some? {
      var u := Decoded(f, bytes + tail).value;
      DecodeInvertsEncode(f, bytes + tail, u);
      PrefixFree(f, v, u, tail);
    }
  }
}
