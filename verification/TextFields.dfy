/** Numbers, lists and assignments of the request text (src/dsl.cpp:23-131). */
module TextFields {
  import opened Candidates

  const U64_LIMIT: nat := 0x1_0000_0000_0000_0000

  // ----- numbers -----

  predicate IsDigit(c: char) {
    '0' <= c <= '9'
  }

  function DigitValue(c: char): nat
    requires IsDigit(c)
  {
    c as int - '0' as int
  }

  function DigitChar(d: nat): char
    requires d < 10
  {
    ('0' as int + d) as char
  }

  predicate AllDigits(s: string) {
    forall i | 0 <= i < |s| :: IsDigit(s[i])
  }

  function ValueOf(s: string): nat
    requires AllDigits(s)
  {
    if s == [] then 0 else 10 * ValueOf(s[..|s| - 1]) + DigitValue(s[|s| - 1])
  }

  /** The one way to write a number. */
  function Decimal(n: nat): string {
    if n < 10 then [DigitChar(n)] else Decimal(n / 10) + [DigitChar(n % 10)]
  }

  predicate Canonical(s: string) {
    s != [] && AllDigits(s) && (|s| > 1 ==> s[0] != '0')
  }

  lemma {:induction false} DecimalIsCanonical(n: nat)
    ensures Canonical(Decimal(n)) && ValueOf(Decimal(n)) == n && (n > 0 ==> Decimal(n)[0] != '0')
  {
    if n >= 10 {
      DecimalIsCanonical(n / 10);
      var s := Decimal(n / 10);
      assert (s + [DigitChar(n % 10)])[..|s|] == s;
    } else {
      assert Decimal(n)[..0] == [];
      assert ValueOf(Decimal(n)) == 10 * ValueOf([]) + n;
    }
  }

  lemma {:induction false} CanonicalIsDecimal(s: string)
    requires Canonical(s)
    ensures Decimal(ValueOf(s)) == s && (|s| > 1 ==> ValueOf(s) >= 10) && (s[0] != '0' ==> ValueOf(s) > 0)
    decreases |s|
  {
    var init, last := s[..|s| - 1], s[|s| - 1];
    if |s| == 1 {
      assert ValueOf(s) == DigitValue(last) && s == [last];
    } else {
      CanonicalIsDecimal(init);
      assert s == init + [last];
      assert ValueOf(s) / 10 == ValueOf(init) && ValueOf(s) % 10 == DigitValue(last);
    }
  }

  lemma {:induction false} ValueGrows(s: string, n: nat)
    requires AllDigits(s) && n <= |s|
    ensures ValueOf(s[..n]) <= ValueOf(s)
    decreases |s| - n
  {
    if n < |s| {
      ValueGrows(s, n + 1);
      assert s[..n + 1][..n] == s[..n];
    } else {
      assert s[..n] == s;
    }
  }

  /** The number a text stands for. */
  function ReadNumber(text: string, limit: nat): Option<nat> {
    if Canonical(text) && ValueOf(text) < limit then Some(ValueOf(text)) else None
  }

  lemma {:induction false} NumberReadsBack(n: nat, limit: nat)
    requires n < limit
    ensures ReadNumber(Decimal(n), limit) == Some(n)
  {
    DecimalIsCanonical(n);
  }

  /** parse_u64 accepts exactly the canonical decimals below 2^64. */
  method ParseU64(text: string) returns (r: Option<nat>)
    ensures r == ReadNumber(text, U64_LIMIT)
    ensures r.Some? ==> r.value < U64_LIMIT && text == Decimal(r.value)
    ensures r.None? ==> forall n: nat | n < U64_LIMIT :: text != Decimal(n)
  {
    OnlyCanonical(text);
    if text == [] || (|text| > 1 && text[0] == '0') {
      return None;
    }
    var value := 0;
    for i := 0 to |text|
      invariant AllDigits(text[..i]) && value == ValueOf(text[..i]) && value < U64_LIMIT
    {
      if !IsDigit(text[i]) {
        return None;
      }
      var digit := DigitValue(text[i]);
      assert text[..i + 1][..i] == text[..i];
      if value > (U64_LIMIT - 1 - digit) / 10 {
        TooLarge(text, i);
        if AllDigits(text) {
          ValueGrows(text, i + 1);
        }
        return None;
      }
      value := value * 10 + digit;
    }
    assert text[..|text|] == text;
    CanonicalIsDecimal(text);
    r := Some(value);
  }

  lemma {:induction false} OnlyCanonical(text: string)
    ensures !Canonical(text) ==> forall n: nat | n < U64_LIMIT :: text != Decimal(n)
  {
    forall n: nat
      ensures Canonical(Decimal(n))
    {
      DecimalIsCanonical(n);
    }
  }

  lemma {:induction false} TooLarge(text: string, i: nat)
    requires i < |text| && AllDigits(text[..i + 1]) && ValueOf(text[..i + 1]) >= U64_LIMIT
    ensures forall n: nat | n < U64_LIMIT :: text != Decimal(n)
  {
    forall n: nat | n < U64_LIMIT
      ensures text != Decimal(n)
    {
      DecimalIsCanonical(n);
      if text == Decimal(n) {
        ValueGrows(text, i + 1);
      }
    }
  }

  // ----- lists -----

  predicate Free(s: string, c: char) {
    forall i | 0 <= i < |s| :: s[i] != c
  }

  /** Items separated by single separators. */
  function Join(items: seq<string>, sep: char): string {
    if items == [] then [] else if |items| == 1 then items[0] else items[0] + [sep] + Join(items[1..], sep)
  }

  ghost predicate ItemsFree(items: seq<string>, sep: char) {
    forall i | 0 <= i < |items| :: Free(items[i], sep)
  }

  /** The first position of the separator at or after start, or the length of the text. */
  method FindSeparator(text: string, sep: char, start: nat) returns (p: nat)
    requires start <= |text|
    ensures start <= p <= |text| && Free(text[start..p], sep) && (p < |text| ==> text[p] == sep)
  {
    p := start;
    while p < |text| && text[p] != sep
      invariant start <= p <= |text| && Free(text[start..p], sep)
    {
      assert text[start..p + 1] == text[start..p] + [text[p]];
      p := p + 1;
    }
  }

  lemma {:induction false} JoinSnoc(items: seq<string>, sep: char, x: string)
    requires items != []
    ensures Join(items + [x], sep) == Join(items, sep) + [sep] + x
    decreases |items|
  {
    if |items| > 1 {
      JoinSnoc(items[1..], sep, x);
      assert (items + [x])[1..] == items[1..] + [x];
    } else {
      assert (items + [x])[1..] == [x];
    }
  }

  /** Splitting loses nothing and leaves no separator inside an item; the empty text has no items. */
  method SplitList(text: string, sep: char) returns (items: seq<string>)
    ensures Join(items, sep) == text && ItemsFree(items, sep) && (items == [] <==> text == [])
    ensures items == ListItems(text, sep)
  {
    items := [];
    if text == [] {
      return;
    }
    var p := FindSeparator(text, sep, 0);
    items := [text[..p]];
    assert text[0..p] == text[..p];
    while p < |text|
      invariant p <= |text| && items != [] && ItemsFree(items, sep)
      invariant Join(items, sep) == text[..p] && (p < |text| ==> text[p] == sep)
      decreases |text| - p
    {
      var q := FindSeparator(text, sep, p + 1);
      JoinSnoc(items, sep, text[p + 1..q]);
      assert text[..q] == text[..p] + [sep] + text[p + 1..q];
      items := items + [text[p + 1..q]];
      p := q;
    }
    assert text[..|text|] == text;
    SplitJoined(items, sep);
  }

  /** A list field has no items when it is empty. */
  function ListItems(text: string, sep: char): seq<string> {
    if text == [] then [] else Split(text, sep)
  }

  /** The items between the separators; every text has at least one. */
  function Split(text: string, sep: char): (items: seq<string>)
    ensures items != [] && Join(items, sep) == text && ItemsFree(items, sep)
  {
    if text == [] then [[]]
    else if text[0] == sep then [[]] + Split(text[1..], sep)
    else
      var rest := Split(text[1..], sep);
      FirstItem(rest, sep);
      var items := [[text[0]] + rest[0]] + rest[1..];
      FirstItem(items, sep);
      items
  }

  /** Splitting starts with the text before the first separator. */
  lemma {:induction false} SplitFirst(text: string, sep: char, p: nat)
    requires p <= |text| && Free(text[..p], sep) && (p < |text| ==> text[p] == sep)
    ensures Split(text, sep) == [text[..p]] + if p < |text| then Split(text[p + 1..], sep) else []
  {
    var items := [text[..p]] + if p < |text| then Split(text[p + 1..], sep) else [];
    assert text == text[..p] + if p < |text| then [sep] + text[p + 1..] else [];
    FirstItem(items, sep);
    JoinInjective(Split(text, sep), items, sep);
  }

  lemma {:induction false} SplitJoined(items: seq<string>, sep: char)
    requires items != [] && ItemsFree(items, sep)
    ensures Split(Join(items, sep), sep) == items
  {
    JoinInjective(items, Split(Join(items, sep), sep), sep);
  }

  /** Items without separators are determined by their joined text, so splitting returns what was joined. */
  lemma {:induction false} JoinInjective(a: seq<string>, b: seq<string>, sep: char)
    requires ItemsFree(a, sep) && ItemsFree(b, sep) && a != [] && b != [] && Join(a, sep) == Join(b, sep)
    ensures a == b
    decreases |a|
  {
    FirstItem(a, sep);
    FirstItem(b, sep);
    var x, y, text := a[0], b[0], Join(a, sep);
    assert (text + [sep])[|x|] == sep && (text + [sep])[|y|] == sep;
    assert |x| == |y|;
    assert x == text[..|x|] == y;
    if |a| > 1 && |b| > 1 {
      assert text[|x| + 1..] == Join(a[1..], sep) == Join(b[1..], sep);
      JoinInjective(a[1..], b[1..], sep);
      assert a == [x] + a[1..] && b == [y] + b[1..];
    }
  }

  lemma {:induction false} FirstItem(a: seq<string>, sep: char)
    requires a != []
    ensures a[0] <= Join(a, sep) && (|a| == 1 ==> Join(a, sep) == a[0])
    ensures |a| > 1 ==> Join(a, sep) == a[0] + [sep] + Join(a[1..], sep)
  {
  }

  // ----- assignments -----

  datatype Assignment = Assignment(key: string, value: string)

  predicate IsSpace(c: char) {
    c == ' ' || c == '\t'
  }

  /** Characters that may occur in a value. */
  predicate Solid(s: string) {
    forall i | 0 <= i < |s| :: !IsSpace(s[i])
  }

  /** Keys and values are not empty and hold no blanks; keys hold no equals sign. */
  predicate Proper(a: Assignment) {
    a.key != [] && a.value != [] && Solid(a.key) && Solid(a.value) && Free(a.key, '=')
  }

  predicate Has(entries: seq<Assignment>, key: string) {
    exists i | 0 <= i < |entries| :: entries[i].key == key
  }

  /** Proper assignments with distinct keys. */
  ghost predicate Entries(entries: seq<Assignment>) {
    && (forall i | 0 <= i < |entries| :: Proper(entries[i]))
    && (forall i, j | 0 <= i < j < |entries| :: entries[i].key != entries[j].key)
  }

  // ----- reading assignments -----

  function SkipBlanks(text: string, i: nat): (j: nat)
    requires i <= |text|
    ensures i <= j <= |text| && (j < |text| ==> !IsSpace(text[j]))
    decreases |text| - i
  {
    if i < |text| && IsSpace(text[i]) then SkipBlanks(text, i + 1) else i
  }

  function KeyEnd(text: string, i: nat): (j: nat)
    requires i <= |text|
    ensures i <= j <= |text| && (j < |text| ==> IsSpace(text[j]) || text[j] == '=')
    ensures forall k | i <= k < j :: !IsSpace(text[k]) && text[k] != '='
    decreases |text| - i
  {
    if i < |text| && !IsSpace(text[i]) && text[i] != '=' then KeyEnd(text, i + 1) else i
  }

  function ValueEnd(text: string, i: nat): (j: nat)
    requires i <= |text|
    ensures i <= j <= |text| && (j < |text| ==> IsSpace(text[j])) && forall k | i <= k < j :: !IsSpace(text[k])
    decreases |text| - i
  {
    if i < |text| && !IsSpace(text[i]) then ValueEnd(text, i + 1) else i
  }

  datatype Scan = Malformed | Found(entry: Assignment, end: nat)

  /** The assignment that starts at position i and where it ends. */
  function NextAt(text: string, i: nat): (r: Scan)
    requires i < |text|
    ensures r.Found? ==> i < r.end <= |text|
  {
    var eq := KeyEnd(text, i);
    if eq == |text| || text[eq] != '=' then Malformed
    else
      var end := ValueEnd(text, eq + 1);
      var a := Assignment(text[i..eq], text[eq + 1..end]);
      if a.key == [] || a.value == [] then Malformed else Found(a, end)
  }

  /** The entries from position i on, added to those already found; None on the first malformed or repeated one. */
  function ReadFrom(text: string, i: nat, entries: seq<Assignment>): Option<seq<Assignment>>
    requires i <= |text|
    decreases |text| - i
  {
    var start := SkipBlanks(text, i);
    if start == |text| then Some(entries)
    else
      match NextAt(text, start)
      case Malformed => None
      case Found(a, end) => if Has(entries, a.key) then None else ReadFrom(text, end, entries + [a])
  }

  method ScanWhile(text: string, i: nat, stop: char -> bool) returns (j: nat)
    requires i <= |text|
    ensures i <= j <= |text| && (j < |text| ==> stop(text[j])) && forall k | i <= k < j :: !stop(text[k])
  {
    j := i;
    while j < |text| && !stop(text[j])
      invariant i <= j <= |text| && forall k | i <= k < j :: !stop(text[k])
    {
      j := j + 1;
    }
  }

  lemma {:induction false} SkipBlanksIs(text: string, i: nat, j: nat)
    requires i <= j <= |text| && (j < |text| ==> !IsSpace(text[j])) && forall k | i <= k < j :: IsSpace(text[k])
    ensures SkipBlanks(text, i) == j
    decreases j - i
  {
    if i < j {
      SkipBlanksIs(text, i + 1, j);
    }
  }

  lemma {:induction false} EndIs(text: string, i: nat, j: nat)
    requires i <= j <= |text|
    ensures (j < |text| ==> IsSpace(text[j]) || text[j] == '=')
            && (forall k | i <= k < j :: !IsSpace(text[k]) && text[k] != '=') ==>
              KeyEnd(text, i) == j
    ensures (j < |text| ==> IsSpace(text[j])) && (forall k | i <= k < j :: !IsSpace(text[k])) ==> ValueEnd(text, i) == j
  {
  }

  method ScanAssignment(text: string, start: nat) returns (r: Scan)
    requires start < |text|
    ensures r == NextAt(text, start)
  {
    var eq := ScanWhile(text, start, c => IsSpace(c) || c == '=');
    EndIs(text, start, eq);
    if eq == |text| || text[eq] != '=' {
      return Malformed;
    }
    var end := ScanWhile(text, eq + 1, c => IsSpace(c));
    EndIs(text, eq + 1, end);
    var a := Assignment(text[start..eq], text[eq + 1..end]);
    if a.key == [] || a.value == [] {
      return Malformed;
    }
    r := Found(a, end);
  }

  /** AssignmentList::parse. */
  method ReadAssignments(text: string) returns (r: Option<seq<Assignment>>)
    ensures r == ReadFrom(text, 0, [])
  {
    var entries, i := [], 0;
    while i < |text|
      invariant i <= |text| && ReadFrom(text, i, entries) == ReadFrom(text, 0, [])
      decreases |text| - i
    {
      var start := ScanWhile(text, i, c => !IsSpace(c));
      SkipBlanksIs(text, i, start);
      if start == |text| {
        return Some(entries);
      }
      var next := ScanAssignment(text, start);
      if next.Malformed? || Has(entries, next.entry.key) {
        return None;
      }
      entries, i := entries + [next.entry], next.end;
    }
    r := Some(entries);
  }

  lemma NextIsProper(text: string, i: nat)
    requires i < |text| && NextAt(text, i).Found?
    ensures Proper(NextAt(text, i).entry)
  {
  }

  /** Whatever is accepted is a list of proper assignments with distinct keys. */
  lemma {:induction false} AcceptedEntries(text: string, i: nat, entries: seq<Assignment>)
    requires i <= |text| && Entries(entries) && ReadFrom(text, i, entries).Some?
    ensures Entries(ReadFrom(text, i, entries).value)
    decreases |text| - i
  {
    var start := SkipBlanks(text, i);
    if start < |text| {
      var next := NextAt(text, start);
      NextIsProper(text, start);
      AcceptedEntries(text, next.end, entries + [next.entry]);
    }
  }

  // ----- writing them -----

  function Show(a: Assignment): string {
    a.key + ['='] + a.value
  }

  /** Entries separated by single blanks. */
  function Render(entries: seq<Assignment>): string {
    if entries == [] then [] else if |entries| == 1 then Show(entries[0])
        else Show(entries[0]) + [' '] + Render(entries[1..])
  }

  /** Reading what was written gives the entries back. */
  lemma {:induction false} ReadRendered(text: string, i: nat, done: seq<Assignment>, entries: seq<Assignment>,
      all: seq<Assignment>)
    requires i <= |text| && text[SkipBlanks(text, i)..] == Render(entries) && all == done + entries && Entries(all)
    ensures ReadFrom(text, i, done) == Some(all)
    decreases |entries|
  {
    if entries == [] {
      ReadsEnd(text, i, done, all);
    } else {
      var end := ReadsOne(text, i, done, entries);
      Shift(done, entries, all);
      ReadRendered(text, end, done + [entries[0]], entries[1..], all);
    }
  }

  lemma {:induction false} ReadsEnd(text: string, i: nat, done: seq<Assignment>, all: seq<Assignment>)
    requires i <= |text| && text[SkipBlanks(text, i)..] == [] && all == done + []
    ensures ReadFrom(text, i, done) == Some(all)
  {
    assert SkipBlanks(text, i) == |text| && all == done;
  }

  lemma Shift(done: seq<Assignment>, entries: seq<Assignment>, all: seq<Assignment>)
    requires entries != [] && all == done + entries
    ensures all == (done + [entries[0]]) + entries[1..]
  {
  }

  lemma {:induction false} ReadsOne(text: string, i: nat, done: seq<Assignment>, entries: seq<Assignment>)
      returns (end: nat)
    requires i <= |text| && text[SkipBlanks(text, i)..] == Render(entries) && entries != [] && Entries(done + entries)
    ensures end <= |text| && ReadFrom(text, i, done) == ReadFrom(text, end, done + [entries[0]])
    ensures text[SkipBlanks(text, end)..] == Render(entries[1..])
  {
    var start := SkipBlanks(text, i);
    end := start + |Show(entries[0])|;
    NotYet(done, entries);
    ReadsFirst(text, start, entries);
    NextEntry(text, start, entries);
    ReadStep(text, i, done, entries[0], end);
  }

  lemma NotYet(done: seq<Assignment>, entries: seq<Assignment>)
    requires Entries(done + entries) && entries != []
    ensures !Has(done, entries[0].key) && forall i | 0 <= i < |entries| :: Proper(entries[i])
  {
    var all := done + entries;
    assert forall i | 0 <= i < |entries| :: all[|done| + i] == entries[i];
    assert all[|done|] == entries[0];
    forall i | 0 <= i < |done|
      ensures done[i].key != entries[0].key
    {
      assert all[i] == done[i];
    }
  }

  lemma {:induction false} ReadsFirst(text: string, start: nat, entries: seq<Assignment>)
    requires start <= |text| && entries != [] && text[start..] == Render(entries) && Proper(entries[0])
    ensures start < |text| && NextAt(text, start) == Found(entries[0], start + |Show(entries[0])|)
  {
    FirstEntry(text, start, entries);
    NextIs(text, start, entries[0]);
  }

  lemma NextIs(text: string, start: nat, a: Assignment)
    requires Proper(a) && SpeltAt(text, start, a)
    ensures NextAt(text, start) == Found(a, start + |Show(a)|)
  {
    EndIs(text, start, start + |a.key|);
    EndIs(text, start + |a.key| + 1, start + |Show(a)|);
  }

  /** The assignment stands at this position, followed by a blank or the end of the text. */
  ghost predicate SpeltAt(text: string, start: nat, a: Assignment) {
    var eq, end := start + |a.key|, start + |a.key| + 1 + |a.value|;
    && end <= |text| && text[start..eq] == a.key && text[eq] == '=' && text[eq + 1..end] == a.value
    && (end < |text| ==> text[end] == ' ')
    && (forall k | start <= k < eq :: !IsSpace(text[k]) && text[k] != '=')
       && (forall k | eq < k < end :: !IsSpace(text[k]))
  }

  lemma {:induction false} ReadStep(text: string, i: nat, done: seq<Assignment>, a: Assignment, end: nat)
    requires i <= |text| && SkipBlanks(text, i) < |text| && NextAt(text, SkipBlanks(text, i)) == Found(a, end)
             && !Has(done, a.key)
    ensures ReadFrom(text, i, done) == ReadFrom(text, end, done + [a])
  {
  }

  lemma {:induction false} FirstEntry(text: string, start: nat, entries: seq<Assignment>)
    requires start <= |text| && entries != [] && text[start..] == Render(entries) && Proper(entries[0])
    ensures SpeltAt(text, start, entries[0])
  {
  }

  lemma {:induction false} NextEntry(text: string, start: nat, entries: seq<Assignment>)
    requires start <= |text| && entries != [] && text[start..] == Render(entries)
    requires forall i | 0 <= i < |entries| :: Proper(entries[i])
    ensures var end := start + |Show(entries[0])|;
              end <= |text| && text[SkipBlanks(text, end)..] == Render(entries[1..])
  {
  }

  /** The round trip for a whole line. */
  lemma {:induction false} RenderedLineReadsBack(entries: seq<Assignment>)
    requires Entries(entries)
    ensures ReadFrom(Render(entries), 0, []) == Some(entries)
  {
    var text := Render(entries);
    assert SkipBlanks(text, 0) == 0;
    assert text[0..] == text;
    ReadRendered(text, 0, [], entries, entries);
  }
}
