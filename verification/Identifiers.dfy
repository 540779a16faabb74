/**
  Identifiers (src/ids.cpp:14-72). An identifier is represented by its position in byte order: Position embeds the names
  in the numbers so that numbers compare as the names do, and Name reads the name back.
 */
module Identifiers {
  import opened Candidates

  const MAX_NAME: nat := 64
  const MAX_SHORT: nat := 32

  predicate FirstOk(c: char) {
    'a' <= c <= 'z' || 'A' <= c <= 'Z' || '0' <= c <= '9' || c == '_'
  }

  predicate CharOk(c: char) {
    FirstOk(c) || c == '-' || c == '.' || c == ':'
  }

  /** The grammar, for names of at most `most` bytes. */
  predicate ValidName(s: string, most: nat) {
    0 < |s| <= most && FirstOk(s[0]) && forall i | 0 <= i < |s| :: CharOk(s[i])
  }

  // ----- positions -----

  predicate Ascii(s: string) {
    forall i | 0 <= i < |s| :: 0 < s[i] as int < 128
  }

  /** Names of n more characters that follow a given start. */
  function Span(n: nat): (r: nat)
    ensures r > 0
  {
    if n == 0 then 1 else 128 * Span(n - 1)
  }

  function Position(s: string, n: nat): nat
    requires Ascii(s) && |s| <= n
  {
    if s == [] then 0 else s[0] as nat * Span(n - 1) + Position(s[1..], n - 1)
  }

  function NameAt(p: nat, n: nat): string
    requires p < Span(n)
  {
    if p == 0 || n == 0 then []
    else
      DigitInRange(p, Span(n - 1));
      [(p / Span(n - 1)) as char] + NameAt(p % Span(n - 1), n - 1)
  }

  lemma DigitInRange(p: nat, span: nat)
    requires span > 0 && p < 128 * span
    ensures 0 <= p / span < 128 && p % span < span && p == (p / span) * span + p % span
  {
    var d := p / span;
    assert p == d * span + p % span;
    if d >= 128 {
      TimesAtLeast(d, 128, span);
    }
  }

  lemma TimesAtLeast(a: nat, b: nat, c: nat)
    requires a >= b
    ensures a * c >= b * c
  {
  }

  lemma {:induction false} PositionBelow(s: string, n: nat)
    requires Ascii(s) && |s| <= n
    ensures Position(s, n) < Span(n)
  {
    if s != [] {
      PositionBelow(s[1..], n - 1);
      TimesAtLeast(127, s[0] as nat, Span(n - 1));
    }
  }

  lemma DigitsApart(d: nat, span: nat, rest: nat)
    requires rest < span
    ensures (d * span + rest) / span == d && (d * span + rest) % span == rest
  {
    var p := d * span + rest;
    var q, m := p / span, p % span;
    assert p == q * span + m;
    if q < d {
      TimesAtLeast(d, q + 1, span);
    } else if q > d {
      TimesAtLeast(q, d + 1, span);
    }
  }

  lemma {:induction false} NameOfPosition(s: string, n: nat)
    requires Ascii(s) && |s| <= n && Position(s, n) < Span(n)
    ensures NameAt(Position(s, n), n) == s
  {
    if s != [] {
      PositionBelow(s[1..], n - 1);
      DigitsApart(s[0] as nat, Span(n - 1), Position(s[1..], n - 1));
      TimesAtLeast(s[0] as nat, 1, Span(n - 1));
      NameOfPosition(s[1..], n - 1);
    }
  }

  lemma {:induction false} PositionOfName(p: nat, n: nat)
    requires p < Span(n) && Ascii(NameAt(p, n))
    ensures |NameAt(p, n)| <= n && Position(NameAt(p, n), n) == p
  {
    if p > 0 && n > 0 {
      DigitInRange(p, Span(n - 1));
      var s := NameAt(p, n);
      assert s[1..] == NameAt(p % Span(n - 1), n - 1);
      PositionOfName(p % Span(n - 1), n - 1);
    }
  }

  /** Byte order. */
  predicate Before(a: string, b: string) {
    b != [] && (a == [] || a[0] < b[0] || (a[0] == b[0] && Before(a[1..], b[1..])))
  }

  /** Positions compare as names do. */
  lemma {:induction false} PositionsInOrder(a: string, b: string, n: nat)
    requires Ascii(a) && Ascii(b) && |a| <= n && |b| <= n
    ensures Position(a, n) < Position(b, n) <==> Before(a, b)
  {
    if a != [] && b != [] {
      PositionsInOrder(a[1..], b[1..], n - 1);
      PositionBelow(a[1..], n - 1);
      PositionBelow(b[1..], n - 1);
      LeadingDigit(a[0] as nat, b[0] as nat, Span(n - 1), Position(a[1..], n - 1), Position(b[1..], n - 1));
    } else if b != [] {
      TimesAtLeast(b[0] as nat, 1, Span(n - 1));
    }
  }

  lemma LeadingDigit(x: nat, y: nat, span: nat, p: nat, q: nat)
    requires p < span && q < span
    ensures x * span + p < y * span + q <==> x < y || (x == y && p < q)
  {
    if x < y {
      TimesAtLeast(y, x + 1, span);
    } else if x > y {
      TimesAtLeast(x, y + 1, span);
    }
  }

  // ----- reading and writing -----

  /** The name of an identifier; the default identifier has none. */
  function Name(id: nat): string {
    if id < Span(MAX_NAME) then NameAt(id, MAX_NAME) else []
  }

  predicate IsId(id: nat) {
    ValidName(Name(id), MAX_NAME)
  }

  /** Tier names and placement labels are shorter. */
  predicate IsShort(id: nat) {
    ValidName(Name(id), MAX_SHORT)
  }

  function ReadName(text: string, most: nat): Option<nat>
    requires most <= MAX_NAME
  {
    if ValidName(text, most) then Some(Position(text, MAX_NAME)) else None
  }

  function ReadId(text: string): Option<nat> {
    ReadName(text, MAX_NAME)
  }

  function ReadShort(text: string): Option<nat> {
    ReadName(text, MAX_SHORT)
  }

  lemma {:induction false} ReadBack(text: string, most: nat)
    requires most <= MAX_NAME && ValidName(text, most)
    ensures Name(Position(text, MAX_NAME)) == text
  {
    PositionBelow(text, MAX_NAME);
    NameOfPosition(text, MAX_NAME);
  }

  /** A name is read as the identifier that is written so, and in no other way. */
  lemma {:induction false} ReadNameExact(text: string, most: nat, id: nat)
    requires most <= MAX_NAME
    ensures ReadName(text, most) == Some(id) <==> ValidName(text, most) && Name(id) == text
  {
    if ValidName(text, most) {
      ReadBack(text, most);
      if Name(id) == text {
        PositionOfName(id, MAX_NAME);
      }
    }
  }
}
