/** Rows of optional values under a table of keys, as the section handlers read and the encoder writes them. */
module TextTables {
  import opened Candidates
  import opened Finite
  import opened TextFields
  import opened Identifiers

  // ----- words -----

  predicate PlainChar(c: char) {
    CharOk(c) || c == ','
  }

  /** Everything the encoder writes between blanks and equals signs. */
  predicate Word(s: string) {
    s != [] && forall i | 0 <= i < |s| :: PlainChar(s[i])
  }

  lemma WordIsSolid(s: string)
    requires Word(s)
    ensures Solid(s) && Free(s, '=') && Free(s, '\n')
  {
  }

  lemma {:induction false} DecimalIsWord(n: nat)
    ensures Word(Decimal(n))
  {
    DecimalIsCanonical(n);
  }

  lemma NameIsWord(s: string, most: nat)
    requires ValidName(s, most)
    ensures Word(s) && Free(s, ',')
  {
  }

  lemma {:induction false} JoinIsWord(items: seq<string>)
    requires items != [] && forall i | 0 <= i < |items| :: Word(items[i])
    ensures Word(Join(items, ','))
    decreases |items|
  {
    if |items| > 1 {
      JoinIsWord(items[1..]);
    }
  }

  // ----- rows -----

  type Row = seq<Option<string>>

  ghost predicate Keys(keys: seq<string>) {
    Injective(keys) && forall i | 0 <= i < |keys| :: Word(keys[i])
  }

  /** A row can be written under the keys. */
  ghost predicate Writable(row: Row) {
    forall i {:trigger row[i]} | 0 <= i < |row| :: FieldOk(row[i])
  }

  predicate FieldOk(field: Option<string>) {
    field.Some? ==> Word(field.value)
  }

  /** The assignments of a row, in the order of the keys. */
  function Fields(keys: seq<string>, row: Row): seq<Assignment>
    requires |keys| == |row|
  {
    if keys == [] then []
    else (match row[0] case None => [] case Some(v) => [Assignment(keys[0], v)]) + Fields(keys[1..], row[1..])
  }

  function Get(entries: seq<Assignment>, key: string): Option<string> {
    if entries == [] then None else if entries[0].key == key then Some(entries[0].value) else Get(entries[1..], key)
  }

  predicate Known(keys: seq<string>, entries: seq<Assignment>) {
    forall i | 0 <= i < |entries| :: entries[i].key in keys
  }

  /** The row found in a list of assignments; None when a key is not in the table. */
  function RowOf(keys: seq<string>, entries: seq<Assignment>): (r: Option<Row>)
    ensures r.Some? ==> |r.value| == |keys|
  {
    if Known(keys, entries) then Some(seq(|keys|, i requires 0 <= i < |keys| => Get(entries, keys[i]))) else None
  }

  lemma {:induction false} FieldsKnown(keys: seq<string>, row: Row)
    requires |keys| == |row|
    ensures Known(keys, Fields(keys, row))
    decreases |keys|
  {
    if keys != [] {
      FieldsKnown(keys[1..], row[1..]);
      assert keys == [keys[0]] + keys[1..];
      var rest := Fields(keys[1..], row[1..]);
      assert forall i | 0 <= i < |rest| :: rest[i].key in keys[1..];
    }
  }

  lemma {:induction false} GetAbsent(entries: seq<Assignment>, key: string)
    requires forall i | 0 <= i < |entries| :: entries[i].key != key
    ensures Get(entries, key) == None
    decreases |entries|
  {
    if entries != [] {
      GetAbsent(entries[1..], key);
    }
  }

  lemma {:induction false} FieldsGet(keys: seq<string>, row: Row, i: nat)
    requires |keys| == |row| && Injective(keys) && i < |keys|
    ensures Get(Fields(keys, row), keys[i]) == row[i]
    decreases |keys|
  {
    var rest := Fields(keys[1..], row[1..]);
    var all := Fields(keys, row);
    assert if row[0].Some? then all[1..] == rest else all == rest;
    if i > 0 {
      FieldsGet(keys[1..], row[1..], i - 1);
    } else {
      FieldsKnown(keys[1..], row[1..]);
      KeyNotAfter(keys, rest);
      GetAbsent(rest, keys[0]);
    }
  }

  lemma KeyNotAfter(keys: seq<string>, rest: seq<Assignment>)
    requires keys != [] && Injective(keys) && Known(keys[1..], rest)
    ensures forall i | 0 <= i < |rest| :: rest[i].key != keys[0]
  {
    forall i | 0 <= i < |rest|
      ensures rest[i].key != keys[0]
    {
      var k :| 0 <= k < |keys[1..]| && keys[1..][k] == rest[i].key;
      assert keys[k + 1] == rest[i].key;
    }
  }

  /** A row is found again in its own assignments. */
  lemma {:induction false} RowReadsBack(keys: seq<string>, row: Row)
    requires |keys| == |row| && Injective(keys)
    ensures RowOf(keys, Fields(keys, row)) == Some(row)
  {
    FieldsKnown(keys, row);
    forall i | 0 <= i < |keys|
      ensures Get(Fields(keys, row), keys[i]) == row[i]
    {
      FieldsGet(keys, row, i);
    }
    assert RowOf(keys, Fields(keys, row)).value == row;
  }

  lemma {:induction false} FieldsProper(keys: seq<string>, row: Row)
    requires |keys| == |row| && Keys(keys) && Writable(row)
    ensures Entries(Fields(keys, row))
    decreases |keys|
  {
    if keys != [] {
      var rest := Fields(keys[1..], row[1..]);
      FieldsProper(keys[1..], row[1..]);
      FieldsKnown(keys[1..], row[1..]);
      if row[0].Some? {
        WordIsSolid(keys[0]);
        WordIsSolid(row[0].value);
        EntriesCons(Assignment(keys[0], row[0].value), rest, keys[1..]);
      }
    }
  }

  lemma {:induction false} EntriesCons(a: Assignment, rest: seq<Assignment>, keys: seq<string>)
    requires Proper(a) && Entries(rest) && Known(keys, rest) && a.key !in keys
    ensures Entries([a] + rest)
  {
    var all := [a] + rest;
    forall i, j | 0 <= i < j < |all|
      ensures all[i].key != all[j].key
    {
      assert all[j] == rest[j - 1] && rest[j - 1].key in keys;
    }
  }

  /** A row with a single value. */
  function Lone(n: nat, i: nat, value: string): Row {
    seq(n, k => if k == i then Some(value) else None)
  }

  lemma {:induction false} LoneFields(keys: seq<string>, i: nat, value: string)
    requires i < |keys|
    ensures Fields(keys, Lone(|keys|, i, value)) == [Assignment(keys[i], value)]
    decreases |keys|
  {
    var row := Lone(|keys|, i, value);
    if i > 0 {
      LoneFields(keys[1..], i - 1, value);
      assert row[1..] == Lone(|keys| - 1, i - 1, value);
    } else {
      NoFields(keys[1..], row[1..]);
    }
  }

  lemma {:induction false} NoFields(keys: seq<string>, row: Row)
    requires |keys| == |row| && forall i | 0 <= i < |row| :: row[i] == None
    ensures Fields(keys, row) == []
    decreases |keys|
  {
    if keys != [] {
      NoFields(keys[1..], row[1..]);
    }
  }

  // ----- rows as text -----

  /** Each assignment after a blank, as the encoder appends them. */
  function Tail(entries: seq<Assignment>): string {
    if entries == [] then [] else [' '] + Show(entries[0]) + Tail(entries[1..])
  }

  lemma {:induction false} TailIsRendered(entries: seq<Assignment>)
    requires entries != []
    ensures Tail(entries) == [' '] + Render(entries)
    decreases |entries|
  {
    if |entries| > 1 {
      TailIsRendered(entries[1..]);
    }
  }

  lemma {:induction false} TailReadsBack(entries: seq<Assignment>)
    requires Entries(entries)
    ensures ReadFrom(Tail(entries), 0, []) == Some(entries)
  {
    var text := Tail(entries);
    if entries != [] {
      TailIsRendered(entries);
      RenderStarts(entries);
      SkipBlanksIs(text, 0, 1);
      assert text[1..] == Render(entries);
      ReadRendered(text, 0, [], entries, entries);
    }
  }

  lemma {:induction false} RenderStarts(entries: seq<Assignment>)
    requires entries != [] && Proper(entries[0])
    ensures Render(entries) != [] && !IsSpace(Render(entries)[0])
  {
    assert Show(entries[0])[0] == entries[0].key[0];
  }
}
