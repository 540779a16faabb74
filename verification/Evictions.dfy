/** Which records the store gives up to make room (src/persistence.cpp:638-675, 845-879). */
module Evictions {
  import opened Sorting
  import opened Finite

  /** 2^64: byte totals are kept in unsigned 64-bit words. */
  const WORD: nat := 0x1_0000_0000_0000_0000

  /** A record digest, compared as a big-endian number. */
  type Digest = nat

  /** What the store remembers of a record; the clock reading is left out. */
  datatype Record = Record(incarnation: nat, sequence: nat, bytes: nat)

  type Index = map<Digest, Record>

  datatype Item = Item(sequence: nat, digest: Digest)

  datatype Bounds = Bounds(maxRecords: nat, maxRecordBytes: nat, maxTotalBytes: nat)

  // ----- walking an index in key order -----

  lemma {:induction false} LeastExists(keys: set<Digest>) returns (k: Digest)
    requires keys != {}
    ensures k in keys && forall x | x in keys :: k <= x
    decreases keys
  {
    var x :| x in keys;
    k := x;
    var rest := keys - {x};
    assert keys == rest + {x};
    if rest != {} {
      var m := LeastExists(rest);
      k := if m < x then m else x;
    }
  }

  function Least(keys: set<Digest>): (k: Digest)
    requires keys != {}
    ensures k in keys && forall x | x in keys :: k <= x
  {
    assert exists k :: k in keys && forall x | x in keys :: k <= x by {
      var m := LeastExists(keys);
    }
    var k :| k in keys && forall x | x in keys :: k <= x;
    k
  }

  lemma LeastStays(keys: set<Digest>, k: Digest)
    requires keys != {} && k != Least(keys)
    ensures keys - {k} != {} && Least(keys - {k}) == Least(keys)
  {
    assert Least(keys) in keys - {k};
  }

  function Items(index: Index): seq<Item>
    decreases index.Keys
  {
    if index.Keys == {} then []
    else
      var k := Least(index.Keys);
      [Item(index[k].sequence, k)] + Items(index - {k})
  }

  /** Total size of the indexed records. */
  ghost function Bytes(index: Index): nat
    decreases index.Keys
  {
    if index.Keys == {} then 0
    else
      var k := Least(index.Keys);
      index[k].bytes + Bytes(index - {k})
  }

  lemma {:induction false} BytesWithout(index: Index, k: Digest)
    requires k in index
    ensures Bytes(index) == index[k].bytes + Bytes(index - {k})
    decreases index.Keys
  {
    var m := Least(index.Keys);
    if k != m {
      BytesWithout(index - {m}, k);
      LeastStays(index.Keys, k);
      assert (index - {k}).Keys == index.Keys - {k};
      assert index - {m} - {k} == index - {k} - {m};
    }
  }

  /** The items are the indexed records, each once. */
  lemma {:induction false} ItemsExact(index: Index)
    ensures forall x :: x in Items(index) <==> x.digest in index && index[x.digest].sequence == x.sequence
    ensures forall i, j | 0 <= i < j < |Items(index)| :: Items(index)[i].digest != Items(index)[j].digest
    ensures |Items(index)| == |index|
    decreases index.Keys
  {
    if index.Keys != {} {
      var k := Least(index.Keys);
      var rest := index - {k};
      ItemsExact(rest);
      assert index.Keys == rest.Keys + {k};
      forall i | 0 <= i < |Items(rest)|
        ensures Items(rest)[i].digest != k
      {
        assert Items(rest)[i] in Items(rest);
      }
    } else {
      assert index == map[];
    }
  }

  // ----- oldest first -----

  predicate Older(a: Item, b: Item) {
    a.sequence < b.sequence || (a.sequence == b.sequence && a.digest < b.digest)
  }

  lemma OlderOrder()
    ensures StrictWeak(Older)
  {
  }

  function Queue(index: Index): seq<Item> {
    Sort(Older, Items(index))
  }

  /** q lists the indexed records once each, oldest first. */
  ghost predicate IsQueue(index: Index, q: seq<Item>) {
    && Injective(q) && Sorted(Older, q)
    && (forall i {:trigger q[i]} | 0 <= i < |q| :: q[i].digest in index && index[q[i].digest].sequence == q[i].sequence)
    && (forall k {:trigger Listed(index, q, k)} | k in index :: Listed(index, q, k))
  }

  ghost predicate Listed(index: Index, q: seq<Item>, k: Digest)
    requires k in index
  {
    exists i | 0 <= i < |q| :: q[i] == Item(index[k].sequence, k)
  }

  lemma {:induction false} QueueExact(index: Index)
    ensures IsQueue(index, Queue(index)) && |Queue(index)| == |index|
  {
    ItemsExact(index);
    OlderOrder();
    SortKeeps(Older, Items(index));
    DistinctTransfers(Items(index), Queue(index));
    SameElements(Items(index), Queue(index));
    var q := Queue(index);
    forall i | 0 <= i < |q|
      ensures q[i].digest in index && index[q[i].digest].sequence == q[i].sequence
    {
      assert q[i] in q && q[i] in Items(index);
    }
    forall k | k in index
      ensures Listed(index, q, k)
    {
      assert Item(index[k].sequence, k) in Items(index) && Item(index[k].sequence, k) in q;
    }
  }

  /** The index after the first n records of the queue are gone. */
  ghost function After(index: Index, q: seq<Item>, n: nat): Index
    requires n <= |q|
  {
    if n == 0 then index else After(index, q, n - 1) - {q[n - 1].digest}
  }

  /** Exactly the records queued from position n on are left, unchanged. */
  lemma {:induction false} AfterExact(index: Index, q: seq<Item>, n: nat, k: Digest)
    requires n <= |q|
    ensures k in After(index, q, n) <==> k in index && forall i | 0 <= i < n :: q[i].digest != k
    ensures k in After(index, q, n) ==> After(index, q, n)[k] == index[k]
  {
    if n > 0 {
      AfterExact(index, q, n - 1, k);
    }
  }

  lemma {:induction false} NextVictim(index: Index, q: seq<Item>, n: nat)
    requires IsQueue(index, q) && n < |q|
    ensures q[n].digest in After(index, q, n) && After(index, q, n)[q[n].digest] == index[q[n].digest]
  {
    AfterExact(index, q, n, q[n].digest);
    forall i | 0 <= i < n
      ensures q[i].digest != q[n].digest
    {
      assert q[i] != q[n];
    }
  }

  lemma {:induction false} AfterAll(index: Index, q: seq<Item>)
    requires IsQueue(index, q)
    ensures After(index, q, |q|) == map[]
  {
    forall k
      ensures k !in After(index, q, |q|)
    {
      AfterExact(index, q, |q|, k);
      if k in index {
        assert Listed(index, q, k);
      }
    }
  }

  /** Survivors are younger than everything evicted. */
  lemma {:induction false} OldestGo(index: Index, q: seq<Item>, n: nat, i: nat, k: Digest)
    requires IsQueue(index, q) && i < n <= |q| && k in After(index, q, n)
    ensures k in index && Older(q[i], Item(index[k].sequence, k))
  {
    AfterExact(index, q, n, k);
    assert Listed(index, q, k);
    var j :| 0 <= j < |q| && q[j] == Item(index[k].sequence, k);
    assert !Older(q[j], q[i]) && q[i] != q[j];
  }

  // ----- making room -----

  /** Bytes left after each number of evictions. */
  ghost predicate SheetOf(index: Index, q: seq<Item>, sheet: seq<nat>) {
    |sheet| == |q| + 1 && forall n {:trigger SheetAt(index, q, sheet, n)} | 0 <= n <= |q| :: SheetAt(index, q, sheet, n)
  }

  ghost predicate SheetAt(index: Index, q: seq<Item>, sheet: seq<nat>, n: nat)
    requires n <= |q| && |sheet| == |q| + 1
  {
    sheet[n] == Bytes(After(index, q, n)) && |After(index, q, n)| == |q| - n
  }

  lemma SmallerIndex(index: Index, k: Digest)
    requires k in index
    ensures |index - {k}| == |index| - 1
  {
    assert index.Keys == (index - {k}).Keys + {k};
  }

  lemma AfterStep(index: Index, q: seq<Item>, n: nat)
    requires IsQueue(index, q) && n < |q|
    ensures Bytes(After(index, q, n)) == index[q[n].digest].bytes + Bytes(After(index, q, n + 1))
  {
    NextVictim(index, q, n);
    BytesWithout(After(index, q, n), q[n].digest);
  }

  ghost predicate PresentAt(index: Index, q: seq<Item>, n: nat)
    requires n < |q|
  {
    q[n].digest in After(index, q, n)
  }

  /** Each queued record is still there when its turn comes. */
  ghost predicate Present(index: Index, q: seq<Item>) {
    |index| == |q| && forall n {:trigger PresentAt(index, q, n)} | 0 <= n < |q| :: PresentAt(index, q, n)
  }

  lemma {:induction false} QueuePresent(index: Index, q: seq<Item>)
    requires IsQueue(index, q) && |q| == |index|
    ensures Present(index, q)
  {
    forall n | 0 <= n < |q|
      ensures PresentAt(index, q, n)
    {
      NextVictim(index, q, n);
    }
  }

  lemma {:induction false} AfterCounts(index: Index, q: seq<Item>, n: nat)
    requires Present(index, q) && n <= |q|
    ensures |After(index, q, n)| == |q| - n
  {
    if n > 0 {
      AfterCounts(index, q, n - 1);
      assert PresentAt(index, q, n - 1);
      SmallerIndex(After(index, q, n - 1), q[n - 1].digest);
    }
  }

  lemma {:induction false} AfterBytes(index: Index, q: seq<Item>, n: nat)
    requires IsQueue(index, q) && n <= |q|
    ensures Bytes(After(index, q, n)) <= Bytes(index)
  {
    if n > 0 {
      AfterBytes(index, q, n - 1);
      AfterStep(index, q, n - 1);
    }
  }

  /** The sheet falls by each victim's size. */
  ghost predicate SheetFalls(index: Index, q: seq<Item>, sheet: seq<nat>) {
    && |sheet| == |q| + 1
    && (forall n {:trigger q[n]} | 0 <= n < |q| ::
         q[n].digest in index && sheet[n] == index[q[n].digest].bytes + sheet[n + 1])
    && (forall n {:trigger sheet[n]} | 0 <= n <= |q| :: sheet[n] <= sheet[0])
  }

  lemma {:induction false} MakeSheet(index: Index, q: seq<Item>) returns (sheet: seq<nat>)
    requires IsQueue(index, q) && |q| == |index|
    ensures SheetOf(index, q, sheet) && sheet[0] == Bytes(index) && sheet[|q|] == 0
  {
    sheet := seq(|q| + 1, n requires 0 <= n <= |q| => Bytes(After(index, q, n)));
    AfterAll(index, q);
    QueuePresent(index, q);
    forall n | 0 <= n <= |q|
      ensures SheetAt(index, q, sheet, n)
    {
      AfterCounts(index, q, n);
    }
  }

  lemma {:induction false} SheetDescends(index: Index, q: seq<Item>, sheet: seq<nat>)
    requires IsQueue(index, q) && SheetOf(index, q, sheet)
    ensures SheetFalls(index, q, sheet)
  {
    forall n | 0 <= n <= |q|
      ensures sheet[n] <= sheet[0]
    {
      assert SheetAt(index, q, sheet, n) && SheetAt(index, q, sheet, 0);
      AfterBytes(index, q, n);
    }
    forall n | 0 <= n < |q|
      ensures sheet[n] == index[q[n].digest].bytes + sheet[n + 1]
    {
      assert SheetAt(index, q, sheet, n) && SheetAt(index, q, sheet, n + 1);
      AfterStep(index, q, n);
    }
  }

  /** After n evictions the survivors and `extra` further bytes in `slots` records stay inside the bounds. */
  ghost predicate Room(index: Index, q: seq<Item>, bounds: Bounds, slots: nat, extra: nat, n: nat)
    requires n <= |q|
  {
    |After(index, q, n)| + slots <= bounds.maxRecords && Bytes(After(index, q, n)) + extra <= bounds.maxTotalBytes
  }

  /** n is the smallest number of evictions that makes room. */
  ghost predicate Shortest(index: Index, q: seq<Item>, bounds: Bounds, slots: nat, extra: nat, n: nat) {
    n <= |q| && Room(index, q, bounds, slots, extra, n)
        && forall m | 0 <= m < n :: !Room(index, q, bounds, slots, extra, m)
  }

  /** The same question read off the sheet. */
  predicate RoomOn(sheet: seq<nat>, bounds: Bounds, slots: nat, extra: nat, n: nat)
    requires n < |sheet|
  {
    |sheet| - 1 - n + slots <= bounds.maxRecords && sheet[n] + extra <= bounds.maxTotalBytes
  }

  lemma {:induction false} ShortestOn(index: Index, q: seq<Item>, sheet: seq<nat>, bounds: Bounds, slots: nat,
      extra: nat, n: nat)
    requires SheetOf(index, q, sheet) && n < |sheet| && RoomOn(sheet, bounds, slots, extra, n)
    requires forall m | 0 <= m < n :: !RoomOn(sheet, bounds, slots, extra, m)
    ensures Shortest(index, q, bounds, slots, extra, n)
  {
    assert SheetAt(index, q, sheet, n);
    forall m | 0 <= m < n
      ensures !Room(index, q, bounds, slots, extra, m)
    {
      assert SheetAt(index, q, sheet, m) && !RoomOn(sheet, bounds, slots, extra, m);
    }
  }

  // ----- 64-bit totals -----

  lemma WordAdd(a: int, b: int)
    ensures (a % WORD + b) % WORD == (a + b) % WORD
  {
  }

  /** Adds the sizes of all records to a 64-bit word. */
  method AddSizes(index: Index, start: nat) returns (total: nat)
    requires start < WORD
    ensures total == (start + Bytes(index)) % WORD
  {
    total := start;
    var rest := index;
    while rest.Keys != {}
      invariant total < WORD && (total + Bytes(rest)) % WORD == (start + Bytes(index)) % WORD
      decreases rest.Keys
    {
      var k := Least(rest.Keys);
      WordAdd(total + rest[k].bytes, Bytes(rest - {k}));
      total := (total + rest[k].bytes) % WORD;
      rest := rest - {k};
    }
  }

  /** The items of the records other than `skip`. */
  method ListOthers(index: Index, skip: Digest) returns (items: seq<Item>)
    ensures items == Items(index - {skip})
  {
    items := [];
    var rest := index;
    while rest.Keys != {}
      invariant items + Items(rest - {skip}) == Items(index - {skip})
      decreases rest.Keys
    {
      var k := Least(rest.Keys);
      if k != skip {
        LeastStays(rest.Keys, skip);
        assert (rest - {skip}).Keys == rest.Keys - {skip};
        assert rest - {skip} - {k} == rest - {k} - {skip};
        items := items + [Item(rest[k].sequence, k)];
      } else {
        assert rest - {skip} == rest - {k} - {skip};
      }
      rest := rest - {k};
    }
  }
}
