/** Choosing and judging evictions for a put (src/persistence.cpp:638-706). */
module MakingRoom {
  import opened Sorting
  import opened Evictions

  /**
    The verdict on storing `size` bytes after n evictions: the fewest that suffice, or the record fits no store at all.
   */
  ghost predicate Verdict(others: Index, q: seq<Item>, bounds: Bounds, slots: nat, size: nat, room: bool, n: nat) {
    Bytes(others) + size < WORD ==>
      && (room ==> Shortest(others, q, bounds, slots, size, n))
      && (room <==> slots <= bounds.maxRecords && size <= bounds.maxTotalBytes)
  }

  /** Running totals after n evictions, none of which was superfluous. */
  ghost predicate Progress(sheet: seq<nat>, bounds: Bounds, slots: nat, size: nat, n: nat, count: int, total: int) {
    && n < |sheet| && count == |sheet| - 1 - n + slots && total == (sheet[n] + size) % WORD
    && (sheet[0] + size < WORD ==> forall m | 0 <= m < n :: !RoomOn(sheet, bounds, slots, size, m))
  }

  lemma ProgressStep(sheet: seq<nat>, bounds: Bounds, slots: nat, size: nat, n: nat, count: int, total: int, bytes: nat)
    requires Progress(sheet, bounds, slots, size, n, count, total) && n + 1 < |sheet|
             && sheet[n] == bytes + sheet[n + 1] <= sheet[0]
    requires !(count <= bounds.maxRecords && total <= bounds.maxTotalBytes)
    ensures Progress(sheet, bounds, slots, size, n + 1, count - 1, (total - bytes) % WORD)
  {
    WordAdd(sheet[n] + size, -(bytes as int));
    WordExact(sheet[n], sheet[0], size);
  }

  /** A total below 2^64 is kept exactly. */
  lemma WordExact(part: nat, whole: nat, size: nat)
    requires part <= whole
    ensures whole + size < WORD ==> (part + size) % WORD == part + size
  {
  }

  /** The verdict read off the sheet. */
  ghost predicate VerdictOn(sheet: seq<nat>, bounds: Bounds, slots: nat, size: nat, room: bool, n: nat)
    requires n < |sheet|
  {
    sheet[0] + size < WORD ==>
      && (room ==>
           RoomOn(sheet, bounds, slots, size, n) && forall m | 0 <= m < n :: !RoomOn(sheet, bounds, slots, size, m))
      && (room <==> slots <= bounds.maxRecords && size <= bounds.maxTotalBytes)
  }

  lemma ProgressEnds(sheet: seq<nat>, bounds: Bounds, slots: nat, size: nat, n: nat, count: int, total: int)
    requires Progress(sheet, bounds, slots, size, n, count, total) && sheet[n] <= sheet[0] && sheet[|sheet| - 1] == 0
    requires n == |sheet| - 1 || (count <= bounds.maxRecords && total <= bounds.maxTotalBytes)
    ensures VerdictOn(sheet, bounds, slots, size, count <= bounds.maxRecords && total <= bounds.maxTotalBytes, n)
  {
    WordExact(sheet[n], sheet[0], size);
  }

  lemma {:induction false} VerdictFrom(others: Index, q: seq<Item>, sheet: seq<nat>, bounds: Bounds, slots: nat,
      size: nat, room: bool, n: nat)
    requires SheetOf(others, q, sheet) && n < |sheet| && sheet[0] == Bytes(others)
    requires VerdictOn(sheet, bounds, slots, size, room, n)
    ensures Verdict(others, q, bounds, slots, size, room, n)
  {
    if sheet[0] + size < WORD && room {
      ShortestOn(others, q, sheet, bounds, slots, size, n);
    }
  }

  /**
    Chooses what to evict so that a record of `size` bytes can be stored under `digest`. Totals are 64-bit words, so
    replacing a larger record starts from a wrapped difference.
   */
  method ChooseVictims(index: Index, bounds: Bounds, digest: Digest, size: nat) returns (room: bool, victims: seq<Item>)
    ensures victims <= Queue(index - {digest})
    ensures Verdict(index - {digest}, Queue(index - {digest}), bounds, 1, size, room, |victims|)
  {
    var total := ProjectedBytes(index, digest, size);
    var queue, count, sheet := QueueOthers(index, digest);
    room, victims := JudgeQueue(index - {digest}, sheet, index, bounds, size, queue, count, total);
  }

  method JudgeQueue(ghost others: Index, ghost sheet: seq<nat>, index: Index, bounds: Bounds, size: nat,
      queue: seq<Item>, count: nat, total: nat)
      returns (room: bool, victims: seq<Item>)
    requires SheetOf(others, queue, sheet) && sheet[0] == Bytes(others) && SheetFalls(index, queue, sheet)
             && sheet[|queue|] == 0
    requires count == |queue| + 1 && total == (sheet[0] + size) % WORD
    ensures victims <= queue && Verdict(others, queue, bounds, 1, size, room, |victims|)
  {
    room, victims := EvictUntilRoom(sheet, queue, index, bounds, size, count, total);
    VerdictFrom(others, queue, sheet, bounds, 1, size, room, |victims|);
  }

  lemma {:induction false} SheetFor(index: Index, digest: Digest, q: seq<Item>) returns (sheet: seq<nat>)
    requires IsQueue(index - {digest}, q) && |q| == |index - {digest}|
    ensures SheetOf(index - {digest}, q, sheet) && sheet[0] == Bytes(index - {digest}) && sheet[|q|] == 0
    ensures SheetFalls(index, q, sheet)
  {
    sheet := MakeSheet(index - {digest}, q);
    SheetDescends(index - {digest}, q, sheet);
    SheetFallsMore(index - {digest}, index, q, sheet);
  }

  lemma SheetFallsMore(others: Index, index: Index, q: seq<Item>, sheet: seq<nat>)
    requires SheetFalls(others, q, sheet) && forall k | k in others :: k in index && index[k] == others[k]
    ensures SheetFalls(index, q, sheet)
  {
  }

  /** The other records, oldest first, and how many records there will be. */
  method QueueOthers(index: Index, digest: Digest) returns (q: seq<Item>, count: nat, ghost sheet: seq<nat>)
    ensures q == Queue(index - {digest}) && count == |q| + 1
    ensures SheetOf(index - {digest}, q, sheet) && sheet[0] == Bytes(index - {digest}) && sheet[|q|] == 0
    ensures SheetFalls(index, q, sheet)
  {
    var items := ListOthers(index, digest);
    QueueExact(index - {digest});
    q := Sort(Older, items);
    count := if digest in index then |index| else |index| + 1;
    OthersCount(index, digest);
    sheet := SheetFor(index, digest, q);
  }

  lemma OthersCount(index: Index, digest: Digest)
    ensures |index - {digest}| + 1 == if digest in index then |index| else |index| + 1
  {
    var others := index - {digest};
    if digest in index {
      assert index.Keys == others.Keys + {digest};
    } else {
      assert others == index;
    }
  }

  /** The total with the new record in place of the old one. */
  method ProjectedBytes(index: Index, digest: Digest, size: nat) returns (total: nat)
    ensures total == (Bytes(index - {digest}) + size) % WORD
  {
    var existing := if digest in index then index[digest].bytes else 0;
    total := AddSizes(index, (size - existing) % WORD);
    WordAdd(size - existing, Bytes(index));
    if digest in index {
      BytesWithout(index, digest);
    } else {
      assert index - {digest} == index;
    }
  }

  method EvictUntilRoom(ghost sheet: seq<nat>, queue: seq<Item>, index: Index, bounds: Bounds, size: nat,
      projected: nat, bytes: nat)
      returns (room: bool, victims: seq<Item>)
    requires SheetFalls(index, queue, sheet) && sheet[|queue|] == 0
    requires projected == |queue| + 1 && bytes == (sheet[0] + size) % WORD
    ensures victims <= queue && VerdictOn(sheet, bounds, 1, size, room, |victims|)
  {
    var n, count, total := 0, projected, bytes;
    while n < |queue| && !(count <= bounds.maxRecords && total <= bounds.maxTotalBytes)
      invariant n <= |queue| && Progress(sheet, bounds, 1, size, n, count, total)
    {
      var k := queue[n].digest;
      ProgressStep(sheet, bounds, 1, size, n, count, total, index[k].bytes);
      count, total, n := count - 1, (total - index[k].bytes) % WORD, n + 1;
    }
    ProgressEnds(sheet, bounds, 1, size, n, count, total);
    room, victims := count <= bounds.maxRecords && total <= bounds.maxTotalBytes, queue[..n];
  }

  // ----- what a completed put leaves behind -----

  lemma BytesWith(index: Index, k: Digest, r: Record)
    requires k !in index
    ensures Bytes(index[k := r]) == Bytes(index) + r.bytes && |index[k := r]| == |index| + 1
  {
    BytesWithout(index[k := r], k);
    assert index[k := r] - {k} == index;
    assert index[k := r].Keys == index.Keys + {k};
  }

  /** The oldest other records are gone, no more of them than needed, and the new record is in. */
  ghost predicate MadeRoom(before: Index, bounds: Bounds, digest: Digest, r: Record, after: Index) {
    exists q, n {:trigger Shortest(before - {digest}, q, bounds, 1, r.bytes, n)} ::
      && IsQueue(before - {digest}, q) && Shortest(before - {digest}, q, bounds, 1, r.bytes, n)
      && after == After(before - {digest}, q, n)[digest := r]
  }

  /** A store that made room is within both bounds, whatever state it started from. */
  lemma {:induction false} MadeRoomFits(before: Index, bounds: Bounds, digest: Digest, r: Record, after: Index)
    requires MadeRoom(before, bounds, digest, r, after)
    ensures |after| <= bounds.maxRecords && Bytes(after) <= bounds.maxTotalBytes && digest in after
            && after[digest] == r
    ensures forall k | k in after && k != digest :: k in before && after[k] == before[k]
    ensures forall k, v | k in after && k != digest && v in before && v !in after ::
              Older(Item(before[v].sequence, v), Item(before[k].sequence, k))
  {
    var others := before - {digest};
    var q, n :| IsQueue(others, q) && Shortest(others, q, bounds, 1, r.bytes, n)
        && after == After(others, q, n)[digest := r];
    AfterExact(others, q, n, digest);
    BytesWith(After(others, q, n), digest, r);
    forall k | k in after && k != digest
      ensures k in before && after[k] == before[k]
    {
      AfterExact(others, q, n, k);
    }
    forall k, v | k in after && k != digest && v in before && v !in after
      ensures Older(Item(before[v].sequence, v), Item(before[k].sequence, k))
    {
      var i := EvictedAt(others, q, n, v);
      OldestGo(others, q, n, i, k);
    }
  }

  lemma {:induction false} EvictedAt(index: Index, q: seq<Item>, n: nat, v: Digest) returns (i: nat)
    requires IsQueue(index, q) && n <= |q| && v in index && v !in After(index, q, n)
    ensures i < n && q[i] == Item(index[v].sequence, v)
  {
    AfterExact(index, q, n, v);
    i :| 0 <= i < n && q[i].digest == v;
  }

  function Digests(items: seq<Item>): seq<Digest> {
    seq(|items|, i requires 0 <= i < |items| => items[i].digest)
  }

  /** Dropping the victims from the index that already holds the new record gives the same result. */
  lemma {:induction false} CommitMakesRoom(before: Index, bounds: Bounds, digest: Digest, r: Record, q: seq<Item>,
      victims: seq<Item>)
    requires IsQueue(before - {digest}, q) && victims <= q
             && Shortest(before - {digest}, q, bounds, 1, r.bytes, |victims|)
    ensures digest !in Digests(victims)
    ensures MadeRoom(before, bounds, digest, r, before[digest := r] - (set v | v in Digests(victims)))
  {
    var others := before - {digest};
    var gone := set v | v in Digests(victims);
    forall i | 0 <= i < |victims|
      ensures victims[i].digest != digest
    {
      assert victims[i] == q[i] && q[i].digest in others;
    }
    var after, left := before[digest := r] - gone, After(others, q, |victims|)[digest := r];
    forall k
      ensures k in after <==> k in left
      ensures k in after ==> after[k] == left[k]
    {
      AfterExact(others, q, |victims|, k);
      assert (exists i | 0 <= i < |victims| :: q[i].digest == k) <==> k in Digests(victims) by {
        if i :| 0 <= i < |victims| && q[i].digest == k {
          assert Digests(victims)[i] == k;
        }
      }
    }
    assert after == left;
  }
}
