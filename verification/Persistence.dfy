/** The durable plan store as its methods change it (src/persistence.cpp:435-879). */
module Persistence {
  import opened Candidates
  import opened Evictions
  import opened StoreRuns
  import opened MakingRoom

  datatype PutOutcome =
    | NotOpen
    | Incompatible
    | Oversized
    | NoRoom
    | WriteFailed
    | SaveFailed(record: Record)
    | Stored(record: Record)

  lemma {:induction false} RunSnoc(s: State, trace: seq<Event>, e: Event)
    requires Run(s, trace).Some? && Enabled(Run(s, trace).value, e)
    ensures Run(s, trace + [e]) == Some(Step(Run(s, trace).value, e))
  {
    assert (trace + [e])[..|trace|] == trace;
  }

  /** Outcomes of the file system calls are arguments: they decide which durable steps happen. */
  class PlanStore {
    const bounds: Bounds
    var disk: Disk
    var open: bool
    var mem: Meta
    var index: Index
    ghost var past: History

    ghost function View(): State
      reads this
    {
      State(disk, if open then Ready(mem, index) else Down, past)
    }

    constructor (bounds: Bounds)
      ensures View() == Fresh && this.bounds == bounds
    {
      this.bounds := bounds;
      disk, open, mem, index, past := Disk(None, map[]), false, Meta(0, 0, 0), map[], History(0, [], []);
    }

    method Open(found: bool, saved: bool, listed: bool, readable: set<Digest>)
        returns (ok: bool, ghost trace: seq<Event>)
      modifies this
      ensures Run(old(View()), trace) == Some(View())
      ensures old(open) ==> !ok && View() == old(View())
      ensures ok <==> !old(open) && saved && listed
      ensures ok ==> open && past.granted == old(past.granted) + [mem]
      ensures disk.records == old(disk.records)
      ensures ok ==> forall d ::
                && (d in index <==> d in disk.records && d in readable)
                && (d in index ==> index[d] == disk.records[d])
    {
      trace := [];
      if open {
        return false, trace;
      }
      ghost var start := View();
      trace := Advance(found, saved);
      if !saved {
        return false, trace;
      }
      RunSnoc(start, trace, Rebuild(listed, readable));
      trace := trace + [Rebuild(listed, readable)];
      if !listed {
        return false, trace;
      }
      index := Restrict(disk.records, readable);
      past := past.(granted := past.granted + [mem]);
      open := true;
      ok := true;
    }

    /** Reads the header, moves both fences and saves them. */
    method Advance(found: bool, saved: bool) returns (ghost trace: seq<Event>)
      requires !open
      modifies this`mem, this`disk, this`past
      ensures disk.records == old(disk.records)
      ensures Run(old(View()), trace) == Some(State(disk, if saved then Rebuilding(mem) else Down, past))
      ensures past.granted == old(past.granted)
    {
      if found && disk.meta.Some? {
        mem := Meta(Next(disk.meta.value.epoch), Next(disk.meta.value.incarnation), disk.meta.value.sequence);
      } else {
        mem := Meta(1, 1, 0);
      }
      RunSnoc(old(View()), [], Probe(found));
      RunSnoc(old(View()), [Probe(found)], SaveFences(saved));
      trace := [Probe(found)] + [SaveFences(saved)];
      if saved {
        disk := disk.(meta := Some(mem));
        past := past.(advances := past.advances + 1);
      }
    }

    method Close(saved: bool) returns (ok: bool, ghost trace: seq<Event>)
      modifies this
      ensures Run(old(View()), trace) == Some(View()) && !open
      ensures ok <==> !old(open) || saved
      ensures disk.records == old(disk.records)
    {
      trace := [];
      if !open {
        return true, trace;
      }
      RunSnoc(View(), [], Event.Close(saved));
      trace := [Event.Close(saved)];
      if saved {
        disk := disk.(meta := Some(mem));
      }
      index, open := map[], false;
      ok := saved;
    }

    /** Removes the files of evicted records; a failed removal is ignored. */
    method PurgeFiles(victims: seq<Digest>, unlinked: set<Digest>, ghost start: State, ghost before: seq<Event>)
        returns (ghost trace: seq<Event>)
      requires Run(start, before) == Some(State(disk, Purging(mem, index, victims), past))
      modifies this`disk
      ensures Run(start, trace) == Some(State(disk, Purging(mem, index, []), past))
      ensures disk.meta == old(disk.meta)
      ensures disk.records == old(disk.records) - (set v | v in victims && v in unlinked)
    {
      trace := before;
      for i := 0 to |victims|
        invariant Run(start, trace) == Some(State(disk, Purging(mem, index, victims[i..]), past))
                  && disk.meta == old(disk.meta)
        invariant disk.records == old(disk.records) - (set v | v in victims[..i] && v in unlinked)
      {
        RunSnoc(start, trace, Unlink(victims[i] in unlinked));
        trace := trace + [Unlink(victims[i] in unlinked)];
        if victims[i] in unlinked {
          disk := disk.(records := disk.records - {victims[i]});
        }
      }
    }

    /**
      Stores a record. Bounds are settled before the record becomes visible; the record is acknowledged before the
      evicted files go and before the header is saved.
     */
    method Put(digest: Digest, size: nat, compatible: bool, written: bool, unlinked: set<Digest>, saved: bool)
        returns (outcome: PutOutcome, ghost trace: seq<Event>)
      modifies this
      ensures Run(old(View()), trace) == Some(View())
      ensures outcome == NotOpen <==> !old(open)
      ensures outcome == Incompatible <==> old(open) && !compatible
      ensures outcome == Oversized <==> old(open) && compatible && size > bounds.maxRecordBytes
      ensures Bytes(old(index) - {digest}) + size < WORD ==>
                (outcome == NoRoom <==> old(open) && compatible && size <= bounds.maxRecordBytes
                                        && !(1 <= bounds.maxRecords && size <= bounds.maxTotalBytes))
      ensures outcome.Stored? || outcome.SaveFailed? ==>
                && outcome.record == Record(old(mem.incarnation), Next(old(mem.sequence)), size)
                && digest in index && index[digest] == outcome.record
                && (outcome.Stored? ==> disk.meta == Some(mem))
                && digest in disk.records && disk.records[digest] == outcome.record
                && (Bytes(old(index) - {digest}) + size < WORD ==>
                   MadeRoom(old(index), bounds, digest, outcome.record, index))
      ensures !outcome.Stored? && !outcome.SaveFailed? ==> View() == old(View())
    {
      trace := [];
      if !open {
        return NotOpen, trace;
      }
      if !compatible {
        return Incompatible, trace;
      }
      if size > bounds.maxRecordBytes {
        return Oversized, trace;
      }
      ghost var start := View();
      var room, items := ChooseVictims(index, bounds, digest, size);
      if !room {
        return NoRoom, trace;
      }
      ghost var q := Queue(index - {digest});
      QueueExact(index - {digest});
      VictimsSpareDigest(index, digest, q, items);
      outcome, trace := Commit(digest, size, Digests(items), written, unlinked, saved);
      if !outcome.WriteFailed? && Bytes(start.proc.index - {digest}) + size < WORD {
        CommitMakesRoom(start.proc.index, bounds, digest, outcome.record, q, items);
      }
    }

    /** The durable part of a put. */
    method Commit(digest: Digest, size: nat, victims: seq<Digest>, written: bool, unlinked: set<Digest>, saved: bool)
        returns (outcome: PutOutcome, ghost trace: seq<Event>)
      requires open && digest !in victims
      modifies this
      ensures Run(old(View()), trace) == Some(View()) && open
      ensures outcome.WriteFailed? || outcome.Stored? || outcome.SaveFailed?
      ensures outcome.WriteFailed? ==> View() == old(View())
      ensures !outcome.WriteFailed? ==>
                && outcome.record == Record(old(mem.incarnation), Next(old(mem.sequence)), size)
                && index == old(index)[digest := outcome.record] - (set v | v in victims)
                && (outcome.Stored? ==> disk.meta == Some(mem))
                && digest in disk.records && disk.records[digest] == outcome.record
    {
      ghost var start := View();
      RunSnoc(start, [], Admit(digest, size, victims));
      RunSnoc(start, [Admit(digest, size, victims)], WriteRecord(written));
      trace := [Admit(digest, size, victims)] + [WriteRecord(written)];
      if !written {
        return WriteFailed, trace;
      }
      var record := Acknowledge(digest, size, victims);
      trace := PurgeFiles(victims, unlinked, start, trace);
      RunSnoc(start, trace, SaveMeta(saved));
      trace := trace + [SaveMeta(saved)];
      if saved {
        disk := disk.(meta := Some(mem));
      }
      outcome := if saved then Stored(record) else SaveFailed(record);
    }

    /** Saves the header after records were dropped. */
    method SaveHeader(saved: bool, ghost start: State, ghost before: seq<Event>) returns (ghost trace: seq<Event>)
      requires open && Run(start, before) == Some(View())
      modifies this`disk
      ensures Run(start, trace) == Some(View())
      ensures disk.records == old(disk.records)
    {
      RunSnoc(start, before, Sync);
      RunSnoc(start, before + [Sync], SaveMeta(saved));
      trace := before + [Sync] + [SaveMeta(saved)];
      if saved {
        disk := disk.(meta := Some(mem));
      }
    }

    method DropRecord(digest: Digest, ghost start: State, ghost before: seq<Event>) returns (ghost trace: seq<Event>)
      requires open && digest in index && Run(start, before) == Some(View())
      modifies this`disk, this`index
      ensures Run(start, trace) == Some(View()) && index == old(index) - {digest}
      ensures disk.records == old(disk.records) - {digest}
    {
      RunSnoc(start, before, Drop(digest));
      trace := before + [Drop(digest)];
      disk := disk.(records := disk.records - {digest});
      index := index - {digest};
    }

    method Erase(digest: Digest, unlinked: bool, saved: bool) returns (ok: bool, ghost trace: seq<Event>)
      modifies this
      ensures Run(old(View()), trace) == Some(View())
      ensures ok <==> old(open) && digest in old(index) && unlinked && saved
      ensures open == old(open) && mem == old(mem) && past == old(past)
      ensures index == if old(open) && unlinked then old(index) - {digest} else old(index)
      ensures disk.records ==
              if old(open) && digest in old(index) && unlinked then old(disk.records) - {digest} else old(disk.records)
    {
      trace := [];
      if !open || digest !in index || !unlinked {
        return false, trace;
      }
      trace := DropRecord(digest, View(), trace);
      trace := SaveHeader(saved, old(View()), trace);
      ok := saved;
    }

    /** Drops the oldest records until both bounds hold; stops at the first file that cannot be removed. */
    method EnforceBounds(unlinked: set<Digest>, saved: bool)
        returns (ok: bool, ghost trace: seq<Event>, ghost q: seq<Item>, ghost n: nat)
      modifies this
      ensures Run(old(View()), trace) == Some(View())
      ensures !old(open) ==> !ok && View() == old(View())
      ensures old(open) ==> IsQueue(old(index), q) && n <= |q| && index == After(old(index), q, n)
      ensures disk.records == old(disk.records) - (old(index).Keys - index.Keys)
      ensures ok && Bytes(old(index)) < WORD ==> Shortest(old(index), q, bounds, 0, 0, n)
      ensures old(open) && saved && (forall k | k in old(index) :: k in unlinked) ==> ok
    {
      trace, q, n := [], [], 0;
      if !open {
        return false, trace, q, n;
      }
      var total := AddSizes(index, 0);
      var queue := Queue(index);
      QueueExact(index);
      ghost var sheet := MakeSheet(index, queue);
      SheetDescends(index, queue, sheet);
      q := queue;
      ok, trace, n := Trim(queue, sheet, total, unlinked);
      if ok {
        VerdictFrom(old(index), q, sheet, bounds, 0, 0, true, n);
        trace := SaveHeader(saved, old(View()), trace);
        ok := saved;
      }
    }

    method Trim(queue: seq<Item>, ghost sheet: seq<nat>, bytes: nat, unlinked: set<Digest>)
        returns (ok: bool, ghost trace: seq<Event>, ghost n: nat)
      requires open && IsQueue(index, queue) && |queue| == |index| && SheetFalls(index, queue, sheet)
               && bytes == sheet[0] % WORD && sheet[|queue|] == 0
      modifies this`disk, this`index
      ensures Run(old(View()), trace) == Some(View())
      ensures n <= |queue| && index == After(old(index), queue, n)
      ensures disk.records == old(disk.records) - (old(index).Keys - index.Keys)
      ensures ok ==> VerdictOn(sheet, bounds, 0, 0, true, n)
      ensures (forall k | k in old(index) :: k in unlinked) ==> ok
    {
      var i, count, total := 0, |index|, bytes;
      trace, n := [], 0;
      while i < |queue| && !(count <= bounds.maxRecords && total <= bounds.maxTotalBytes)
        invariant i <= |queue| && n == i && index == After(old(index), queue, i) && open
        invariant Run(old(View()), trace) == Some(View())
        invariant disk.records == old(disk.records) - (old(index).Keys - index.Keys)
        invariant Progress(sheet, bounds, 0, 0, i, count, total)
      {
        var k := queue[i].digest;
        NextVictim(old(index), queue, i);
        if k !in unlinked {
          return false, trace, n;
        }
        ProgressStep(sheet, bounds, 0, 0, i, count, total, index[k].bytes);
        count, total, i := count - 1, (total - index[k].bytes) % WORD, i + 1;
        DropOneMore(old(disk.records), old(index), index, k);
        trace := DropRecord(k, old(View()), trace);
        n := i;
      }
      ProgressEnds(sheet, bounds, 0, 0, i, count, total);
      ok := true;
    }

    /** The record is durable: memory follows. */
    method Acknowledge(digest: Digest, size: nat, victims: seq<Digest>) returns (record: Record)
      modifies this
      ensures record == Record(old(mem.incarnation), Next(old(mem.sequence)), size)
      ensures index == old(index)[digest := record] - (set v | v in victims)
      ensures State(disk, Purging(mem, index, victims), past) ==
              Written(State(old(disk), Storing(old(mem), old(index), digest, size, victims), old(past)))
      ensures open == old(open) && disk.records == old(disk.records)[digest := record]
    {
      record := Record(mem.incarnation, Next(mem.sequence), size);
      disk := disk.(records := disk.records[digest := record]);
      mem := mem.(sequence := record.sequence);
      index := index[digest := record] - (set v | v in victims);
      past := past.(writes := past.writes + [Write(|past.granted|, record.incarnation, record.sequence)]);
    }
  }

  lemma DropOneMore(records: Index, start: Index, index: Index, k: Digest)
    requires k in start
    ensures records - (start.Keys - index.Keys) - {k} == records - (start.Keys - (index - {k}).Keys)
  {
  }

  lemma VictimsSpareDigest(index: Index, digest: Digest, q: seq<Item>, victims: seq<Item>)
    requires IsQueue(index - {digest}, q) && victims <= q
    ensures digest !in Digests(victims)
  {
    forall i | 0 <= i < |victims|
      ensures victims[i].digest != digest
    {
      assert victims[i] == q[i];
    }
  }
}
