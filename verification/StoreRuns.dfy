/** Every run of the plan store, with crashes between any two durable steps (src/persistence.cpp:435-879). */
module StoreRuns {
  import opened Candidates
  import opened Evictions

  /** The durable header: two fences and the record sequence, each an unsigned 64-bit word. */
  datatype Meta = Meta(epoch: nat, incarnation: nat, sequence: nat)

  datatype Disk = Disk(meta: Option<Meta>, records: Index)

  /** Where the one process that uses the directory stands. */
  datatype Proc =
    | Down
    | Opening(mem: Meta)
    | Rebuilding(mem: Meta)
    | Ready(mem: Meta, index: Index)
    | Storing(mem: Meta, index: Index, digest: Digest, bytes: nat, victims: seq<Digest>)
    | Purging(mem: Meta, index: Index, victims: seq<Digest>)

  /** What has been handed out so far. `advances` counts headers made durable by an open. */
  datatype History = History(advances: nat, granted: seq<Meta>, writes: seq<Write>)

  /** A record made durable during the `session`-th successful open. */
  datatype Write = Write(session: nat, incarnation: nat, sequence: nat)

  datatype State = State(disk: Disk, proc: Proc, past: History)

  /** Durable writes either happen or do not; `ok` says which. */
  datatype Event =
    | Probe(found: bool)
    | SaveFences(ok: bool)
    | Rebuild(ok: bool, readable: set<Digest>)
    | Reindex(readable: set<Digest>)
    | Admit(digest: Digest, bytes: nat, victims: seq<Digest>)
    | WriteRecord(ok: bool)
    | Unlink(ok: bool)
    | Drop(digest: Digest)
    | Sync
    | SaveMeta(ok: bool)
    | Close(ok: bool)
    | Crash

  function Next(x: nat): nat {
    (x + 1) % WORD
  }

  predicate Enabled(s: State, e: Event) {
    match e
    case Probe(_) => s.proc.Down?
    case SaveFences(_) => s.proc.Opening?
    case Rebuild(_, _) => s.proc.Rebuilding?
    case Reindex(_) => s.proc.Ready?
    case Admit(d, _, victims) => s.proc.Ready? && d !in victims
    case WriteRecord(_) => s.proc.Storing?
    case Unlink(_) => s.proc.Purging? && s.proc.victims != []
    case Drop(d) => s.proc.Ready? && d in s.proc.index
    case Sync => s.proc.Ready?
    case SaveMeta(_) => s.proc.Purging? && s.proc.victims == []
    case Close(_) => s.proc.Ready?
    case Crash => true
  }

  /** The header an open starts from; without a visible one the store counts from the beginning. */
  function Fences(meta: Option<Meta>, found: bool): Meta {
    if found && meta.Some? then Meta(Next(meta.value.epoch), Next(meta.value.incarnation), meta.value.sequence)
    else Meta(1, 1, 0)
  }

  function Restrict(records: Index, readable: set<Digest>): Index {
    map d | d in records && d in readable :: records[d]
  }

  function Step(s: State, e: Event): State
    requires Enabled(s, e)
  {
    var p := s.proc;
    match e
    case Probe(found) => s.(proc := Opening(Fences(s.disk.meta, found)))
    case SaveFences(ok) =>
      if ok then s.(disk := s.disk.(meta := Some(p.mem)), proc := Rebuilding(p.mem), past :=
          s.past.(advances := s.past.advances + 1))
      else s.(proc := Down)
    case Rebuild(ok, readable) =>
      if ok then s.(proc := Ready(p.mem, Restrict(s.disk.records, readable)), past :=
          s.past.(granted := s.past.granted + [p.mem]))
      else s.(proc := Down)
    case Reindex(readable) => s.(proc := Ready(p.mem, Restrict(s.disk.records, readable)))
    case Admit(d, bytes, victims) => s.(proc := Storing(p.mem, p.index, d, bytes, victims))
    case WriteRecord(ok) => if ok then Written(s) else s.(proc := Ready(p.mem, p.index))
    case Unlink(ok) =>
      s.(disk := if ok then s.disk.(records := s.disk.records - {p.victims[0]}) else s.disk,
         proc := Purging(p.mem, p.index, p.victims[1..]))
    case Drop(d) => s.(disk := s.disk.(records := s.disk.records - {d}), proc := Ready(p.mem, p.index - {d}))
    case Sync => s.(proc := Purging(p.mem, p.index, []))
    case SaveMeta(ok) => s.(disk := Saved(s.disk, p.mem, ok), proc := Ready(p.mem, p.index))
    case Close(ok) => s.(disk := Saved(s.disk, p.mem, ok), proc := Down)
    case Crash => s.(proc := Down)
  }

  function Saved(disk: Disk, mem: Meta, ok: bool): Disk {
    if ok then disk.(meta := Some(mem)) else disk
  }

  /** The record is durable and acknowledged: the new entry is indexed, the victims no longer are. */
  function Written(s: State): State
    requires s.proc.Storing?
  {
    var p := s.proc;
    var record := Record(p.mem.incarnation, Next(p.mem.sequence), p.bytes);
    s.(disk := s.disk.(records := s.disk.records[p.digest := record]),
       proc := Purging(p.mem.(sequence := record.sequence), p.index[p.digest := record] - (set v | v in p.victims),
           p.victims),
       past := s.past.(writes := s.past.writes + [Write(|s.past.granted|, record.incarnation, record.sequence)]))
  }

  // ----- runs -----

  const Fresh: State := State(Disk(None, map[]), Down, History(0, [], []))

  /** The state after the events, or None when one of them was not possible. */
  function Run(s: State, events: seq<Event>): Option<State> {
    if events == [] then Some(s)
    else
      match Run(s, events[..|events| - 1])
      case None => None
      case Some(t) => if Enabled(t, events[|events| - 1]) then Some(Step(t, events[|events| - 1])) else None
  }

  /** What the surroundings must grant a step: the existence probe is truthful and no 64-bit counter wraps. */
  ghost predicate Sane(s: State, e: Event) {
    && (e.Probe? ==> e.found == s.disk.meta.Some? && s.past.advances + 1 < WORD)
    && (e.WriteRecord? ==> |s.past.writes| + 1 < WORD)
  }

  /** Every step of the run is granted that. */
  ghost predicate SaneRun(s: State, events: seq<Event>) {
    forall k {:trigger SaneAt(s, events, k)} | 0 <= k < |events| :: SaneAt(s, events, k)
  }

  ghost predicate SaneAt(s: State, events: seq<Event>, k: nat)
    requires k < |events|
  {
    var before := Run(s, events[..k]);
    before.Some? ==> Sane(before.value, events[k])
  }

  lemma {:induction false} RunSplit(s: State, events: seq<Event>)
    requires events != [] && Run(s, events).Some? && SaneRun(s, events)
    ensures var init, e := events[..|events| - 1], events[|events| - 1];
            && SaneRun(s, init) && Run(s, init).Some? && Enabled(Run(s, init).value, e) && Sane(Run(s, init).value, e)
            && Run(s, events).value == Step(Run(s, init).value, e)
  {
    var init := events[..|events| - 1];
    forall k | 0 <= k < |init|
      ensures SaneAt(s, init, k)
    {
      assert SaneAt(s, events, k) && init[..k] == events[..k];
    }
    assert SaneAt(s, events, |events| - 1);
  }

  // ----- fencing -----

  ghost predicate Fenced(s: State) {
    && FencesCurrent(s) && GrantsIncrease(s.past) && RecordsFenced(s) && WritesFenced(s)
  }

  /** Header and memory agree on how often the store was opened. */
  ghost predicate FencesCurrent(s: State) {
    && (if s.disk.meta.Some? then s.disk.meta.value.epoch == s.disk.meta.value.incarnation == s.past.advances >= 1
        else s.past.advances == 0 && (s.proc.Down? || s.proc.Opening?))
    && (s.proc.Opening? ==> s.proc.mem.epoch == s.proc.mem.incarnation == s.past.advances + 1)
    && (!s.proc.Down? && !s.proc.Opening? ==> s.proc.mem.epoch == s.proc.mem.incarnation == s.past.advances)
    && (Live(s.proc) ==> s.past.granted != [] && s.past.granted[|s.past.granted| - 1].incarnation == s.past.advances)
    && (s.proc.Rebuilding? ==> GrantsBelow(s.past, s.past.advances))
  }

  predicate Live(p: Proc) {
    p.Ready? || p.Storing? || p.Purging?
  }

  ghost predicate GrantsBelow(h: History, bound: nat) {
    forall i | 0 <= i < |h.granted| :: h.granted[i].incarnation < bound
  }

  /** Each successful open returned fences strictly above those of every earlier one. */
  ghost predicate GrantsIncrease(h: History) {
    && (forall i, j | 0 <= i < j < |h.granted| ::
         h.granted[i].incarnation < h.granted[j].incarnation && h.granted[i].epoch < h.granted[j].epoch)
    && (forall i | 0 <= i < |h.granted| :: 1 <= h.granted[i].epoch == h.granted[i].incarnation <= h.advances)
  }

  ghost predicate RecordsFenced(s: State) {
    forall d | d in s.disk.records :: 1 <= s.disk.records[d].incarnation <= s.past.advances
  }

  /** Every record was written under the incarnation granted to the open that wrote it. */
  ghost predicate WritesFenced(s: State) {
    forall i | 0 <= i < |s.past.writes| ::
      var w := s.past.writes[i];
          1 <= w.session <= |s.past.granted| && w.incarnation == s.past.granted[w.session - 1].incarnation
  }

  lemma FencesStep(s: State, e: Event)
    requires Fenced(s) && Enabled(s, e) && Sane(s, e)
    ensures FencesCurrent(Step(s, e))
  {
  }

  lemma GrantsStep(s: State, e: Event)
    requires Fenced(s) && Enabled(s, e) && Sane(s, e)
    ensures GrantsIncrease(Step(s, e).past)
  {
  }

  lemma RecordsStep(s: State, e: Event)
    requires Fenced(s) && Enabled(s, e) && Sane(s, e)
    ensures RecordsFenced(Step(s, e))
  {
  }

  lemma WritesStep(s: State, e: Event)
    requires Fenced(s) && Enabled(s, e) && Sane(s, e)
    ensures WritesFenced(Step(s, e))
  {
  }

  /** On every run each successful open outranks all earlier ones, and no record outranks the header. */
  lemma {:induction false} OpensAreFenced(events: seq<Event>)
    requires SaneRun(Fresh, events) && Run(Fresh, events).Some?
    ensures Fenced(Run(Fresh, events).value)
    decreases |events|
  {
    if events != [] {
      var init, e := events[..|events| - 1], events[|events| - 1];
      RunSplit(Fresh, events);
      OpensAreFenced(init);
      var s := Run(Fresh, init).value;
      FencesStep(s, e);
      GrantsStep(s, e);
      RecordsStep(s, e);
      WritesStep(s, e);
    }
  }

  /** Fences advance exactly when the header was seen and neither fence is at its last value. */
  lemma FencesAdvance(meta: Meta, found: bool)
    requires meta.epoch < WORD && meta.incarnation < WORD && meta.epoch >= 1 && meta.incarnation >= 1
    ensures Fences(Some(meta), found).epoch > meta.epoch && Fences(Some(meta), found).incarnation > meta.incarnation
            <==> found && meta.epoch + 1 < WORD && meta.incarnation + 1 < WORD
  {
  }

  function OpenEvents(found: bool): seq<Event> {
    [Probe(found), SaveFences(true), Rebuild(true, {})]
  }

  /** A failing existence probe makes the next open repeat the first one's fences. */
  lemma BlindProbeRepeatsFences()
    ensures var last := Run(Fresh, OpenEvents(true) + ([Close(true)] + OpenEvents(false)));
            last.Some? && last.value.past.granted == [Meta(1, 1, 0), Meta(1, 1, 0)]
  {
    OpenRuns(Fresh, true);
    RunFrom(Fresh, OpenEvents(true), [Close(true)] + OpenEvents(false));
    var s := Run(Fresh, OpenEvents(true)).value;
    assert [Close(true)][..0] == [] && Run(s, []) == Some(s);
    RunFrom(s, [Close(true)], OpenEvents(false));
    OpenRuns(Step(s, Close(true)), false);
  }

  /** A run may be cut in two. */
  lemma {:induction false} RunFrom(s: State, a: seq<Event>, b: seq<Event>)
    requires Run(s, a).Some?
    ensures Run(s, a + b) == Run(Run(s, a).value, b)
    decreases |b|
  {
    if b == [] {
      assert a + b == a;
    } else {
      RunFrom(s, a, b[..|b| - 1]);
      assert (a + b)[..|a + b| - 1] == a + b[..|b| - 1];
    }
  }

  /** Three steps open a store that is down. */
  lemma {:induction false} OpenRuns(s: State, found: bool)
    requires s.proc.Down?
    ensures var mem := Fences(s.disk.meta, found);
            Run(s, OpenEvents(found)) ==
            Some(State(s.disk.(meta := Some(mem)), Ready(mem, map[]),
                       s.past.(advances := s.past.advances + 1, granted := s.past.granted + [mem])))
  {
    var mem := Fences(s.disk.meta, found);
    var events := OpenEvents(found);
    assert events[..2][..1] == [Probe(found)] && [Probe(found)][..0] == []
           && events[..2] == [Probe(found), SaveFences(true)];
    var s1 := Step(s, Probe(found));
    assert Run(s, [Probe(found)]) == Some(s1);
    var s2 := Step(s1, SaveFences(true));
    assert Run(s, events[..2]) == Some(s2);
    assert Restrict(s2.disk.records, {}) == map[];
  }

  // ----- sequences -----

  /** Later writes of one session carry larger sequences, and no counter has run ahead of the number of writes. */
  ghost predicate Sequenced(s: State) {
    && (forall i | 0 <= i < |s.past.writes| :: 1 <= s.past.writes[i].session <= |s.past.granted|)
    && (forall i, j | 0 <= i < j < |s.past.writes| :: Earlier(s.past.writes[i], s.past.writes[j]))
    && (s.disk.meta.Some? ==> s.disk.meta.value.sequence <= |s.past.writes|)
    && (!s.proc.Down? ==> s.proc.mem.sequence <= |s.past.writes|)
    && (Live(s.proc) ==> s.past.granted != [] && forall i | 0 <= i < |s.past.writes|
       && s.past.writes[i].session == |s.past.granted| ::
                           s.past.writes[i].sequence <= s.proc.mem.sequence)
  }

  predicate Earlier(a: Write, b: Write) {
    a.session < b.session || (a.session == b.session && a.sequence < b.sequence)
  }

  lemma SequencedStep(s: State, e: Event)
    requires Sequenced(s) && Enabled(s, e) && Sane(s, e)
    ensures Sequenced(Step(s, e))
  {
  }

  /** Writes of one session carry increasing sequences, and sessions follow one another, whatever crashed in between. */
  lemma {:induction false} WritesAreSequenced(events: seq<Event>)
    requires SaneRun(Fresh, events) && Run(Fresh, events).Some?
    ensures Sequenced(Run(Fresh, events).value)
    decreases |events|
  {
    if events != [] {
      RunSplit(Fresh, events);
      WritesAreSequenced(events[..|events| - 1]);
      SequencedStep(Run(Fresh, events[..|events| - 1]).value, events[|events| - 1]);
    }
  }

  /** Incarnation and sequence together identify a write, whatever crashed in between. */
  lemma {:induction false} WritesAreDistinct(events: seq<Event>, i: nat, j: nat)
    requires SaneRun(Fresh, events) && Run(Fresh, events).Some? && i < j < |Run(Fresh, events).value.past.writes|
    ensures var w := Run(Fresh, events).value.past.writes;
            w[i].incarnation != w[j].incarnation || w[i].sequence != w[j].sequence
  {
    OpensAreFenced(events);
    WritesAreSequenced(events);
    var past := Run(Fresh, events).value.past;
    assert Earlier(past.writes[i], past.writes[j]);
  }

  /** The process ends while the durable header lags behind the sequence in memory. */
  predicate Loses(s: State, e: Event) {
    && (e.Crash? || (e.Close? && !e.ok)) && Live(s.proc)
    && (s.disk.meta.Some? ==> s.disk.meta.value.sequence != s.proc.mem.sequence)
  }

  ghost predicate LosslessAt(s: State, events: seq<Event>, k: nat)
    requires k < |events|
  {
    Run(s, events[..k]).Some? ==> !Loses(Run(s, events[..k]).value, events[k])
  }

  ghost predicate Lossless(s: State, events: seq<Event>) {
    forall k {:trigger LosslessAt(s, events, k)} | 0 <= k < |events| :: LosslessAt(s, events, k)
  }

  /** The sequence a later write will start from. */
  function Floor(s: State): nat {
    if s.proc.Down? then (if s.disk.meta.Some? then s.disk.meta.value.sequence else 0) else s.proc.mem.sequence
  }

  ghost predicate SequencesIncrease(s: State) {
    && (forall i, j | 0 <= i < j < |s.past.writes| :: s.past.writes[i].sequence < s.past.writes[j].sequence)
    && (forall i | 0 <= i < |s.past.writes| :: s.past.writes[i].sequence <= Floor(s))
    && ((s.proc.Opening? || s.proc.Rebuilding?) ==> s.proc.mem.sequence == if s.disk.meta.Some?
       then s.disk.meta.value.sequence else 0)
  }

  lemma SequencesStep(s: State, e: Event)
    requires SequencesIncrease(s) && Sequenced(s) && Enabled(s, e) && Sane(s, e) && !Loses(s, e)
    requires Live(s.proc) ==> s.disk.meta.Some?
    ensures SequencesIncrease(Step(s, e))
  {
  }

  /** Unless a lagging header was lost, stored sequences never repeat. */
  lemma {:induction false} LosslessSequencesIncrease(events: seq<Event>)
    requires SaneRun(Fresh, events) && Lossless(Fresh, events) && Run(Fresh, events).Some?
    ensures SequencesIncrease(Run(Fresh, events).value)
    decreases |events|
  {
    if events != [] {
      var init, e := events[..|events| - 1], events[|events| - 1];
      RunSplit(Fresh, events);
      forall k | 0 <= k < |init|
        ensures LosslessAt(Fresh, init, k)
      {
        assert LosslessAt(Fresh, events, k) && init[..k] == events[..k];
      }
      LosslessSequencesIncrease(init);
      WritesAreSequenced(init);
      OpensAreFenced(init);
      assert LosslessAt(Fresh, events, |init|);
      SequencesStep(Run(Fresh, init).value, e);
    }
  }

  /** Every sequence between the durable header and memory belongs to a record already written. */
  ghost predicate LagWritten(s: State) {
    Live(s.proc) && s.disk.meta.Some? ==>
      && s.disk.meta.value.sequence <= s.proc.mem.sequence
      && forall q | s.disk.meta.value.sequence < q <= s.proc.mem.sequence :: Used(s.past.writes, q)
  }

  ghost predicate Used(writes: seq<Write>, q: nat) {
    exists i | 0 <= i < |writes| :: writes[i].sequence == q
  }

  lemma UsedGrows(writes: seq<Write>, w: Write, q: nat)
    requires Used(writes, q) || q == w.sequence
    ensures Used(writes + [w], q)
  {
    if Used(writes, q) {
      var i :| 0 <= i < |writes| && writes[i].sequence == q;
      assert (writes + [w])[i].sequence == q;
    } else {
      assert (writes + [w])[|writes|].sequence == q;
    }
  }

  lemma LagStep(s: State, e: Event)
    requires LagWritten(s) && Sequenced(s) && Enabled(s, e) && Sane(s, e)
    requires s.proc.Rebuilding? ==> s.disk.meta == Some(s.proc.mem)
    ensures LagWritten(Step(s, e)) && (Step(s, e).proc.Rebuilding? ==>
            Step(s, e).disk.meta == Some(Step(s, e).proc.mem))
  {
    if e.WriteRecord? && e.ok {
      var t := Step(s, e);
      var w := t.past.writes[|s.past.writes|];
      if t.disk.meta.Some? {
        forall q | t.disk.meta.value.sequence < q <= t.proc.mem.sequence
          ensures Used(t.past.writes, q)
        {
          UsedGrows(s.past.writes, w, q);
        }
      }
    }
  }

  lemma {:induction false} LagIsWritten(events: seq<Event>)
    requires SaneRun(Fresh, events) && Run(Fresh, events).Some?
    ensures var t := Run(Fresh, events).value; LagWritten(t) && (t.proc.Rebuilding? ==> t.disk.meta == Some(t.proc.mem))
    decreases |events|
  {
    if events != [] {
      RunSplit(Fresh, events);
      LagIsWritten(events[..|events| - 1]);
      WritesAreSequenced(events[..|events| - 1]);
      LagStep(Run(Fresh, events[..|events| - 1]).value, events[|events| - 1]);
    }
  }

  /** Opens the store again and stores one record. */
  function ReopenAndStore(d: Digest, bytes: nat): seq<Event> {
    OpenEvents(true) + [Admit(d, bytes, []), WriteRecord(true)]
  }

  /** After any loss, the very next record stored repeats a sequence that an earlier record carries. */
  lemma {:induction false} LossReusesSequence(events: seq<Event>, e: Event, d: Digest, bytes: nat)
    requires SaneRun(Fresh, events) && Run(Fresh, events).Some? && Enabled(Run(Fresh, events).value, e)
    requires Loses(Run(Fresh, events).value, e) && |Run(Fresh, events).value.past.writes| + 1 < WORD
    ensures var last := Run(Step(Run(Fresh, events).value, e), ReopenAndStore(d, bytes));
            && last.Some?
            && |last.value.past.writes| == |Run(Fresh, events).value.past.writes| + 1
            && Used(Run(Fresh, events).value.past.writes, last.value.past.writes[|last.value.past.writes| - 1].sequence)
  {
    var s := Run(Fresh, events).value;
    OpensAreFenced(events);
    WritesAreSequenced(events);
    LagIsWritten(events);
    var t := Step(s, e);
    OpenRuns(t, true);
    var u := Run(t, OpenEvents(true)).value;
    StoreRun(u, d, bytes);
    RunFrom(t, OpenEvents(true), [Admit(d, bytes, []), WriteRecord(true)]);
    assert Used(s.past.writes, s.disk.meta.value.sequence + 1);
  }

  lemma {:induction false} StoreRun(s: State, d: Digest, bytes: nat)
    requires s.proc.Ready?
    ensures Run(s, [Admit(d, bytes, []), WriteRecord(true)]) == Some(Written(Step(s, Admit(d, bytes, []))))
  {
    var events := [Admit(d, bytes, []), WriteRecord(true)];
    assert events[..1] == [Admit(d, bytes, [])] && events[..1][..0] == [];
    assert Run(s, []) == Some(s);
    assert Run(s, events[..1]) == Some(Step(s, Admit(d, bytes, [])));
  }

  // ----- the index and the disk -----

  /** Every indexed record is on disk as indexed; files of evicted records may linger but are not indexed. */
  ghost predicate Indexed(s: State) {
    && (Live(s.proc) ==> forall d | d in s.proc.index :: d in s.disk.records && s.disk.records[d] == s.proc.index[d])
    && (s.proc.Purging? ==> forall v | v in s.proc.victims :: v !in s.proc.index)
    && (s.proc.Storing? ==> s.proc.digest !in s.proc.victims)
  }

  lemma IndexedStep(s: State, e: Event)
    requires Indexed(s) && Enabled(s, e)
    ensures Indexed(Step(s, e))
  {
  }

  /** On every run, crashes and failed writes included, what the index promises is on disk. */
  lemma {:induction false} IndexIsDurable(events: seq<Event>)
    requires Run(Fresh, events).Some?
    ensures Indexed(Run(Fresh, events).value)
    decreases |events|
  {
    if events != [] {
      IndexIsDurable(events[..|events| - 1]);
      IndexedStep(Run(Fresh, events[..|events| - 1]).value, events[|events| - 1]);
    }
  }

  // ----- stored records -----

  /** The event overwrites, unlinks or drops the record d. */
  predicate Touches(s: State, e: Event, d: Digest)
    requires Enabled(s, e)
  {
    || (e.WriteRecord? && e.ok && s.proc.digest == d)
    || (e.Unlink? && e.ok && s.proc.victims[0] == d)
    || (e.Drop? && e.digest == d)
  }

  predicate OnDisk(s: State, d: Digest, r: Record) {
    d in s.disk.records && s.disk.records[d] == r
  }

  predicate InIndex(s: State, d: Digest, r: Record) {
    Live(s.proc) && d in s.proc.index && s.proc.index[d] == r
  }

  /** The state before event k of a run that was possible. */
  ghost function At(s: State, events: seq<Event>, k: nat): State
    requires Run(s, events).Some? && k <= |events|
  {
    RunPrefix(s, events, k);
    Run(s, events[..k]).value
  }

  lemma {:induction false} RunPrefix(s: State, events: seq<Event>, k: nat)
    requires Run(s, events).Some? && k <= |events|
    ensures Run(s, events[..k]).Some?
    decreases |events|
  {
    if k < |events| {
      RunPrefix(s, events[..|events| - 1], k);
      assert events[..|events| - 1][..k] == events[..k];
    } else {
      assert events[..k] == events;
    }
  }

  lemma {:induction false} StepAt(s: State, events: seq<Event>, k: nat)
    requires Run(s, events).Some? && k < |events|
    ensures Enabled(At(s, events, k), events[k]) && At(s, events, k + 1) == Step(At(s, events, k), events[k])
  {
    RunPrefix(s, events, k + 1);
    assert events[..k + 1][..k] == events[..k];
  }

  /** No event from k to m - 1 touches the record. */
  ghost predicate Untouched(s: State, events: seq<Event>, k: nat, m: nat, d: Digest)
    requires Run(s, events).Some? && m <= |events|
  {
    forall i {:trigger LeavesAlone(s, events, i, d)} | k <= i < m :: LeavesAlone(s, events, i, d)
  }

  ghost predicate LeavesAlone(s: State, events: seq<Event>, i: nat, d: Digest)
    requires Run(s, events).Some? && i < |events|
  {
    StepAt(s, events, i);
    !Touches(At(s, events, i), events[i], d)
  }

  lemma DiskKeeps(s: State, e: Event, d: Digest, r: Record)
    requires Enabled(s, e) && OnDisk(s, d, r) && !Touches(s, e, d)
    ensures OnDisk(Step(s, e), d, r)
  {
  }

  lemma {:induction false} RecordSurvives(s: State, events: seq<Event>, k: nat, m: nat, d: Digest, r: Record)
    requires Run(s, events).Some? && k <= m <= |events| && OnDisk(At(s, events, k), d, r)
             && Untouched(s, events, k, m, d)
    ensures OnDisk(At(s, events, m), d, r)
    decreases m - k
  {
    if k < m {
      RecordSurvives(s, events, k, m - 1, d, r);
      StepAt(s, events, m - 1);
      assert LeavesAlone(s, events, m - 1, d);
      DiskKeeps(At(s, events, m - 1), events[m - 1], d, r);
    }
  }

  /** A durable write puts exactly the admitted record on disk and into the index. */
  lemma WriteLands(s: State)
    requires s.proc.Storing? && s.proc.digest !in s.proc.victims
    ensures var r := Record(s.proc.mem.incarnation, Next(s.proc.mem.sequence), s.proc.bytes);
              OnDisk(Step(s, WriteRecord(true)), s.proc.digest, r)
                  && InIndex(Step(s, WriteRecord(true)), s.proc.digest, r)
  {
  }

  /** The readable records that a rebuild event reports, if it is one. */
  function Rebuilt(e: Event): Option<set<Digest>> {
    match e
    case Rebuild(ok, readable) => if ok then Some(readable) else None
    case Reindex(readable) => Some(readable)
    case _ => None
  }

  /** A rebuild indexes exactly the readable records on disk, each as stored. */
  lemma RebuildExact(s: State, e: Event, d: Digest, r: Record)
    requires Enabled(s, e) && Rebuilt(e).Some?
    ensures InIndex(Step(s, e), d, r) <==> OnDisk(s, d, r) && d in Rebuilt(e).value
  {
  }

  /**
    A record made durable stays on disk, whatever crashes, until it is overwritten, unlinked or dropped; every later
    rebuild that can read it indexes it as it was written.
   */
  lemma {:induction false} StoredStays(events: seq<Event>, k: nat, m: nat)
    requires Run(Fresh, events).Some? && k < m <= |events| && events[k] == WriteRecord(true)
    requires var p := At(Fresh, events, k).proc; p.Storing? && Untouched(Fresh, events, k + 1, m, p.digest)
    ensures var p := At(Fresh, events, k).proc;
            var r := Record(p.mem.incarnation, Next(p.mem.sequence), p.bytes);
            && OnDisk(At(Fresh, events, m), p.digest, r)
            && (Rebuilt(events[m - 1]).Some? && p.digest in Rebuilt(events[m - 1]).value ==>
                  InIndex(At(Fresh, events, m), p.digest, r))
  {
    var s := At(Fresh, events, k);
    var r := Record(s.proc.mem.incarnation, Next(s.proc.mem.sequence), s.proc.bytes);
    IndexedAt(events, k);
    StepAt(Fresh, events, k);
    WriteLands(s);
    RecordSurvives(Fresh, events, k + 1, m, s.proc.digest, r);
    if Rebuilt(events[m - 1]).Some? && s.proc.digest in Rebuilt(events[m - 1]).value {
      assert m - 1 != k;
      UntouchedLess(events, k + 1, m, s.proc.digest);
      RecordSurvives(Fresh, events, k + 1, m - 1, s.proc.digest, r);
      StepAt(Fresh, events, m - 1);
      RebuildExact(At(Fresh, events, m - 1), events[m - 1], s.proc.digest, r);
    }
  }

  lemma {:induction false} UntouchedLess(events: seq<Event>, k: nat, m: nat, d: Digest)
    requires Run(Fresh, events).Some? && m <= |events| && m > 0 && Untouched(Fresh, events, k, m, d)
    ensures Untouched(Fresh, events, k, m - 1, d)
  {
  }

  lemma {:induction false} IndexedAt(events: seq<Event>, k: nat)
    requires Run(Fresh, events).Some? && k <= |events|
    ensures Indexed(At(Fresh, events, k))
  {
    RunPrefix(Fresh, events, k);
    IndexIsDurable(events[..k]);
  }

  /** Until the process ends, an indexed record leaves the index only when it is evicted, rebuilt away or touched. */
  lemma IndexKeeps(s: State, e: Event, d: Digest, r: Record)
    requires Enabled(s, e) && InIndex(s, d, r) && !Touches(s, e, d)
    requires !(e.WriteRecord? && e.ok && d in s.proc.victims) && !e.Reindex? && !e.Close? && !e.Crash?
    ensures InIndex(Step(s, e), d, r)
  {
  }
}
