/** Every interleaving of a session's reader and worker (src/server.cpp:263-366). */
module SessionRuns {
  import opened Candidates
  import opened SessionProtocol

  datatype Reader = Listening | Holding(frame: Frame) | ReaderGone

  datatype Worker = Waiting | Taken(frame: Frame) | Cleared(frame: Frame) | Answered(act: Act, sent: bool) | WorkerGone

  /** `received`, `served` and `acts` record what was read from the wire, handled and answered, in order. */
  datatype Session = Session(inbox: seq<Frame>, desk: Desk, reader: Reader, worker: Worker, stopping: bool,
                             received: seq<Frame>, served: seq<Served>, acts: seq<Act>)

  datatype Event =
    | Read(frame: Frame)
    | ReadFails
    | Enqueue
    | ReaderStops
    | Dequeue
    | CheckSequence(sent: bool)
    | Reply(sent: bool)
    | NextRound
    | WorkerStops
    | StopAll

  /** The configuration: inbox bound and the coordinator's epoch. */
  datatype Config = Config(maxDepth: nat, epoch: nat)

  const Opened: Session := Session([], NewDesk, Listening, Waiting, false, [], [], [])

  predicate Enabled(c: Config, s: Session, e: Event) {
    match e
    case Read(_) => s.reader.Listening? && !s.stopping
    case ReadFails => s.reader.Listening?
    case Enqueue => s.reader.Holding? && |s.inbox| < c.maxDepth && !s.stopping
    case ReaderStops => !s.reader.ReaderGone? && s.stopping
    case Dequeue => s.worker.Waiting? && s.inbox != []
    case CheckSequence(_) => s.worker.Taken?
    case Reply(_) => s.worker.Cleared?
    case NextRound => s.worker.Answered?
    case WorkerStops => s.worker.Waiting? && s.inbox == [] && (s.reader.ReaderGone? || s.stopping)
    case StopAll => true
  }

  function Step(c: Config, s: Session, e: Event): Session
    requires Enabled(c, s, e)
  {
    match e
    case Read(f) => s.(reader := Holding(f), received := s.received + [f])
    case ReadFails => s.(reader := ReaderGone)
    case Enqueue => s.(inbox := s.inbox + [s.reader.frame], reader := Listening)
    case ReaderStops => s.(reader := ReaderGone)
    case Dequeue => s.(inbox := s.inbox[1..], worker := Taken(s.inbox[0]))
    case CheckSequence(sent) =>
      var f := s.worker.frame;
      if Replay(s.desk, f) then Answer(s, Replayed, Served(f, sent))
      else s.(desk := s.desk.(last := Some(f.sequence)), worker := Cleared(f))
    case Reply(sent) =>
      var f := s.worker.frame;
      Answer(s.(desk := s.desk.(handshaken := s.desk.handshaken || Greeting(f))),
             Respond(s.desk.handshaken, f, c.epoch, sent), Served(f, sent))
    case NextRound =>
      var granted := s.worker.act.ShutdownGranted?;
      if !s.worker.sent || granted || s.stopping then s.(worker := WorkerGone, stopping := s.stopping || granted)
      else s.(worker := Waiting)
    case WorkerStops => s.(worker := WorkerGone)
    case StopAll => s.(stopping := true)
  }

  function Answer(s: Session, act: Act, handled: Served): Session {
    s.(worker := Answered(act, handled.sent), served := s.served + [handled], acts := s.acts + [act])
  }

  function Run(c: Config, events: seq<Event>): Option<Session> {
    if events == [] then Some(Opened)
    else
      match Run(c, events[..|events| - 1])
      case None => None
      case Some(s) => if Enabled(c, s, events[|events| - 1]) then Some(Step(c, s, events[|events| - 1])) else None
  }

  // ----- what every interleaving keeps -----

  function Frames(served: seq<Served>): seq<Frame> {
    seq(|served|, i requires 0 <= i < |served| => served[i].frame)
  }

  function InHand(w: Worker): seq<Frame> {
    if w.Taken? || w.Cleared? then [w.frame] else []
  }

  function InReader(r: Reader): seq<Frame> {
    if r.Holding? then [r.frame] else []
  }

  /**
    Frames move from the wire through the inbox to an answer in order; only one still held by the reader can be lost.
   */
  ghost predicate InOrder(s: Session) {
    var path := Path(Frames(s.served), InHand(s.worker), s.inbox, InReader(s.reader));
    path <= s.received && (!s.reader.ReaderGone? ==> path == s.received)
  }

  function Path(handled: seq<Frame>, hand: seq<Frame>, inbox: seq<Frame>, held: seq<Frame>): seq<Frame> {
    handled + hand + inbox + held
  }

  /** Moving a frame one station on does not change the order. */
  lemma PathMoves(a: seq<Frame>, b: seq<Frame>, c: seq<Frame>, f: Frame)
    ensures Path(a, b, c, [f]) == Path(a, b, c + [f], []) == Path(a, b, c, []) + [f]
    ensures Path(a, [f], b, c) == Path(a + [f], [], b, c) == Path(a, [], [f] + b, c)
  {
  }

  /** The worker's state is that of a session served by one thread. */
  ghost predicate Sequential(c: Config, s: Session) {
    var desk := DeskAfter(s.served, c.epoch);
    && s.acts == ActsOf(s.served, c.epoch)
    && (if s.worker.Cleared? then !Replay(desk, s.worker.frame)
       && s.desk == desk.(last := Some(s.worker.frame.sequence))
        else s.desk == desk)
    && (s.worker.Answered? ==> s.acts != [] && s.worker.act == s.acts[|s.acts| - 1])
  }

  ghost predicate Kept(c: Config, s: Session) {
    |s.inbox| <= c.maxDepth && InOrder(s) && Sequential(c, s)
  }

  lemma FramesSnoc(served: seq<Served>, x: Served)
    ensures Frames(served + [x]) == Frames(served) + [x.frame]
  {
  }

  lemma {:induction false} ServedSnoc(served: seq<Served>, x: Served, epoch: nat)
    ensures ActsOf(served + [x], epoch) == ActsOf(served, epoch) + [Handle(DeskAfter(served, epoch), x, epoch).1]
    ensures DeskAfter(served + [x], epoch) == Handle(DeskAfter(served, epoch), x, epoch).0
  {
    assert (served + [x])[..|served|] == served;
  }

  lemma OrderStep(c: Config, s: Session, e: Event)
    requires InOrder(s) && Enabled(c, s, e)
    ensures InOrder(Step(c, s, e))
  {
    var handled, hand, held := Frames(s.served), InHand(s.worker), InReader(s.reader);
    match e
    case Read(f) => PathMoves(handled, hand, s.inbox, f);
    case ReaderStops =>
      if s.reader.Holding? {
        PathMoves(handled, hand, s.inbox, s.reader.frame);
      }
    case Enqueue => PathMoves(handled, hand, s.inbox, s.reader.frame);
    case Dequeue =>
      PathMoves(handled, s.inbox[1..], held, s.inbox[0]);
      assert [s.inbox[0]] + s.inbox[1..] == s.inbox;
    case CheckSequence(sent) =>
      FramesSnoc(s.served, Served(s.worker.frame, sent));
      PathMoves(handled, s.inbox, held, s.worker.frame);
    case Reply(sent) =>
      FramesSnoc(s.served, Served(s.worker.frame, sent));
      PathMoves(handled, s.inbox, held, s.worker.frame);
    case _ =>
  }

  lemma SequentialStep(c: Config, s: Session, e: Event)
    requires Sequential(c, s) && Enabled(c, s, e)
    ensures Sequential(c, Step(c, s, e))
  {
    if e.CheckSequence? || e.Reply? {
      ServedSnoc(s.served, Served(s.worker.frame, e.sent), c.epoch);
    }
  }

  /**
    However reader, worker and shutdown interleave, the session answers as if it served the received frames one by one.
   */
  lemma {:induction false} InterleavingsAreSequential(c: Config, events: seq<Event>)
    requires Run(c, events).Some?
    ensures Kept(c, Run(c, events).value)
    decreases |events|
  {
    if events != [] {
      InterleavingsAreSequential(c, events[..|events| - 1]);
      var s := Run(c, events[..|events| - 1]).value;
      OrderStep(c, s, events[|events| - 1]);
      SequentialStep(c, s, events[|events| - 1]);
    }
  }

  /** Frame i handled is frame i received: arrival order, at most once each. */
  lemma {:induction false} HandledInOrder(c: Config, events: seq<Event>, i: nat)
    requires Run(c, events).Some? && i < |Run(c, events).value.served|
    ensures i < |Run(c, events).value.received| && Run(c, events).value.served[i].frame ==
            Run(c, events).value.received[i]
  {
    InterleavingsAreSequential(c, events);
    var s := Run(c, events).value;
    assert Frames(s.served)[i] == s.served[i].frame;
  }

  /** At every point of every interleaving each answer is given exactly when its frame earns it. */
  lemma {:induction false} AnswersAreEarned(c: Config, events: seq<Event>, i: nat, act: Act)
    requires Run(c, events).Some? && i < |Run(c, events).value.served|
    ensures var s := Run(c, events).value;
            |s.acts| == |s.served| && (s.acts[i] == act <==> Earned(s.served, c.epoch, i, act))
  {
    InterleavingsAreSequential(c, events);
    ActsExact(Run(c, events).value.served, c.epoch, i, act);
  }

  /** The inbox bound and the promises of the protocol hold at every point of every interleaving. */
  lemma {:induction false} SessionIsSafe(c: Config, events: seq<Event>, i: nat) returns (j: nat)
    requires Run(c, events).Some? && i < |Run(c, events).value.acts|
    ensures var s := Run(c, events).value;
            && |s.inbox| <= c.maxDepth && |s.acts| == |s.served|
            && (s.acts[i] != Replayed ==> forall k | 0 <= k < i ::
               s.served[k].frame.sequence < s.served[i].frame.sequence)
            && (TakesEffect(s.acts[i]) ==> j < i && s.acts[j] == Greeted)
            && (s.acts[i].ShutdownGranted? ==> s.served[i].frame.expectedEpoch == c.epoch)
  {
    InterleavingsAreSequential(c, events);
    var s := Run(c, events).value;
    j := 0;
    if TakesEffect(s.acts[i]) {
      j := EffectsNeedGreeting(s.served, c.epoch, i);
    }
    if s.acts[i] != Replayed {
      forall k | 0 <= k < i
        ensures s.served[k].frame.sequence < s.served[i].frame.sequence
      {
        AcceptedIncrease(s.served, c.epoch, k, i);
      }
    }
  }

  /** A session's own worker stops the coordinator only by a granted shutdown. */
  ghost predicate StopEarned(s: Session, events: seq<Event>) {
    s.stopping ==> StopAll in events || exists i | 0 <= i < |s.acts| :: s.acts[i].ShutdownGranted?
  }

  lemma {:induction false} StopIsEarned(c: Config, events: seq<Event>)
    requires Run(c, events).Some?
    ensures StopEarned(Run(c, events).value, events)
    decreases |events|
  {
    if events != [] {
      var init, e := events[..|events| - 1], events[|events| - 1];
      StopIsEarned(c, init);
      InterleavingsAreSequential(c, init);
      StopStep(c, Run(c, init).value, init, e);
      assert events == init + [e];
    }
  }

  lemma StopStep(c: Config, s: Session, events: seq<Event>, e: Event)
    requires StopEarned(s, events) && Sequential(c, s) && Enabled(c, s, e)
    ensures StopEarned(Step(c, s, e), events + [e])
  {
    var t := Step(c, s, e);
    if exists i | 0 <= i < |s.acts| :: s.acts[i].ShutdownGranted? {
      var i :| 0 <= i < |s.acts| && s.acts[i].ShutdownGranted?;
      assert t.acts[i].ShutdownGranted?;
    }
    if e.NextRound? && s.worker.act.ShutdownGranted? {
      assert t.acts[|t.acts| - 1].ShutdownGranted?;
    }
  }
}
