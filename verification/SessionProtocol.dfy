/** What a session answers to the frames it handles, one after the other (src/server.cpp:368-472, 675-700). */
module SessionProtocol {
  import opened Candidates

  const WIRE_VERSION: nat := 1

  datatype Kind = Hello | Ping | PlanRequest | GetPlan | ListPlans | Revalidate | Shutdown | Unexpected

  /** `decodes` says whether the payload parses; version and epoch are what the payload carries. */
  datatype Frame = Frame(kind: Kind, sequence: nat, decodes: bool, version: nat, expectedEpoch: nat)

  datatype Refusal = BadPayload | BadVersion | AlreadyGreeted | HandshakeRequired | StaleEpoch | UnexpectedType

  datatype Act =
    | Replayed
    | Refused(why: Refusal)
    | Greeted
    | Ponged
    | Performed(kind: Kind)
    | ShutdownGranted(epoch: nat)
    | ShutdownUnsent

  /** The part of a session that its answers depend on. */
  datatype Desk = Desk(last: Option<nat>, handshaken: bool)

  /** A handled frame and whether the answer could be sent. */
  datatype Served = Served(frame: Frame, sent: bool)

  const NewDesk: Desk := Desk(None, false)

  predicate Replay(d: Desk, f: Frame) {
    d.last.Some? && f.sequence <= d.last.value
  }

  /** The greeting a frame amounts to on its own. */
  predicate Greeting(f: Frame) {
    f.kind == Hello && f.decodes && f.version == WIRE_VERSION
  }

  predicate Work(k: Kind) {
    k == PlanRequest || k == GetPlan || k == ListPlans || k == Revalidate
  }

  /** The answer to a frame whose sequence has been accepted. */
  function Respond(handshaken: bool, f: Frame, epoch: nat, sent: bool): Act {
    match f.kind
    case Hello =>
      if !f.decodes then Refused(BadPayload)
      else if f.version != WIRE_VERSION then Refused(BadVersion)
      else if handshaken then Refused(AlreadyGreeted)
      else Greeted
    case Ping => Ponged
    case _ =>
      if !handshaken then Refused(HandshakeRequired)
      else if f.kind == Unexpected then Refused(UnexpectedType)
      else if !f.decodes then Refused(BadPayload)
      else if f.kind != Shutdown then Performed(f.kind)
      else if f.expectedEpoch != epoch then Refused(StaleEpoch)
      else if sent then ShutdownGranted(f.expectedEpoch)
      else ShutdownUnsent
  }

  function Handle(d: Desk, s: Served, epoch: nat): (r: (Desk, Act)) {
    if Replay(d, s.frame) then (d, Replayed)
    else (Desk(Some(s.frame.sequence), d.handshaken || Greeting(s.frame)),
        Respond(d.handshaken, s.frame, epoch, s.sent))
  }

  function DeskAfter(served: seq<Served>, epoch: nat): Desk {
    if served == [] then NewDesk
    else Handle(DeskAfter(served[..|served| - 1], epoch), served[|served| - 1], epoch).0
  }

  function ActsOf(served: seq<Served>, epoch: nat): (acts: seq<Act>)
    ensures |acts| == |served|
  {
    if served == [] then []
    else
      var init := served[..|served| - 1];
      ActsOf(init, epoch) + [Handle(DeskAfter(init, epoch), served[|served| - 1], epoch).1]
  }

  // ----- the same answers, stated frame by frame -----

  /** Frame i outranks every frame before it. */
  ghost predicate Advances(served: seq<Served>, i: nat)
    requires i < |served|
  {
    forall j | 0 <= j < i :: served[j].frame.sequence < served[i].frame.sequence
  }

  ghost predicate GreetsAt(served: seq<Served>, i: nat)
    requires i < |served|
  {
    Greeting(served[i].frame) && Advances(served, i)
  }

  /** The session was greeted before frame i. */
  ghost predicate GreetedBefore(served: seq<Served>, i: nat)
    requires i <= |served|
  {
    exists j | 0 <= j < i :: GreetsAt(served, j)
  }

  /** The answer to frame i, in terms of the frames before it alone. */
  ghost function Answer(served: seq<Served>, i: nat, epoch: nat): Act
    requires i < |served|
  {
    if !Advances(served, i) then Replayed else Respond(GreetedBefore(served, i), served[i].frame, epoch, served[i].sent)
  }

  /** What the desk remembers: the largest sequence so far, and whether a greeting was accepted. */
  ghost predicate Remembers(served: seq<Served>, d: Desk) {
    && (d.last.None? <==> served == [])
    && (d.last.Some? ==> exists j | 0 <= j < |served| :: served[j].frame.sequence == d.last.value)
    && (d.last.Some? ==> forall j | 0 <= j < |served| :: served[j].frame.sequence <= d.last.value)
    && (d.handshaken <==> GreetedBefore(served, |served|))
  }

  lemma AdvancesPrefix(served: seq<Served>, n: nat, i: nat)
    requires i < n <= |served|
    ensures Advances(served[..n], i) <==> Advances(served, i)
    ensures GreetsAt(served[..n], i) <==> GreetsAt(served, i)
  {
    if Advances(served[..n], i) {
      forall j | 0 <= j < i
        ensures served[j].frame.sequence < served[i].frame.sequence
      {
        assert served[..n][j].frame.sequence < served[..n][i].frame.sequence;
      }
    }
  }

  lemma GreetedPrefix(served: seq<Served>, n: nat)
    requires n <= |served|
    ensures GreetedBefore(served[..n], n) <==> GreetedBefore(served, n)
  {
    if GreetedBefore(served[..n], n) {
      var j :| 0 <= j < n && GreetsAt(served[..n], j);
      AdvancesPrefix(served, n, j);
    }
    if GreetedBefore(served, n) {
      var j :| 0 <= j < n && GreetsAt(served, j);
      AdvancesPrefix(served, n, j);
    }
  }

  lemma ReplayIff(served: seq<Served>, d: Desk)
    requires served != [] && Remembers(served[..|served| - 1], d)
    ensures Replay(d, served[|served| - 1].frame) <==> !Advances(served, |served| - 1)
  {
    var n := |served| - 1;
    if d.last.Some? {
      var j :| 0 <= j < n && served[..n][j].frame.sequence == d.last.value;
      assert served[j].frame.sequence == d.last.value;
      forall i | 0 <= i < n
        ensures served[i].frame.sequence <= d.last.value
      {
        assert served[..n][i].frame.sequence <= d.last.value;
      }
    }
  }

  lemma GreetedSnoc(served: seq<Served>)
    requires served != []
    ensures GreetedBefore(served, |served|) <==>
              GreetedBefore(served[..|served| - 1], |served| - 1) || GreetsAt(served, |served| - 1)
  {
    GreetedPrefix(served, |served| - 1);
  }

  lemma {:induction false} DeskRemembers(served: seq<Served>, epoch: nat)
    ensures Remembers(served, DeskAfter(served, epoch))
    decreases |served|
  {
    if served != [] {
      var n := |served| - 1;
      DeskRemembers(served[..n], epoch);
      var d := DeskAfter(served[..n], epoch);
      ReplayIff(served, d);
      GreetedSnoc(served);
      RemembersStep(served, d, epoch);
    }
  }

  lemma RemembersStep(served: seq<Served>, d: Desk, epoch: nat)
    requires served != [] && Remembers(served[..|served| - 1], d)
    requires Replay(d, served[|served| - 1].frame) <==> !Advances(served, |served| - 1)
    requires GreetedBefore(served, |served|) <==>
               GreetedBefore(served[..|served| - 1], |served| - 1) || GreetsAt(served, |served| - 1)
    ensures Remembers(served, Handle(d, served[|served| - 1], epoch).0)
  {
    var n := |served| - 1;
    var d' := Handle(d, served[n], epoch).0;
    assert forall j | 0 <= j < n :: served[..n][j] == served[j];
    if Replay(d, served[n].frame) {
      var j :| 0 <= j < n && served[..n][j].frame.sequence == d.last.value;
      assert served[j].frame.sequence == d'.last.value;
    } else {
      assert served[n].frame.sequence == d'.last.value;
    }
  }

  /** Every answer is the one determined by the frames before it. */
  lemma {:induction false} AnswersFollow(served: seq<Served>, epoch: nat, i: nat)
    requires i < |served|
    ensures ActsOf(served, epoch)[i] == Answer(served, i, epoch)
    decreases |served|
  {
    var n := |served| - 1;
    if i < n {
      AnswersFollow(served[..n], epoch, i);
      AdvancesPrefix(served, n, i);
      GreetedPrefix(served, i);
      GreetedPrefix(served[..n], i);
      assert served[..n][..i] == served[..i];
    } else {
      DeskRemembers(served[..n], epoch);
      ReplayIff(served, DeskAfter(served[..n], epoch));
      GreetedPrefix(served, n);
      assert ActsOf(served, epoch)[n] == Handle(DeskAfter(served[..n], epoch), served[n], epoch).1;
    }
  }

  // ----- when each answer is given -----

  /** A request that only a greeted session may make. */
  predicate NeedsGreeting(k: Kind) {
    k != Hello && k != Ping
  }

  /** The condition under which frame i earns an answer, answer by answer. */
  ghost predicate Earned(served: seq<Served>, epoch: nat, i: nat, act: Act)
    requires i < |served|
  {
    var f := served[i].frame;
    match act
    case Replayed => !Advances(served, i)
    case Greeted => GreetsAt(served, i) && !GreetedBefore(served, i)
    case Ponged => Advances(served, i) && f.kind == Ping
    case Performed(k) => Welcome(served, i) && f.kind == k && Work(k) && f.decodes
    case ShutdownGranted(e) => Welcome(served, i) && MayShutDown(f, epoch) && e == epoch && served[i].sent
    case ShutdownUnsent => Welcome(served, i) && MayShutDown(f, epoch) && !served[i].sent
    case Refused(why) => Advances(served, i) && RefusedFor(served, epoch, i, why)
  }

  /** The frame is new and the session was greeted before it. */
  ghost predicate Welcome(served: seq<Served>, i: nat)
    requires i < |served|
  {
    Advances(served, i) && GreetedBefore(served, i)
  }

  predicate MayShutDown(f: Frame, epoch: nat) {
    f.kind == Shutdown && f.decodes && f.expectedEpoch == epoch
  }

  ghost predicate RefusedFor(served: seq<Served>, epoch: nat, i: nat, why: Refusal)
    requires i < |served|
  {
    var f, greeted := served[i].frame, GreetedBefore(served, i);
    match why
    case BadPayload => !f.decodes && (f.kind == Hello || (greeted && (Work(f.kind) || f.kind == Shutdown)))
    case BadVersion => f.kind == Hello && f.decodes && f.version != WIRE_VERSION
    case AlreadyGreeted => Greeting(f) && greeted
    case HandshakeRequired => NeedsGreeting(f.kind) && !greeted
    case StaleEpoch => greeted && f.kind == Shutdown && f.decodes && f.expectedEpoch != epoch
    case UnexpectedType => greeted && f.kind == Unexpected
  }

  /** Every answer is given exactly when it is earned: replays, greeting, work, shutdown and each refusal. */
  lemma {:induction false} ActsExact(served: seq<Served>, epoch: nat, i: nat, act: Act)
    requires i < |served|
    ensures ActsOf(served, epoch)[i] == act <==> Earned(served, epoch, i, act)
  {
    AnswersFollow(served, epoch, i);
    var f := served[i].frame;
    match f.kind
    case Hello =>
    case Ping =>
    case Unexpected =>
    case Shutdown =>
    case _ => assert Work(f.kind);
  }

  /** Distinct answers have distinct conditions, and one of them is always met. */
  lemma {:induction false} OneIsEarned(served: seq<Served>, epoch: nat, i: nat) returns (act: Act)
    requires i < |served|
    ensures Earned(served, epoch, i, act) && forall other :: Earned(served, epoch, i, other) ==> other == act
  {
    act := ActsOf(served, epoch)[i];
    forall other: Act
      ensures Earned(served, epoch, i, other) <==> other == act
    {
      ActsExact(served, epoch, i, other);
    }
  }

  // ----- what the answers promise -----

  /** Sequences of frames that are not refused as replays strictly increase. */
  lemma {:induction false} AcceptedIncrease(served: seq<Served>, epoch: nat, i: nat, j: nat)
    requires i < j < |served| && ActsOf(served, epoch)[j] != Replayed
    ensures served[i].frame.sequence < served[j].frame.sequence
  {
    AnswersFollow(served, epoch, j);
    RespondNeverReplays(served, j, epoch);
  }

  lemma RespondNeverReplays(served: seq<Served>, i: nat, epoch: nat)
    requires i < |served|
    ensures Answer(served, i, epoch) == Replayed <==> !Advances(served, i)
  {
  }

  predicate TakesEffect(a: Act) {
    a.Performed? || a.ShutdownGranted?
  }

  /** Nothing takes effect before an accepted greeting, and no shutdown without the current epoch. */
  lemma {:induction false} EffectsNeedGreeting(served: seq<Served>, epoch: nat, i: nat) returns (j: nat)
    requires i < |served| && TakesEffect(ActsOf(served, epoch)[i])
    ensures j < i && ActsOf(served, epoch)[j] == Greeted
    ensures ActsOf(served, epoch)[i].ShutdownGranted? ==>
            ActsOf(served, epoch)[i].epoch == epoch == served[i].frame.expectedEpoch && served[i].sent
    ensures ActsOf(served, epoch)[i].Performed? ==>
              Work(served[i].frame.kind) && ActsOf(served, epoch)[i].kind == served[i].frame.kind
  {
    AnswersFollow(served, epoch, i);
    assert GreetedBefore(served, i);
    j := FirstGreeting(served, i);
    AnswersFollow(served, epoch, j);
  }

  lemma {:induction false} FirstGreeting(served: seq<Served>, n: nat) returns (j: nat)
    requires n <= |served| && GreetedBefore(served, n)
    ensures j < n && GreetsAt(served, j) && !GreetedBefore(served, j)
    decreases n
  {
    j :| 0 <= j < n && GreetsAt(served, j);
    if GreetedBefore(served, j) {
      j := FirstGreeting(served, j);
    }
  }

  /** A session is greeted once. */
  lemma {:induction false} GreetedOnce(served: seq<Served>, epoch: nat, i: nat, j: nat)
    requires i < j < |served| && ActsOf(served, epoch)[i] == Greeted
    ensures ActsOf(served, epoch)[j] != Greeted
  {
    AnswersFollow(served, epoch, i);
    AnswersFollow(served, epoch, j);
    assert GreetsAt(served, i);
  }
}
