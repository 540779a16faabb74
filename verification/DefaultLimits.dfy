/** An ordinary request within the default limits: the planner decides it. */
module DefaultLimits {
  import opened Saturating
  import opened Paths
  import opened Finite
  import opened Candidates
  import opened PathSets
  import opened Requests
  import opened GlobalAssignment
  import opened SolveGlobal
  import opened EnumeratePaths
  import opened SetEnumeration
  import opened EdgeWork
  import opened EdgeAnalysis
  import opened Planner
  import opened Routings
  import opened Assembler
  import opened PlainRequests
  import opened Witnesses

  /** The worst case for three nodes and three edges. */
  lemma {:induction false} SmallBound(r: Request)
    requires r.Valid() && |r.fabric.edges| == 3 && |r.fabric.nodes| == 3 && r.policy.maxHops == HOPS
    ensures RequestBound(r) == 54
  {
    assert StepBound(3, 1) == Visits(3, 0) == 3;
    assert StepBound(3, 2) == Visits(3, 3) == 12;
    assert StepBound(3, 3) == Visits(3, 12) == 39;
    assert DepthBound(3, 1) == 3 && DepthBound(3, 2) == 15 && DepthBound(3, 3) == 54;
  }

  /** Two paths make at most four selections. */
  lemma {:induction false} TwoPathsFewSelections(t: Terms, near: nat, far: nat)
    requires InTriangle(t, near, far)
    ensures Selections(t) <= 4
  {
    AllPathsExact(t.q);
    var all := AllPaths(t.q);
    forall i | 0 <= i < |all|
      ensures all[i] == [0] || all[i] == [1, 2]
    {
      assert all[i] in all;
      OnlyTwoWays(t, near, far, all[i]);
    }
    AtMostTwo(all, [0], [1, 2]);
    ConsideredBounded(t, FullPool(t), 0, []);
    SelectBoundGrows(|all|, 2);
    assert SelectBound(2) == 2 * SelectBound(1) == 4;
  }

  lemma {:induction false} TriangleSearchable(t: Terms, near: nat, far: nat, left: int)
    requires InTriangle(t, near, far) && RunBound(t.q) == 54 && left > 54
    ensures Searchable(t, Defaults, left)
  {
    ScansBounded(t.q, Deepest(t.q));
    TwoPathsFewSelections(t, near, far);
  }

  lemma {:induction false} EvenRoomAt(i: nat)
    requires i < 2
    ensures var r := Plain(Even);
            r.Valid() && |r.logical| == 2
            && RoomFor(r, Defaults, i, Max(1, Defaults.maxTotalEnumerationSteps) - ScansUpTo(r, i))
  {
    var r := Plain(Even);
    TriangleAsks(10, 9, 2, 1, 4, i);
    SmallBound(r);
    ScansUpToBounded(r, i);
    assert Times(0, 54) == 0 && Times(1, 54) == Times(0, 54) + 54;
    TermsAtValid(r, i);
    TriangleSearchable(TermsAt(r, i), 2, 1, Max(1, Defaults.maxTotalEnumerationSteps) - ScansUpTo(r, i));
  }

  lemma {:induction false} EvenRoomy()
    ensures Plain(Even).Valid() && Roomy(Plain(Even), Defaults)
  {
    EvenRoomAt(0);
    EvenRoomAt(1);
    BothRoomy(Plain(Even));
  }

  lemma {:induction false} BothRoomy(r: Request)
    requires r.Valid() && |r.logical| == 2
    requires RoomFor(r, Defaults, 0, Max(1, Defaults.maxTotalEnumerationSteps) - ScansUpTo(r, 0))
    requires RoomFor(r, Defaults, 1, Max(1, Defaults.maxTotalEnumerationSteps) - ScansUpTo(r, 1))
    ensures Roomy(r, Defaults)
  {
    forall i | 0 <= i < |r.logical|
      ensures RoomFor(r, Defaults, i, Max(1, Defaults.maxTotalEnumerationSteps) - ScansUpTo(r, i))
    {
      assert i == 0 || i == 1;
    }
  }

  lemma {:induction false} EvenSettles(limits: PlannerLimits)
    requires limits.maxSetAlternatives >= 1
    ensures Plain(Even).Valid() && Settles(Plain(Even), limits)
  {
    var plans := EvenPlans(limits);
    var m := HeadroomIsNotSeparable(limits, plans);
  }

  /** Complete analyses of its logical edges. */
  lemma {:induction false} EvenPlans(limits: PlannerLimits) returns (plans: seq<EdgePlan>)
    requires limits.maxSetAlternatives >= 1
    ensures var r := Plain(Even);
            r.Valid() && |r.logical| == 2 && AllPlanned(r, limits, plans) && AllTrue(FlagsOf(plans))
            && MenuOf(plans) == BestMenu(r, limits)
  {
    var a, b := TriangleFork(10, 9, 2, 1, 4);
    EvenEndpoints(0);
    EvenEndpoints(1);
    plans := ForkPlans(Plain(Even), limits, a, b, 4, 2, 1);
  }

  lemma {:induction false} ForkPlans(r: Request, limits: PlannerLimits, a: PathSet, b: PathSet, d: nat, near: nat,
      far: nat)
    returns (plans: seq<EdgePlan>)
    requires Fork(r, a, b, d, near, far) && limits.maxSetAlternatives >= 1
    requires TermsAt(r, 0).q.source != TermsAt(r, 0).q.target && TermsAt(r, 1).q.source != TermsAt(r, 1).q.target
    requires forall x | 0 <= x < |SpareOf(r)| :: d <= SpareOf(r)[x]
    ensures AllPlanned(r, limits, plans) && AllTrue(FlagsOf(plans)) && MenuOf(plans) == BestMenu(r, limits)
  {
    ForkMapping(r, a, b, d, near, far);
    plans := WholePlans(r, limits, [a, b]);
  }

  lemma {:induction false} EvenEndpoints(i: nat)
    requires i < 2
    ensures var r := Plain(Even);
            r.Valid() && |r.logical| == 2 && r.Bound(i) && TermsAt(r, i).q.source != TermsAt(r, i).q.target
  {
    TriangleAsks(10, 9, 2, 1, 4, i);
  }

  /** Every mapping of the request has the same cost. */
  lemma {:induction false} EvenCost(m: seq<PathSet>)
    requires Plain(Even).Valid() && Mapping(Plain(Even), m)
    ensures MappingScore(m).totalCost == 4
  {
    var a, b := TriangleFork(10, 9, 2, 1, 4);
    ForkCost(Plain(Even), a, b, 4, 2, 1, m);
  }

  lemma {:induction false} ForkCost(r: Request, a: PathSet, b: PathSet, d: nat, near: nat, far: nat, m: seq<PathSet>)
    requires Fork(r, a, b, d, near, far) && near == 2 * far < 100 && Mapping(r, m)
    ensures MappingScore(m).totalCost == 2 * near
  {
    assert AnswerAt(r, m, 0) && AnswerAt(r, m, 1);
    PairCost(m);
  }

  lemma {:induction false} PairCost(m: seq<PathSet>)
    requires |m| == 2 && InMenu(Single(m), Fronts(2))
    ensures MappingScore(m).totalCost == SatAdd(SatAdd(0, m[0].totalCost), m[1].totalCost)
  {
    var menu := Single(m);
    assert Fronts(2) == [0, 0] && [0, 0][..1] == [0] && [0][..0] == [];
    assert Tally(menu, []).totalCost == 0 && Tally(menu, [0]).totalCost == SatAdd(0, m[0].totalCost);
  }

  /** With the default limits the planner does not give up on it: it emits a plan that no routing beats. */
  method EvenByDefault() returns (reply: Reply)
    ensures Plain(Even).Valid() && reply.Emitted? && reply.optimal
    ensures reply.plan.totalCost == 4 && UnbeatenByRouting(Plain(Even), MappingScore(reply.answers))
  {
    EvenRoomy();
    EvenSettles(Defaults);
    EvenIsDecidable(Defaults);
    MappableIffRoutable(Plain(Even));
    reply := PlanRequest(Plain(Even), Defaults);
    EvenCost(reply.answers);
    EvenDropsNothing(Defaults);
    UnbeatenRoutes(Plain(Even), MappingScore(reply.answers));
  }
}
