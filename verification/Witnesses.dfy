/** Requests on which the planner's unconditional promises fail, and why the side conditions are needed. */
module Witnesses {
  import opened Saturating
  import opened Paths
  import opened Finite
  import opened Sorting
  import opened Candidates
  import opened PathSets
  import opened Families
  import opened FamilyLaws
  import opened Requests
  import opened GlobalAssignment
  import opened SolveGlobal
  import opened EdgeWork
  import opened EdgeAnalysis
  import opened Planner
  import opened PlainRequests

  // ----- answers with one path -----

  ghost function One(t: Terms, p: Path): PathSet
    requires t.Valid() && t.q.InRange(p)
  {
    BuildPathSet(t, [Materialise(t, p)])
  }

  /** A compliant path whose edges carry the demand is an answer when one path is wanted. */
  lemma {:induction false} OneIsAnswer(t: Terms, p: Path)
    requires t.Valid() && t.wanted == 1 && t.q.Compliant(p)
    requires forall x | 0 <= x < |t.spare| && x in p :: t.demand <= t.spare[x]
    ensures IsAnswer(t, One(t, p)) && One(t, p).paths == [Materialise(t, p)]
    ensures One(t, p).totalCost == One(t, p).maxPathCost == Min(t.q.Cost(p), COST_CEILING) && One(t, p).conflicts == 0
  {
    var s := [Materialise(t, p)];
    OneIsFamily(t, p);
    BuiltFromOrdered(t, s);
    assert s[..0] == [] && TotalCost(s) == SatAdd(TotalCost(s[..0]), s[0].cost)
           && LargestCost(s) == Max(LargestCost(s[..0]), s[0].cost);
    assert Conflicts(s) == Conflicts(s[..0]) + ConflictsWith(s[..0], s[0]);
  }

  /** And there are no others. */
  lemma {:induction false} OnlyOnes(t: Terms, s: PathSet) returns (p: Path)
    requires t.Valid() && t.wanted == 1 && IsAnswer(t, s)
    ensures t.q.Compliant(p) && s == One(t, p)
  {
    p := s.paths[0].edges;
    assert Good(t, s.paths[0]);
    assert s.paths == [Materialise(t, p)];
  }

  // ----- a direct edge and a detour -----

  /** Edge 0 leads to the target; edges 1 and 2 lead there over node 1. */
  function Triangle(direct: nat, detour: nat, near: nat, far: nat, demand: nat): Sketch {
    Sketch(3, [PlainEdge(0, 2, direct, near, None), PlainEdge(0, 1, detour, far, None),
        PlainEdge(1, 2, detour, far, None)],
           2, 2, 1, Ignored, 1, demand)
  }

  lemma TriangleValid(direct: nat, detour: nat, near: nat, far: nat, demand: nat)
    requires 0 < direct < 100 && 0 < detour < 100 && near < 100 && far < 100 && demand <= direct && demand <= detour
    ensures Triangle(direct, detour, near, far, demand).Valid()
  {
  }

  ghost predicate InTriangle(t: Terms, near: nat, far: nat) {
    && t.Valid() && t.q.source == 0 && t.q.target == 2 && t.q.hopLimit == HOPS && t.q.maxCost == COST_CEILING
       && 0 in t.q.allowed
    && t.wanted == 1 && t.q.arcs == [Arc(0, 2, near), Arc(0, 1, far), Arc(1, 2, far)]
    && 0 in t.q.usable && 1 in t.q.usable && 2 in t.q.usable
  }

  lemma {:induction false} TriangleShape(direct: nat, detour: nat, near: nat, far: nat, demand: nat, t: Terms)
    requires near < 100 && far < 100 && Shape(Triangle(direct, detour, near, far, demand), t)
    ensures InTriangle(t, near, far) && t.capacity == t.spare == [direct, detour, detour] && t.diversity == Ignored
  {
    var k := Triangle(direct, detour, near, far, demand);
    assert ShapeAt(k, t, 0) && ShapeAt(k, t, 1) && ShapeAt(k, t, 2);
  }

  lemma {:induction false} OnlyTwoWays(t: Terms, near: nat, far: nat, p: Path)
    requires InTriangle(t, near, far) && t.q.Walk(0, p, 2)
    ensures p == [0] || p == [1, 2]
  {
    assert t.q.NodeAt(0, p, 0) == 0 && p != [];
    if |p| > 1 {
      assert t.q.arcs[p[1]].from == t.q.NodeAt(0, p, 1);
      ghost var third := t.q.NodeAt(0, p, 2);
    }
  }

  lemma {:induction false} TwoWaysComply(t: Terms, near: nat, far: nat, p: Path)
    requires InTriangle(t, near, far) && near < 100 && far < 100 && (p == [0] || p == [1, 2])
    ensures t.q.Compliant(p) && t.q.Cost(p) == if p == [0] then near else 2 * far
  {
    if p == [0] {
      assert p[..0] == [] && t.q.Cost(p[..0]) == 0;
    } else {
      assert p[..1] == [1] && [1][..0] == [] && t.q.Cost([]) == 0 && t.q.Cost([1]) == far;
    }
    assert t.q.NodeAt(0, p, 0) == 0;
  }

  /** The tables of the two ways. */
  lemma {:induction false} TriangleTables(t: Terms, near: nat, far: nat, p: Path)
    requires InTriangle(t, near, far) && (p == [0] || p == [1, 2]) && t.demand <= COST_CEILING && t.capacity == t.spare
    requires |t.spare| == 3 && forall x | 0 <= x < 3 :: 0 < t.spare[x] && t.demand <= t.spare[x] <= COST_CEILING
    ensures var s := One(t, p); var d := t.demand;
            if p == [0] then s.usage == [Use(0, d)] && s.headroom == t.spare[0] - d
            else s.usage == [Use(1, d), Use(2, d)] && s.headroom == Min(t.spare[1] - d, t.spare[2] - d)
  {
    OneTable(t, p);
    if p == [0] {
      DirectTable(t, near, far);
    } else {
      DetourTable(t, near, far);
    }
  }

  lemma {:induction false} OneTable(t: Terms, p: Path)
    requires t.Valid() && t.q.InRange(p) && AllInRange(t, [Materialise(t, p)])
    ensures One(t, p).usage == ChargePath(t, [], p)
    ensures Verified(t.capacity, ChargePath(t, [], p)) && One(t, p).headroom == Headroom(t, ChargePath(t, [], p))
  {
    var c := Materialise(t, p);
    SortOne(c);
    UsageEdges(t, [c]);
    assert [c][..0] == [] && Usage(t, [c][..0]) == [] && Usage(t, [c]) == ChargePath(t, [], c.edges);
  }

  lemma {:induction false} SortOne(c: Candidate)
    ensures Sort(CandidateLess, [c]) == [c]
  {
    CandidateOrder();
    SortKeeps(CandidateLess, [c]);
    SameElements([c], Sort(CandidateLess, [c]));
    assert Sort(CandidateLess, [c])[0] in [c];
  }

  lemma {:induction false} DirectTable(t: Terms, near: nat, far: nat)
    requires InTriangle(t, near, far) && |t.spare| == |t.capacity| == 3 && t.capacity[0] > 0 && t.spare[0] >= t.demand
    requires t.spare[0] <= COST_CEILING
    ensures ChargePath(t, [], [0]) == [Use(0, t.demand)]
    ensures Verified(t.capacity, [Use(0, t.demand)]) && Headroom(t, [Use(0, t.demand)]) == t.spare[0] - t.demand
  {
    var u := [Use(0, t.demand)];
    assert [0][..0] == [] && ChargePath(t, [], []) == [];
    assert u[..0] == [] && Headroom(t, u[..0]) == COST_CEILING;
  }

  lemma {:induction false} DetourTable(t: Terms, near: nat, far: nat)
    requires InTriangle(t, near, far) && |t.spare| == |t.capacity| == 3 && t.capacity[1] > 0 && t.capacity[2] > 0
    requires t.demand <= t.spare[1] <= COST_CEILING && t.demand <= t.spare[2] <= COST_CEILING
    ensures var u := [Use(1, t.demand), Use(2, t.demand)];
            && ChargePath(t, [], [1, 2]) == u && Verified(t.capacity, u)
            && Headroom(t, u) == Min(t.spare[1] - t.demand, t.spare[2] - t.demand)
  {
    var u := [Use(1, t.demand), Use(2, t.demand)];
    assert [1, 2][..1] == [1] && [1][..0] == [] && ChargePath(t, [], []) == [];
    var first := [Use(1, t.demand)];
    assert ChargePath(t, [], [1]) == first && first[1..] == [];
    assert Charge(first, 2, t.demand) == [first[0]] + Charge([], 2, t.demand) == u;
    assert u[..1] == [Use(1, t.demand)] && u[..1][..0] == [] && Headroom(t, []) == COST_CEILING;
    assert Headroom(t, u[..1]) == t.spare[1] - t.demand;
  }

  /** A logical edge with exactly two answers. */
  ghost predicate TwoAnswers(t: Terms, a: PathSet, b: PathSet) {
    t.Valid() && IsAnswer(t, a) && IsAnswer(t, b) && forall s {:trigger IsAnswer(t, s)} | IsAnswer(t, s) ::
        s == a || s == b
  }

  /** a runs over the direct edge, b over the detour, each with demand d and the given cost. */
  ghost predicate Ways(a: PathSet, b: PathSet, d: nat, near: nat, far: nat) {
    && a.usage == [Use(0, d)] && a.totalCost == a.maxPathCost == near && a.conflicts == 0
    && b.usage == [Use(1, d), Use(2, d)] && b.totalCost == b.maxPathCost == 2 * far && b.conflicts == 0
  }

  lemma {:induction false} TriangleAnswers(t: Terms, near: nat, far: nat) returns (a: PathSet, b: PathSet)
    requires InTriangle(t, near, far) && near < 100 && far < 100 && t.demand <= COST_CEILING && t.capacity == t.spare
    requires |t.spare| == 3 && forall x | 0 <= x < 3 :: 0 < t.spare[x] && t.demand <= t.spare[x] <= COST_CEILING
    ensures TwoAnswers(t, a, b) && Ways(a, b, t.demand, near, far)
    ensures a.headroom == t.spare[0] - t.demand && b.headroom == Min(t.spare[1] - t.demand, t.spare[2] - t.demand)
  {
    TwoWaysComply(t, near, far, [0]);
    TwoWaysComply(t, near, far, [1, 2]);
    OneIsAnswer(t, [0]);
    OneIsAnswer(t, [1, 2]);
    TriangleTables(t, near, far, [0]);
    TriangleTables(t, near, far, [1, 2]);
    a, b := One(t, [0]), One(t, [1, 2]);
    forall s | IsAnswer(t, s)
      ensures s == a || s == b
    {
      var p := OnlyOnes(t, s);
      OnlyTwoWays(t, near, far, p);
    }
  }

  /** Both logical edges of the request have the answers a and b. */
  ghost predicate Fork(r: Request, a: PathSet, b: PathSet, d: nat, near: nat, far: nat) {
    && r.Valid() && |r.logical| == 2 && Ways(a, b, d, near, far)
    && r.Bound(0) && r.Bound(1) && TwoAnswers(TermsAt(r, 0), a, b) && TwoAnswers(TermsAt(r, 1), a, b)
  }

  lemma {:induction false} TriangleFork(direct: nat, detour: nat, near: nat, far: nat, demand: nat)
      returns (a: PathSet, b: PathSet)
    requires 0 < direct < 100 && 0 < detour < 100 && near < 100 && far < 100 && demand <= direct && demand <= detour
    ensures var r := Plain(Triangle(direct, detour, near, far, demand));
            Fork(r, a, b, demand, near, far) && SpareOf(r) == [direct, detour, detour]
    ensures a.headroom == direct - demand && b.headroom == detour - demand
  {
    var k := Triangle(direct, detour, near, far, demand);
    TriangleAsks(direct, detour, near, far, demand, 0);
    TriangleAsks(direct, detour, near, far, demand, 1);
    a, b := ForkOf(Plain(k), TermsAt(Plain(k), 0), near, far);
  }

  lemma {:induction false} ForkOf(r: Request, t: Terms, near: nat, far: nat) returns (a: PathSet, b: PathSet)
    requires r.Valid() && |r.logical| == 2 && r.Bound(0) && r.Bound(1) && TermsAt(r, 0) == TermsAt(r, 1) == t
    requires InTriangle(t, near, far) && near < 100 && far < 100 && t.demand <= COST_CEILING && t.capacity == t.spare
    requires |t.spare| == 3 && forall x | 0 <= x < 3 :: 0 < t.spare[x] && t.demand <= t.spare[x] <= COST_CEILING
    ensures Fork(r, a, b, t.demand, near, far)
    ensures a.headroom == t.spare[0] - t.demand && b.headroom == Min(t.spare[1] - t.demand, t.spare[2] - t.demand)
  {
    a, b := TriangleAnswers(t, near, far);
  }

  /** Both logical edges of a triangle ask the same question. */
  lemma {:induction false} TriangleAsks(direct: nat, detour: nat, near: nat, far: nat, demand: nat, i: nat)
    requires 0 < direct < 100 && 0 < detour < 100 && near < 100 && far < 100 && demand <= direct && demand <= detour
             && i < 2
    ensures var r := Plain(Triangle(direct, detour, near, far, demand));
            && r.Valid() && |r.logical| == 2 && r.Bound(i) && r.Bound(0) && TermsAt(r, i) == TermsAt(r, 0)
            && InTriangle(TermsAt(r, i), near, far) && TermsAt(r, i).demand == demand
            && TermsAt(r, i).capacity == TermsAt(r, i).spare == SpareOf(r) == [direct, detour, detour]
  {
    var k := Triangle(direct, detour, near, far, demand);
    TriangleValid(direct, detour, near, far, demand);
    PlainTerms(k, i);
    PlainTerms(k, 0);
    TriangleShape(direct, detour, near, far, demand, TermsAt(Plain(k), i));
  }

  /** What two choices commit together. */
  lemma {:induction false} TwoLevels(menu: Menu, i: nat, j: nat, x: nat)
    requires |menu| == 2 && i < |menu[0]| && j < |menu[1]|
    ensures InMenu(menu, [i, j]) && InMenu(menu, [i]) && InMenu(menu, [])
    ensures Committed(menu, [i, j], x) == Amount(menu[0][i].usage, x) + Amount(menu[1][j].usage, x)
  {
    assert [i, j][..1] == [i] && [i][..0] == [] && Committed(menu, [], x) == 0;
    assert Committed(menu, [i], x) == Amount(menu[0][i].usage, x);
  }

  lemma {:induction false} WayAmounts(a: PathSet, b: PathSet, d: nat, near: nat, far: nat, x: nat)
    requires Ways(a, b, d, near, far)
    ensures Amount(a.usage, x) == if x == 0 then d else 0
    ensures Amount(b.usage, x) == if x == 1 || x == 2 then d else 0
  {
    assert a.usage[1..] == [] && b.usage[1..] == [Use(2, d)] && b.usage[1..][1..] == [];
    assert Amount([], x) == 0 && Amount([Use(2, d)], x) == if x == 2 then d else 0;
  }

  // ----- the retention cap -----

  /** Two exchanges of 5 units: the direct edge has room for one, the dearer detour for both. */
  const Crowded: Sketch := Triangle(5, 10, 1, 1, 5)

  /** A single retained alternative is the best answer. */
  lemma {:induction false} OnlyBestKept(t: Terms, plan: EdgePlan, a: PathSet, b: PathSet)
    requires TwoAnswers(t, a, b) && PathSetLess(a, b) && plan.Planned? && Represents(t, plan, 1) && plan.exhaustive
    ensures plan.sets == [a]
  {
    assert plan.sets[0] in plan.sets;
  }

  lemma {:induction false} LevelKept(r: Request, limits: PlannerLimits, plans: seq<EdgePlan>, l: nat, a: PathSet,
      b: PathSet)
    requires r.Valid() && limits.maxSetAlternatives == 1 && AllPlanned(r, limits, plans) && AllTrue(FlagsOf(plans))
    requires l < |plans| && TwoAnswers(TermsAt(r, l), a, b) && PathSetLess(a, b)
    ensures MenuOf(plans)[l] == [a]
  {
    assert PlanOk(r, limits, plans[l], l) && FlagsOf(plans)[l];
    OnlyBestKept(TermsAt(r, l), plans[l], a, b);
  }

  lemma {:induction false} ForkMenu(r: Request, limits: PlannerLimits, plans: seq<EdgePlan>, a: PathSet, b: PathSet,
      d: nat)
    requires Fork(r, a, b, d, 1, 1) && limits.maxSetAlternatives == 1
    requires AllPlanned(r, limits, plans) && AllTrue(FlagsOf(plans))
    ensures MenuOf(plans) == [[a], [a]]
  {
    LevelKept(r, limits, plans, 0, a, b);
    LevelKept(r, limits, plans, 1, a, b);
  }

  /** The retained alternatives of any complete analysis do not fit together when one of each is kept. */
  lemma {:induction false} CapHidesFeasibility(limits: PlannerLimits, plans: seq<EdgePlan>, c: Choice)
    requires Plain(Crowded).Valid() && limits.maxSetAlternatives == 1
    requires AllPlanned(Plain(Crowded), limits, plans) && AllTrue(FlagsOf(plans))
    ensures !Feasible(MenuOf(plans), SpareOf(Plain(Crowded)), c)
  {
    var a, b := TriangleFork(5, 10, 1, 1, 5);
    ForkMenu(Plain(Crowded), limits, plans, a, b, 5);
    WayAmounts(a, b, 5, 1, 1, 0);
    TooMuchTwice(a, SpareOf(Plain(Crowded)), c);
  }

  lemma {:induction false} TooMuchTwice(a: PathSet, spare: seq<nat>, c: Choice)
    requires |spare| > 0 && Amount(a.usage, 0) + Amount(a.usage, 0) > spare[0]
    ensures !Feasible([[a], [a]], spare, c)
  {
    TwoLevels([[a], [a]], 0, 0, 0);
    if |c| == 2 && InMenu([[a], [a]], c) {
      assert c == [0, 0];
    }
  }

  /** Yet the request has a mapping: one exchange takes the detour. */
  lemma {:induction false} CrowdedIsMappable() returns (m: seq<PathSet>)
    ensures Plain(Crowded).Valid() && Mapping(Plain(Crowded), m)
  {
    var r := Plain(Crowded);
    var a, b := TriangleFork(5, 10, 1, 1, 5);
    m := [a, b];
    ForkMapping(r, a, b, 5, 1, 1);
  }

  lemma {:induction false} ForkMapping(r: Request, a: PathSet, b: PathSet, d: nat, near: nat, far: nat)
    requires Fork(r, a, b, d, near, far) && forall x | 0 <= x < |SpareOf(r)| :: d <= SpareOf(r)[x]
    ensures Mapping(r, [a, b])
  {
    var m := [a, b];
    ForkAnswers(r, m, a, b, d, near, far);
    OnBothWays(a, b, d, near, far, SpareOf(r));
    assert Single(m) == [[a], [b]] && Fronts(2) == [0, 0];
  }

  lemma {:induction false} ForkAnswers(r: Request, m: seq<PathSet>, a: PathSet, b: PathSet, d: nat, near: nat, far: nat)
    requires Fork(r, a, b, d, near, far) && |m| == 2 && forall i | 0 <= i < 2 :: m[i] == a || m[i] == b
    ensures AnswerAt(r, m, 0) && AnswerAt(r, m, 1)
  {
    OneOfTwo(r, m, 0, a, b);
    OneOfTwo(r, m, 1, a, b);
  }

  lemma {:induction false} OneOfTwo(r: Request, m: seq<PathSet>, i: nat, a: PathSet, b: PathSet)
    requires r.Valid() && i < |m| == |r.logical| && r.Bound(i) && TwoAnswers(TermsAt(r, i), a, b)
             && (m[i] == a || m[i] == b)
    ensures AnswerAt(r, m, i)
  {
  }

  lemma {:induction false} OnBothWays(a: PathSet, b: PathSet, d: nat, near: nat, far: nat, spare: seq<nat>)
    requires Ways(a, b, d, near, far) && forall x | 0 <= x < |spare| :: d <= spare[x]
    ensures Feasible([[a], [b]], spare, [0, 0])
  {
    TwoLevels([[a], [b]], 0, 0, 0);
    forall x | 0 <= x < |spare|
      ensures Committed([[a], [b]], [0, 0], x) <= spare[x]
    {
      TwoLevels([[a], [b]], 0, 0, x);
      WayAmounts(a, b, d, near, far, x);
    }
  }

  lemma {:induction false} NoneChosen(limits: PlannerLimits, o: Outcome)
    requires Plain(Crowded).Valid() && limits.maxSetAlternatives == 1 && o.Chosen?
    ensures !(o.optimal && FromRetained(Plain(Crowded), limits, o))
  {
    if o.optimal && FromRetained(Plain(Crowded), limits, o) {
      var plans, c :| Picked(Plain(Crowded), limits, plans, c, o);
      CapHidesFeasibility(limits, plans, c);
    }
  }

  /** A request with a mapping and distinct endpoints can only be refused as a whole. */
  lemma {:induction false} OnlyGlobalDenial(r: Request, limits: PlannerLimits, d: Denial, m: seq<PathSet>)
    requires r.Valid() && limits.maxSetAlternatives >= 1 && DenialTrue(r, limits, d) && d.kind != SearchLimitReached
    requires Mapping(r, m) && forall i | 0 <= i < |r.logical| :: r.Bound(i) && Honest(TermsAt(r, i))
    ensures d == Denial(None, ProvenInfeasible)
  {
  }

  lemma {:induction false} OnlyGlobalDenials(r: Request, limits: PlannerLimits, denials: seq<Denial>, m: seq<PathSet>)
    requires r.Valid() && limits.maxSetAlternatives >= 1 && DenialsTrue(r, limits, denials) && NoneGaveUp(denials)
    requires Mapping(r, m) && forall i | 0 <= i < |r.logical| :: r.Bound(i) && Honest(TermsAt(r, i))
    ensures forall i | 0 <= i < |denials| :: denials[i] == Denial(None, ProvenInfeasible)
  {
    forall i | 0 <= i < |denials|
      ensures denials[i] == Denial(None, ProvenInfeasible)
    {
      assert DenialTrue(r, limits, denials[i]);
      OnlyGlobalDenial(r, limits, denials[i], m);
    }
  }

  lemma {:induction false} TriangleHonest(direct: nat, detour: nat, near: nat, far: nat, demand: nat, i: nat)
    requires 0 < direct < 100 && 0 < detour < 100 && near < 100 && far < 100 && demand <= direct && demand <= detour
             && i < 2
    ensures var r := Plain(Triangle(direct, detour, near, far, demand));
            r.Valid() && |r.logical| == 2 && r.Bound(i) && Honest(TermsAt(r, i))
  {
    TriangleAsks(direct, detour, near, far, demand, i);
  }

  lemma {:induction false} CrowdedHonest()
    ensures var r := Plain(Crowded);
            r.Valid() && forall i | 0 <= i < |r.logical| :: r.Bound(i) && Honest(TermsAt(r, i))
  {
    TriangleHonest(5, 10, 1, 1, 5, 0);
    TriangleHonest(5, 10, 1, 1, 5, 1);
  }

  /** The planner refuses the request as proven infeasible, although it has a mapping. */
  method CapRefusesMappable(limits: PlannerLimits) returns (o: Outcome)
    requires Generous(Plain(Crowded), limits) && limits.maxSetAlternatives == 1
    ensures Plain(Crowded).Valid() && exists m :: Mapping(Plain(Crowded), m)
    ensures o.Refused? && o.denials != [] && forall i | 0 <= i < |o.denials| ::
            o.denials[i] == Denial(None, ProvenInfeasible)
  {
    var m := CrowdedIsMappable();
    o := PlanCollective(Plain(Crowded), limits);
    if o.Chosen? {
      NoneChosen(limits, o);
    }
    CrowdedHonest();
    OnlyGlobalDenials(Plain(Crowded), limits, o.denials, m);
  }

  // ----- headroom -----

  /** Two exchanges of 4 units over ways of equal cost; each alone leaves most on the direct edge. */
  const Even: Sketch := Triangle(10, 9, 2, 1, 4)

  /** The first alternative of a complete analysis is the best answer. */
  lemma {:induction false} BestInFront(r: Request, limits: PlannerLimits, plans: seq<EdgePlan>, l: nat, a: PathSet,
      b: PathSet)
    requires r.Valid() && AllPlanned(r, limits, plans) && AllTrue(FlagsOf(plans))
    requires l < |plans| && TwoAnswers(TermsAt(r, l), a, b) && PathSetLess(a, b)
    ensures |MenuOf(plans)[l]| > 0 && MenuOf(plans)[l][0] == a
  {
    assert PlanOk(r, limits, plans[l], l) && FlagsOf(plans)[l];
    assert plans[l].sets[0] in plans[l].sets;
  }

  /** The score of two levels, each with the named alternative. */
  lemma {:induction false} PairScore(menu: Menu, spare: seq<nat>, i: nat, j: nat, left: seq<nat>)
    requires |menu| == 2 && i < |menu[0]| && j < |menu[1]| && MenuOk(menu, |spare|) && Feasible(menu, spare, [i, j])
    requires left == Left(menu, spare, [i, j]) && |left| == |spare|
    requires forall k | 0 <= k < |menu[0][i].usage| :: menu[0][i].usage[k].edge < |left|
    requires forall k | 0 <= k < |menu[1][j].usage| :: menu[1][j].usage[k].edge < |left|
    ensures var x, y, s := menu[0][i], menu[1][j], ScoreOf(menu, spare, [i, j]);
            && s.totalCost == SatAdd(SatAdd(0, x.totalCost), y.totalCost) && s.conflicts == x.conflicts + y.conflicts
            && s.maxPathCost == Max(x.maxPathCost, y.maxPathCost)
            && s.headroom == Min(Min(COST_CEILING, Slack(x.usage, left)), Slack(y.usage, left))
  {
    TwoLevels(menu, i, j, 0);
    assert [i, j][..1] == [i] && [i][..0] == [];
    assert Tally(menu, []) == Score(0, 0, 0, COST_CEILING) && SlackAll(menu, [], left) == COST_CEILING;
    assert Tally(menu, [i]).totalCost == SatAdd(0, menu[0][i].totalCost);
    assert SlackAll(menu, [i], left) == Min(COST_CEILING, Slack(menu[0][i].usage, left));
  }

  lemma {:induction false} WaySlack(a: PathSet, b: PathSet, d: nat, near: nat, far: nat, left: seq<nat>)
    requires Ways(a, b, d, near, far) && |left| == 3 && left[0] <= COST_CEILING && left[1] <= COST_CEILING
    ensures Slack(a.usage, left) == left[0] && Slack(b.usage, left) == Min(left[1], left[2])
  {
    assert a.usage[..0] == [] && b.usage[..1] == [Use(1, d)] && [Use(1, d)][..0] == [];
    assert Slack([], left) == COST_CEILING && Slack([Use(1, d)], left) == left[1];
  }

  /** Both exchanges on the direct edge leave 2 units there. */
  lemma {:induction false} FrontsScore(menu: Menu, a: PathSet, b: PathSet)
    requires Ways(a, b, 4, 2, 1) && |menu| == 2 && |menu[0]| > 0 && |menu[1]| > 0 && menu[0][0] == menu[1][0] == a
    requires MenuOk(menu, 3)
    ensures Feasible(menu, [10, 9, 9], [0, 0]) && ScoreOf(menu, [10, 9, 9], [0, 0]) == Score(4, 0, 2, 2)
  {
    var spare := [10, 9, 9];
    TwoLevels(menu, 0, 0, 0);
    forall x | 0 <= x < 3
      ensures Committed(menu, [0, 0], x) == if x == 0 then 8 else 0
    {
      TwoLevels(menu, 0, 0, x);
      WayAmounts(a, b, 4, 2, 1, x);
    }
    var left := Left(menu, spare, [0, 0]);
    assert left == [2, 9, 9];
    WaySlack(a, b, 4, 2, 1, left);
    PairScore(menu, spare, 0, 0, left);
  }

  /** One exchange on each way leaves 6 and 5. */
  lemma {:induction false} BothScore(a: PathSet, b: PathSet)
    requires Ways(a, b, 4, 2, 1) && MenuOk([[a], [b]], 3)
    ensures Feasible([[a], [b]], [10, 9, 9], [0, 0]) && ScoreOf([[a], [b]], [10, 9, 9], [0, 0]) == Score(4, 0, 2, 5)
  {
    var menu, spare := [[a], [b]], [10, 9, 9];
    TwoLevels(menu, 0, 0, 0);
    forall x | 0 <= x < 3
      ensures Committed(menu, [0, 0], x) == 4
    {
      TwoLevels(menu, 0, 0, x);
      WayAmounts(a, b, 4, 2, 1, x);
    }
    var left := Left(menu, spare, [0, 0]);
    assert left == [6, 5, 5];
    WaySlack(a, b, 4, 2, 1, left);
    PairScore(menu, spare, 0, 0, left);
  }

  /** The full score of a mapping, remaining headroom included. */
  ghost predicate ScoredAs(r: Request, m: seq<PathSet>, score: Score)
    requires r.Valid()
  {
    Mapping(r, m) && MenuOk(Single(m), |SpareOf(r)|) && score == ScoreOf(Single(m), SpareOf(r), Fronts(|m|))
  }

  /** Splitting the exchanges scores better than any complete analysis with its fronts, which fit together. */
  lemma {:induction false} HeadroomIsNotSeparable(limits: PlannerLimits, plans: seq<EdgePlan>) returns (m: seq<PathSet>)
    requires Plain(Even).Valid() && AllPlanned(Plain(Even), limits, plans) && AllTrue(FlagsOf(plans))
    ensures var menu, spare := MenuOf(plans), SpareOf(Plain(Even));
            && MenuOk(menu, |spare|) && FrontsBest(menu) && Feasible(menu, spare, Fronts(2))
            && ScoreOf(menu, spare, Fronts(2)) == Score(4, 0, 2, 2)
    ensures ScoredAs(Plain(Even), m, Score(4, 0, 2, 5))
  {
    var r := Plain(Even);
    var a, b := TriangleFork(10, 9, 2, 1, 4);
    m := [a, b];
    BestScore(r, limits, plans, a, b);
    ForkMapping(r, a, b, 4, 2, 1);
    SplitScore(r, a, b);
  }

  lemma {:induction false} BestScore(r: Request, limits: PlannerLimits, plans: seq<EdgePlan>, a: PathSet, b: PathSet)
    requires Fork(r, a, b, 4, 2, 1) && PathSetLess(a, b) && SpareOf(r) == [10, 9, 9]
    requires AllPlanned(r, limits, plans) && AllTrue(FlagsOf(plans))
    ensures var menu := MenuOf(plans);
            && MenuOk(menu, 3) && FrontsBest(menu) && Feasible(menu, [10, 9, 9], Fronts(2))
            && ScoreOf(menu, [10, 9, 9], Fronts(2)) == Score(4, 0, 2, 2)
  {
    MenuIsOk(r, limits, plans);
    BestInFront(r, limits, plans, 0, a, b);
    BestInFront(r, limits, plans, 1, a, b);
    FrontsScore(MenuOf(plans), a, b);
    assert Fronts(2) == [0, 0];
  }

  lemma {:induction false} SplitScore(r: Request, a: PathSet, b: PathSet)
    requires r.Valid() && Mapping(r, [a, b]) && Ways(a, b, 4, 2, 1) && SpareOf(r) == [10, 9, 9]
    ensures ScoredAs(r, [a, b], Score(4, 0, 2, 5))
  {
    BothScore(a, b);
    assert Single([a, b]) == [[a], [b]] && Fronts(2) == [0, 0];
  }

  /** The planner calls its result optimal although another mapping leaves more headroom at the same cost. */
  method HeadroomLost(limits: PlannerLimits) returns (o: Outcome)
    requires Generous(Plain(Even), limits) && limits.maxSetAlternatives >= 2
    ensures Plain(Even).Valid() && o.Chosen? && o.optimal && o.score == Score(4, 0, 2, 2)
    ensures exists m :: ScoredAs(Plain(Even), m, Score(4, 0, 2, 5))
    ensures Better(Score(4, 0, 2, 5), o.score)
  {
    EvenIsDecidable(limits);
    o := PlanCollective(Plain(Even), limits);
    EvenIsChosen(limits, o);
  }

  lemma {:induction false} EvenIsChosen(limits: PlannerLimits, o: Outcome)
    requires Plain(Even).Valid() && o.Chosen? && o.optimal && FromRetained(Plain(Even), limits, o)
    ensures o.score == Score(4, 0, 2, 2) && exists m :: ScoredAs(Plain(Even), m, Score(4, 0, 2, 5))
  {
    var plans, c :| Picked(Plain(Even), limits, plans, c, o);
    var m := HeadroomIsNotSeparable(limits, plans);
  }

  lemma {:induction false} AtMostTwo<T>(list: seq<T>, a: T, b: T)
    requires Injective(list) && forall i | 0 <= i < |list| :: list[i] == a || list[i] == b
    ensures |list| <= 2
  {
    var which: seq<nat> := seq(|list|, i requires 0 <= i < |list| => if list[i] == a then 0 else 1);
    DistinctBelow(which, 2);
  }

  lemma {:induction false} TwoAreFew(t: Terms, a: PathSet, b: PathSet, cap: nat)
    requires TwoAnswers(t, a, b) && cap >= 2
    ensures FewAnswers(t, cap)
  {
    forall list | Injective<PathSet>(list) && (forall s | s in list :: IsAnswer(t, s))
      ensures |list| <= cap
    {
      assert forall i | 0 <= i < |list| :: list[i] in list;
      AtMostTwo(list, a, b);
    }
  }

  lemma {:induction false} EvenIsDecidable(limits: PlannerLimits)
    requires Generous(Plain(Even), limits) && limits.maxSetAlternatives >= 2
    ensures Plain(Even).Valid() && Decidable(Plain(Even), limits) && exists m :: Mapping(Plain(Even), m)
  {
    var m := EvenIsMappable();
    EvenDropsNothing(limits);
    EvenHonest();
  }

  lemma {:induction false} EvenIsMappable() returns (m: seq<PathSet>)
    ensures Plain(Even).Valid() && Mapping(Plain(Even), m)
  {
    var a, b := TriangleFork(10, 9, 2, 1, 4);
    ForkMapping(Plain(Even), a, b, 4, 2, 1);
    m := [a, b];
  }

  lemma {:induction false} EvenDropsNothing(limits: PlannerLimits)
    requires limits.maxSetAlternatives >= 2
    ensures Plain(Even).Valid() && NothingDropped(Plain(Even), limits)
  {
    var a, b := TriangleFork(10, 9, 2, 1, 4);
    ForkDropsNothing(Plain(Even), limits, a, b, 4, 2, 1);
  }

  lemma {:induction false} EvenHonest()
    ensures var r := Plain(Even);
            r.Valid() && forall i | 0 <= i < |r.logical| :: r.Bound(i) && Honest(TermsAt(r, i))
  {
    TriangleHonest(10, 9, 2, 1, 4, 0);
    TriangleHonest(10, 9, 2, 1, 4, 1);
  }

  lemma {:induction false} TwoAreFewAt(r: Request, limits: PlannerLimits, i: nat, a: PathSet, b: PathSet)
    requires r.Valid() && i < |r.logical| && r.Bound(i) && TwoAnswers(TermsAt(r, i), a, b)
             && limits.maxSetAlternatives >= 2
    ensures FewAt(r, limits, i)
  {
    TwoAreFew(TermsAt(r, i), a, b, limits.maxSetAlternatives);
  }

  lemma {:induction false} ForkDropsNothing(r: Request, limits: PlannerLimits, a: PathSet, b: PathSet, d: nat,
      near: nat, far: nat)
    requires Fork(r, a, b, d, near, far) && limits.maxSetAlternatives >= 2
    ensures NothingDropped(r, limits)
  {
    TwoAreFewAt(r, limits, 0, a, b);
    TwoAreFewAt(r, limits, 1, a, b);
    forall i | 0 <= i < |r.logical|
      ensures FewAt(r, limits, i)
    {
      assert i == 0 || i == 1;
    }
  }
}
