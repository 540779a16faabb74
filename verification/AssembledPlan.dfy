/** Every plan the planner assembles passes its own checker (src/planner.cpp:1915-1999, src/plan.cpp:405-732). */
module AssembledPlan {
  import opened Saturating
  import opened Paths
  import opened Candidates
  import opened PathSets
  import opened Families
  import opened Requests
  import opened Planner
  import opened PlanChecker
  import opened PlanAssembly
  import opened PlanTotals

  // ----- where a path of the plan comes from -----

  /** Position of the first path of logical edge l when each has w paths. */
  ghost function First(w: nat, l: nat): nat {
    if l == 0 then 0 else First(w, l - 1) + w
  }

  lemma {:induction false} FirstsApart(w: nat, l: nat, l': nat)
    requires l < l'
    ensures First(w, l) + w <= First(w, l')
  {
    if l + 1 < l' {
      FirstsApart(w, l, l' - 1);
    }
  }

  /** Path k of the plan is candidate m of logical edge l. */
  ghost predicate Origin(r: Request, a: seq<PathSet>, n: nat, k: nat, l: nat, m: nat)
    requires Ready(r, a) && n <= |a| && k < |PlanPaths(r, a, n)|
  {
    l < n && m < Wanted(r) && k == First(Wanted(r), l) + m
        && PlanPaths(r, a, n)[k] == MakePath(r, l, a[l].paths[m], k + 1)
  }

  lemma {:induction false} PathCount(r: Request, a: seq<PathSet>, n: nat)
    requires Ready(r, a) && n <= |a|
    ensures |PlanPaths(r, a, n)| == First(Wanted(r), n)
  {
    if n > 0 {
      PathCount(r, a, n - 1);
    }
  }

  lemma {:induction false} FindOrigin(r: Request, a: seq<PathSet>, n: nat, k: nat) returns (l: nat, m: nat)
    requires Ready(r, a) && n <= |a| && k < |PlanPaths(r, a, n)|
    ensures Origin(r, a, n, k, l, m)
    decreases n
  {
    PathCount(r, a, n - 1);
    if k < First(Wanted(r), n - 1) {
      l, m := FindOrigin(r, a, n - 1, k);
    } else {
      l, m := n - 1, k - First(Wanted(r), n - 1);
    }
  }

  /** A position determines its logical edge and its place among the siblings. */
  lemma {:induction false} SameEdge(w: nat, l: nat, m: nat, l': nat, m': nat)
    requires m < w && m' < w && First(w, l) + m == First(w, l') + m'
    ensures l == l' && m == m'
  {
    if l < l' {
      FirstsApart(w, l, l');
    } else if l' < l {
      FirstsApart(w, l', l);
    }
  }

  lemma {:induction false} PositionIn(r: Request, a: seq<PathSet>, l: nat, m: nat)
    requires Ready(r, a) && l < |a| && m < Wanted(r)
    ensures First(Wanted(r), l) + m < |PlanPaths(r, a, |a|)|
    ensures PlanPaths(r, a, |a|)[First(Wanted(r), l) + m].logical == l + 1
  {
    PathCount(r, a, |a|);
    FirstsApart(Wanted(r), l, |a|);
    var l', m' := FindOrigin(r, a, |a|, First(Wanted(r), l) + m);
    SameEdge(Wanted(r), l, m, l', m');
  }

  // ----- siblings -----

  ghost function Block(first: nat, count: nat): set<nat> {
    if count == 0 then {} else Block(first, count - 1) + {first + count - 1}
  }

  lemma {:induction false} BlockExact(first: nat, count: nat)
    ensures |Block(first, count)| == count
    ensures forall k :: k in Block(first, count) <==> first <= k < first + count
  {
    if count > 0 {
      BlockExact(first, count - 1);
    }
  }

  /** The paths of logical edge l are the w consecutive ones that start at `first`. */
  lemma {:induction false} SiblingsAreBlock(r: Request, a: seq<PathSet>, plan: Plan, l: nat, first: nat)
    requires Ready(r, a) && plan.paths == PlanPaths(r, a, |a|) && l < |a| && first == First(Wanted(r), l)
    ensures SiblingsOf(plan, l + 1) == Block(first, Wanted(r))
  {
    var block := Block(first, Wanted(r));
    BlockExact(first, Wanted(r));
    forall k | k in block
      ensures k in SiblingsOf(plan, l + 1)
    {
      PositionIn(r, a, l, k - first);
    }
    forall k | k in SiblingsOf(plan, l + 1)
      ensures k in block
    {
      var l', m := FindOrigin(r, a, |a|, k);
    }
  }

  /** Every logical edge has exactly the requested number of paths. */
  lemma {:induction false} SiblingCount(r: Request, a: seq<PathSet>, plan: Plan, l: nat)
    requires Ready(r, a) && plan.paths == PlanPaths(r, a, |a|) && l < |a|
    ensures |SiblingsOf(plan, l + 1)| == Wanted(r)
  {
    SiblingsAreBlock(r, a, plan, l, First(Wanted(r), l));
    BlockExact(First(Wanted(r), l), Wanted(r));
  }

  lemma GoodMember(r: Request, a: seq<PathSet>, l: nat, m: nat)
    requires r.Valid() && l < |a| == |r.logical| && AnswerAt(r, a, l) && m < |a[l].paths|
    ensures TermsAt(r, l).Valid() && Good(TermsAt(r, l), a[l].paths[m])
  {
    AnswerKnown(r, a, l);
  }

  lemma {:induction false} EveryPathOk(r: Request, a: seq<PathSet>, plan: Plan, k: nat)
    requires r.Valid() && Mapping(r, a) && Ready(r, a) && plan.paths == PlanPaths(r, a, |a|) && k < |plan.paths|
    ensures PathOk(r, plan, plan.paths[k])
  {
    var l, m := FindOrigin(r, a, |a|, k);
    assert AnswerAt(r, a, l);
    GoodMember(r, a, l, m);
    PathIsOk(r, l, plan, a[l].paths[m], k + 1);
  }

  lemma {:induction false} EverySiblingOk(r: Request, a: seq<PathSet>, plan: Plan, j: nat, k: nat)
    requires r.Valid() && Mapping(r, a) && Ready(r, a) && plan.paths == PlanPaths(r, a, |a|)
    requires j < k < |plan.paths| && plan.paths[j].logical == plan.paths[k].logical
    ensures SiblingsOk(r, plan.paths[j], plan.paths[k])
  {
    var l, m, m' := SiblingOrigins(r, a, j, k);
    assert AnswerAt(r, a, l);
    MembersPass(r, a, l, m, m', j + 1, k + 1);
  }

  lemma SiblingOrigins(r: Request, a: seq<PathSet>, j: nat, k: nat) returns (l: nat, m: nat, m': nat)
    requires Ready(r, a) && j < k < |PlanPaths(r, a, |a|)|
    requires PlanPaths(r, a, |a|)[j].logical == PlanPaths(r, a, |a|)[k].logical
    ensures l < |a| && m < m' < |a[l].paths| && AllKnown(r, a[l].paths)
    ensures PlanPaths(r, a, |a|)[j] == MakePath(r, l, a[l].paths[m], j + 1)
    ensures PlanPaths(r, a, |a|)[k] == MakePath(r, l, a[l].paths[m'], k + 1)
  {
    l, m := FindOrigin(r, a, |a|, j);
    var l' := l;
    l', m' := FindOrigin(r, a, |a|, k);
  }

  lemma MembersPass(r: Request, a: seq<PathSet>, l: nat, m: nat, m': nat, id: nat, id': nat)
    requires r.Valid() && l < |a| == |r.logical| && AnswerAt(r, a, l) && m < m' < |a[l].paths|
             && AllKnown(r, a[l].paths)
    ensures SiblingsOk(r, MakePath(r, l, a[l].paths[m], id), MakePath(r, l, a[l].paths[m'], id'))
  {
    AnswerKnown(r, a, l);
    var c, c' := a[l].paths[m], a[l].paths[m'];
    GoodMember(r, a, l, m);
    GoodMember(r, a, l, m');
    MembersCompatible(TermsAt(r, l), a[l], m, m');
    SiblingsAreOk(r, l, c, c', id, id');
  }

  lemma MembersCompatible(t: Terms, s: PathSet, m: nat, m': nat)
    requires t.Valid() && IsAnswer(t, s) && m < m' < |s.paths|
    ensures t.q.InRange(s.paths[m].edges) && t.q.InRange(s.paths[m'].edges) && Compatible(t, s.paths[m], s.paths[m'])
  {
  }

  // ----- stages -----

  ghost function StagePaths(paths: seq<PathPlan>, s: nat): seq<nat> {
    if paths == [] then []
    else
      var last := paths[|paths| - 1];
      StagePaths(paths[..|paths| - 1], s) + if last.stage == s then [last.id] else []
  }

  /** One-based logical edge ids of the stage. */
  ghost function StageEdges(stage: seq<nat>, s: nat): seq<nat> {
    if stage == [] then []
    else StageEdges(stage[..|stage| - 1], s) + if stage[|stage| - 1] == s then [|stage|] else []
  }

  /** Paths are numbered in order of emission. */
  ghost predicate Numbered(paths: seq<PathPlan>) {
    forall k | 0 <= k < |paths| :: paths[k].id == k + 1
  }

  lemma {:induction false} StagePathsOk(paths: seq<PathPlan>, s: nat)
    requires Numbered(paths)
    ensures forall i | 0 <= i < |StagePaths(paths, s)| ::
              var id := StagePaths(paths, s)[i]; 1 <= id <= |paths| && paths[id - 1].stage == s
    decreases |paths|
  {
    if paths != [] {
      StagePathsOk(paths[..|paths| - 1], s);
    }
  }

  lemma {:induction false} StageEdgesOk(stage: seq<nat>, s: nat)
    ensures forall i | 0 <= i < |StageEdges(stage, s)| ::
              var id := StageEdges(stage, s)[i]; 1 <= id <= |stage| && stage[id - 1] == s
    decreases |stage|
  {
    if stage != [] {
      StageEdgesOk(stage[..|stage| - 1], s);
    }
  }

  ghost predicate StagesBuilt(stages: seq<Stage>, stage: seq<nat>, paths: seq<PathPlan>) {
    forall s | 0 <= s < |stages| :: stages[s] == Stage(s, StageEdges(stage, s), StagePaths(paths, s))
  }

  lemma StagesAreOk(r: Request, plan: Plan, s: nat)
    requires r.Valid() && Numbered(plan.paths) && StagesBuilt(plan.stages, r.stage, plan.paths)
    requires s < |plan.stages| == plan.stageCount
    ensures StageOk(r, plan, plan.stages[s])
  {
    StagePathsOk(plan.paths, s);
    StageEdgesOk(r.stage, s);
  }

  // ----- statistics -----

  /** A path with hops crosses an edge with a recorded spare capacity below the ceiling. */
  ghost predicate Bounded(paths: seq<PathPlan>) {
    forall k | 0 <= k < |paths| :: paths[k].hops != [] ==> paths[k].bottleneck < COST_CEILING
  }

  lemma {:induction false} BottleneckSeen(paths: seq<PathPlan>)
    requires Bounded(paths)
    ensures BottleneckMin(paths) == COST_CEILING <==> !Occupied(paths)
    ensures BottleneckMin(paths) <= COST_CEILING
    decreases |paths|
  {
    if paths != [] {
      var init := paths[..|paths| - 1];
      BottleneckSeen(init);
      if Occupied(init) {
        var k :| 0 <= k < |init| && init[k].hops != [];
        assert paths[k].hops != [];
      }
      if Occupied(paths) && paths[|paths| - 1].hops == [] {
        var k :| 0 <= k < |paths| && paths[k].hops != [];
        assert init[k].hops != [];
      }
    }
  }

  lemma CandidateBottleneck(t: Terms, c: Candidate)
    requires t.Valid() && Good(t, c) && c.edges != []
    ensures c.bottleneck < COST_CEILING
  {
  }

  lemma {:induction false} PlanBounded(r: Request, a: seq<PathSet>)
    requires r.Valid() && Mapping(r, a) && Ready(r, a)
    ensures Bounded(PlanPaths(r, a, |a|)) && Numbered(PlanPaths(r, a, |a|))
  {
    var paths := PlanPaths(r, a, |a|);
    forall k | 0 <= k < |paths|
      ensures paths[k].hops != [] ==> paths[k].bottleneck < COST_CEILING
      ensures paths[k].id == k + 1
    {
      var l, m := FindOrigin(r, a, |a|, k);
      assert AnswerAt(r, a, l);
      GoodMember(r, a, l, m);
      if a[l].paths[m].edges != [] {
        CandidateBottleneck(TermsAt(r, l), a[l].paths[m]);
      }
    }
  }

  // ----- the whole plan -----

  /** What the assembly loop leaves behind. */
  ghost predicate Assembled(r: Request, a: seq<PathSet>, plan: Plan, allocation: seq<nat>)
    requires Ready(r, a)
  {
    && plan.paths == PlanPaths(r, a, |a|)
    && plan.stageCount == |plan.stages| == r.stageCount && StagesBuilt(plan.stages, r.stage, plan.paths)
    && |allocation| == |r.fabric.edges| && plan.allocations == Table(allocation, |allocation|)
    && (forall e | 0 <= e < |allocation| :: allocation[e] == Allocation(plan.paths, PerPathDemand(r), e))
    && plan.totalCost == CostSum(plan.paths) && plan.maxPathCost == CostMax(plan.paths)
    && plan.hopCount == HopSum(plan.paths) && plan.logicalCount == |a|
    && plan.bottleneck == (if BottleneckMin(plan.paths) == COST_CEILING then 0 else BottleneckMin(plan.paths))
    && plan.weakest == WeakestMin(plan.paths)
  }

  lemma {:induction false} PathsPass(r: Request, a: seq<PathSet>, plan: Plan)
    requires r.Valid() && Mapping(r, a) && Ready(r, a) && plan.paths == PlanPaths(r, a, |a|)
    ensures PathsOk(r, plan)
  {
    PlanBounded(r, a);
    forall k | 0 <= k < |plan.paths|
      ensures PathOk(r, plan, plan.paths[k])
    {
      EveryPathOk(r, a, plan, k);
    }
  }

  lemma {:induction false} GroupsPass(r: Request, a: seq<PathSet>, plan: Plan)
    requires r.Valid() && Mapping(r, a) && Ready(r, a) && plan.paths == PlanPaths(r, a, |a|)
    ensures GroupsOk(r, plan)
  {
    forall j, k | 0 <= j < k < |plan.paths| && plan.paths[j].logical == plan.paths[k].logical
      ensures SiblingsOk(r, plan.paths[j], plan.paths[k])
    {
      EverySiblingOk(r, a, plan, j, k);
    }
    forall l | 1 <= l <= |r.logical|
      ensures |SiblingsOf(plan, l)| == r.policy.paths
    {
      SiblingCount(r, a, plan, l - 1);
    }
  }

  lemma StagesPass(r: Request, plan: Plan)
    requires r.Valid() && Numbered(plan.paths) && StagesBuilt(plan.stages, r.stage, plan.paths)
    requires |plan.stages| == plan.stageCount == r.stageCount
    ensures StagesOk(r, plan)
  {
    forall s | 0 <= s < |plan.stages|
      ensures StageOk(r, plan, plan.stages[s])
    {
      StagesAreOk(r, plan, s);
    }
  }

  /** An assembled mapping always passes the checker, so the planner's own refusal of it is never reached. */
  lemma AssembledIsValid(r: Request, a: seq<PathSet>, plan: Plan, allocation: seq<nat>)
    requires r.Valid() && Mapping(r, a) && Ready(r, a) && Assembled(r, a, plan, allocation)
    ensures ValidatePlan(r, plan)
  {
    PathsPass(r, a, plan);
    GroupsPass(r, a, plan);
    PlanBounded(r, a);
    StagesPass(r, plan);
    AllocationsAreOk(r, a, plan, allocation);
    BottleneckSeen(plan.paths);
  }
}
