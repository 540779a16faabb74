/** The emitted plan and the independent checker of src/plan.cpp:405-732. */
module PlanChecker {
  import opened Saturating
  import opened Candidates
  import opened Requests
  import opened PathSets

  datatype Hop = Hop(edge: nat, from: nat, to: nat)

  /** Path ids and logical edge ids are 1-based. */
  datatype PathPlan = PathPlan(id: nat, logical: nat, src: nat, dst: nat, stage: nat, hops: seq<Hop>, cost: nat,
                               bottleneck: nat, signature: set<nat>, weakest: nat)

  datatype Stage = Stage(index: nat, logical: seq<nat>, paths: seq<nat>)

  datatype Plan = Plan(stageCount: nat, stages: seq<Stage>, paths: seq<PathPlan>, allocations: seq<Use>, totalCost: nat,
                       maxPathCost: nat, hopCount: nat, logicalCount: nat, bottleneck: nat, weakest: nat)

  /** hops_are_simple (src/planner.cpp:1755-1781). */
  predicate HopsSimple(hops: seq<Hop>) {
    && (forall i, j | 0 <= i < j < |hops| :: hops[i].edge != hops[j].edge)
    && (forall i, j | 0 <= i < j < |hops| :: hops[i].to != hops[j].to)
    && (forall i | 0 <= i < |hops| :: hops[i].to != hops[0].from)
  }

  /** The checks on one hop (src/plan.cpp:499-541). */
  predicate HopOk(r: Request, from: Binding, to: Binding, h: Hop)
    requires r.Valid()
  {
    && h.edge < |r.fabric.edges|
    && (var e := r.fabric.edges[h.edge];
        assert r.fabric.EdgeOk(e);
        && e.from == h.from && e.to == h.to
        && h.from !in r.policy.forbiddenNodes && h.to !in r.policy.forbiddenNodes
        && !TierForbidden(r.policy, e.tier)
        && (r.policy.allowedTiers != {} ==> e.tier.Some? && e.tier.value in r.policy.allowedTiers)
        && !DomainForbidden(r.fabric, r.policy, e.domain)
        && EvidenceSatisfies(e.evidence, r.policy.evidence)
        && (e.capacity == 0 ==> r.policy.allowUnverified) && (e.capacity > 0 ==> e.reserved < e.capacity)
        && BindingAllows(r.fabric, from, e) && BindingAllows(r.fabric, to, e))
  }

  predicate Contiguous(hops: seq<Hop>, from: nat, to: nat) {
    && (hops == [] ==> from == to)
    && (hops != [] ==> hops[0].from == from && hops[|hops| - 1].to == to)
    && (forall i | 0 <= i < |hops| - 1 :: hops[i + 1].from == hops[i].to)
  }

  /** Declared domains of the hops at the diversity level, recomputed from the fabric. */
  function DomainsOf(r: Request, hops: seq<Hop>): seq<nat>
    requires r.Valid() && forall i | 0 <= i < |hops| :: hops[i].edge < |r.fabric.edges|
  {
    if hops == [] then []
    else
      var e := r.fabric.edges[hops[|hops| - 1].edge];
      assert r.fabric.EdgeOk(e);
      DomainsOf(r, hops[..|hops| - 1]) + (match LevelDomain(r, e) case None => [] case Some(d) => [d])
  }

  /** All checks on one path except those that compare it with its siblings (src/plan.cpp:441-568). */
  predicate PathOk(r: Request, plan: Plan, p: PathPlan)
    requires r.Valid()
  {
    && 1 <= p.id <= |plan.paths| && 1 <= p.logical <= |r.logical|
    && (var l := r.logical[p.logical - 1];
        && p.src == l.src && p.dst == l.dst && p.stage == r.stage[p.logical - 1]
        && l.src in r.bindings && l.dst in r.bindings
        && |p.hops| <= r.policy.maxHops && p.cost <= r.policy.maxPathCost && HopsSimple(p.hops)
        && Contiguous(p.hops, r.bindings[l.src].node, r.bindings[l.dst].node)
        && (forall i | 0 <= i < |p.hops| :: HopOk(r, r.bindings[l.src], r.bindings[l.dst], p.hops[i]))
        && p.signature == (if r.policy.diversity == Ignored then {}
           else set d | d in WithoutEndpoints(DomainsOf(r, p.hops))))
  }

  /** Checks between two siblings, the earlier one first (src/plan.cpp:569-574, 586-622). */
  predicate SiblingsOk(r: Request, a: PathPlan, b: PathPlan)
    requires r.Valid()
  {
    && (forall i | 0 <= i < |b.hops| :: b.hops[i].edge < |r.fabric.edges|)
    && (r.policy.diversity == Required && b.hops != [] ==> |DomainsOf(r, b.hops)| == |b.hops|)
    && (r.policy.disjointness != Shared ==>
          forall i, j | 0 <= i < |a.hops| && 0 <= j < |b.hops| :: a.hops[i].edge != b.hops[j].edge)
    && (r.policy.disjointness == NodeDisjoint ==>
          forall i, j | 0 <= i < |a.hops| - 1 && 0 <= j < |b.hops| - 1 :: a.hops[i].to != b.hops[j].to)
    && (r.policy.diversity == Required && a.hops != [] && b.hops != [] ==> a.signature !! b.signature)
  }

  function SiblingsOf(plan: Plan, logical: nat): set<nat> {
    set k: nat | k < |plan.paths| && plan.paths[k].logical == logical
  }

  predicate StageOk(r: Request, plan: Plan, s: Stage)
    requires r.Valid()
  {
    && s.index < plan.stageCount
    && (forall i | 0 <= i < |s.paths| ::
          1 <= s.paths[i] <= |plan.paths| && plan.paths[s.paths[i] - 1].id == s.paths[i]
          && plan.paths[s.paths[i] - 1].stage == s.index)
    && (forall i | 0 <= i < |s.logical| :: 1 <= s.logical[i] <= |r.logical| && r.stage[s.logical[i] - 1] == s.index)
  }

  // ----- recomputed totals -----

  /** Load one path places on an edge, saturating share by share. */
  function PathAllocation(start: nat, hops: seq<Hop>, share: nat, e: nat): nat {
    if hops == [] then start
    else
      var before := PathAllocation(start, hops[..|hops| - 1], share, e);
      if hops[|hops| - 1].edge == e then SatAdd(before, share) else before
  }

  function Allocation(paths: seq<PathPlan>, share: nat, e: nat): nat {
    if paths == [] then 0
    else PathAllocation(Allocation(paths[..|paths| - 1], share, e), paths[|paths| - 1].hops, share, e)
  }

  predicate Touches(paths: seq<PathPlan>, e: nat) {
    exists k, i | 0 <= k < |paths| && 0 <= i < |paths[k].hops| :: paths[k].hops[i].edge == e
  }

  /** The edges the recomputed allocation table has entries for. */
  function TouchedEdges(r: Request, plan: Plan): set<nat> {
    if r.demand == 0 then {} else set e: nat | e < |r.fabric.edges| && Touches(plan.paths, e)
  }

  predicate AllocationsOk(r: Request, plan: Plan)
    requires r.Valid()
  {
    && (forall i, j | 0 <= i < j < |plan.allocations| :: plan.allocations[i].edge != plan.allocations[j].edge)
    && |TouchedEdges(r, plan)| == |plan.allocations|
    && (forall i | 0 <= i < |plan.allocations| ::
          var a := plan.allocations[i];
          && a.edge in TouchedEdges(r, plan) && a.amount == Allocation(plan.paths, PerPathDemand(r), a.edge)
          && (r.fabric.edges[a.edge].capacity > 0 ==>
                a.amount <= r.fabric.edges[a.edge].capacity - r.fabric.edges[a.edge].reserved))
  }

  function CostSum(paths: seq<PathPlan>): nat {
    if paths == [] then 0 else SatAdd(CostSum(paths[..|paths| - 1]), paths[|paths| - 1].cost)
  }

  function CostMax(paths: seq<PathPlan>): nat {
    if paths == [] then 0 else Max(CostMax(paths[..|paths| - 1]), paths[|paths| - 1].cost)
  }

  function HopSum(paths: seq<PathPlan>): nat {
    if paths == [] then 0 else HopSum(paths[..|paths| - 1]) + |paths[|paths| - 1].hops|
  }

  /** Smallest bottleneck over the paths that have hops. */
  function BottleneckMin(paths: seq<PathPlan>): nat {
    if paths == [] then COST_CEILING
    else
      var before := BottleneckMin(paths[..|paths| - 1]);
      if paths[|paths| - 1].hops == [] then before else Min(before, paths[|paths| - 1].bottleneck)
  }

  predicate Occupied(paths: seq<PathPlan>) {
    exists k | 0 <= k < |paths| :: paths[k].hops != []
  }

  function WeakestMin(paths: seq<PathPlan>): nat {
    if paths == [] then MEASURED else Min(WeakestMin(paths[..|paths| - 1]), paths[|paths| - 1].weakest)
  }

  predicate StatsOk(r: Request, plan: Plan) {
    && plan.totalCost == CostSum(plan.paths) && plan.maxPathCost == CostMax(plan.paths)
    && plan.hopCount == HopSum(plan.paths) && plan.logicalCount == |r.logical|
    && plan.bottleneck == (if Occupied(plan.paths) then BottleneckMin(plan.paths) else 0)
    && plan.weakest == WeakestMin(plan.paths)
  }

  /** Every path on its own, and no path number used twice. */
  predicate PathsOk(r: Request, plan: Plan)
    requires r.Valid()
  {
    && (forall k | 0 <= k < |plan.paths| :: PathOk(r, plan, plan.paths[k]))
    && (forall j, k | 0 <= j < k < |plan.paths| :: plan.paths[j].id != plan.paths[k].id)
  }

  /** Every logical edge has its paths, and they keep the distance the policy asks for. */
  predicate GroupsOk(r: Request, plan: Plan)
    requires r.Valid()
  {
    && (forall l | 1 <= l <= |r.logical| :: |SiblingsOf(plan, l)| == r.policy.paths)
    && (forall j, k | 0 <= j < k < |plan.paths| && plan.paths[j].logical == plan.paths[k].logical ::
          SiblingsOk(r, plan.paths[j], plan.paths[k]))
  }

  predicate StagesOk(r: Request, plan: Plan)
    requires r.Valid()
  {
    && plan.stageCount == r.stageCount && |plan.stages| == plan.stageCount
    && (forall s | 0 <= s < |plan.stages| :: StageOk(r, plan, plan.stages[s]))
  }

  /** The whole checker. */
  predicate ValidatePlan(r: Request, plan: Plan)
    requires r.Valid()
  {
    PathsOk(r, plan) && GroupsOk(r, plan) && StagesOk(r, plan) && AllocationsOk(r, plan) && StatsOk(r, plan)
  }
}
