/** The loop that turns a chosen mapping into an emitted plan (src/planner.cpp:1915-1999). */
module Assembler {
  import opened Saturating
  import opened Paths
  import opened Candidates
  import opened PathSets
  import opened Requests
  import opened Planner
  import opened PlanChecker
  import opened PlanAssembly
  import opened PlanTotals
  import opened Routings
  import opened AssembledPlan
  import opened EdgeAnalysis
  import opened GlobalAssignment
  import opened SolveGlobal

  /** The plan under construction and its running totals. */
  class Draft {
    const allocation: array<nat>
    var paths: seq<PathPlan>
    var stages: seq<Stage>
    var totalCost: nat
    var maxPathCost: nat
    var bottleneck: nat
    var hopCount: nat
    var weakest: nat

    /** The running totals are those of the paths emitted so far. */
    ghost predicate Tallied()
      reads this
    {
      && totalCost == CostSum(paths) && maxPathCost == CostMax(paths) && hopCount == HopSum(paths)
      && bottleneck == BottleneckMin(paths) && weakest == WeakestMin(paths)
    }

    ghost predicate Charged(share: nat)
      reads this, allocation
    {
      forall e | 0 <= e < allocation.Length :: allocation[e] == Allocation(paths, share, e)
    }

    constructor (edges: nat, stageCount: nat)
      ensures fresh(allocation) && allocation.Length == edges && paths == [] && |stages| == stageCount
      ensures Tallied() && StagesBuilt(stages, [], []) && forall share :: Charged(share)
    {
      allocation := new nat[edges](_ => 0);
      paths := [];
      stages := seq(stageCount, s requires 0 <= s < stageCount => Stage(s, [], []));
      totalCost, maxPathCost, bottleneck, hopCount, weakest := 0, 0, COST_CEILING, 0, MEASURED;
    }

    /** Spells out the hops of a path and charges each edge its share. */
    method Route(r: Request, p: Path, share: nat) returns (hops: seq<Hop>)
      requires Known(r, p) && allocation.Length == |r.fabric.edges|
      modifies allocation
      ensures hops == HopsOf(r, p)
      ensures forall e | 0 <= e < allocation.Length ::
                allocation[e] == PathAllocation(old(allocation[e]), hops, share, e)
    {
      hops := [];
      for i := 0 to |p|
        invariant hops == HopsOf(r, p)[..i]
        invariant forall e | 0 <= e < allocation.Length ::
                  allocation[e] == PathAllocation(old(allocation[e]), hops, share, e)
      {
        ghost var before := hops;
        hops := hops + [Hop(p[i], r.fabric.edges[p[i]].from, r.fabric.edges[p[i]].to)];
        assert hops[..i] == before;
        allocation[p[i]] := SatAdd(allocation[p[i]], share);
      }
    }

    method Tally(entry: PathPlan)
      requires Tallied()
      modifies this
      ensures paths == old(paths) + [entry] && stages == old(stages) && Tallied()
    {
      assert (paths + [entry])[..|paths|] == paths;
      hopCount := hopCount + |entry.hops|;
      totalCost := SatAdd(totalCost, entry.cost);
      maxPathCost := Max(maxPathCost, entry.cost);
      if entry.hops != [] {
        bottleneck := Min(bottleneck, entry.bottleneck);
      }
      if entry.weakest < weakest {
        weakest := entry.weakest;
      }
      paths := paths + [entry];
    }

    method AddPath(r: Request, l: nat, c: Candidate, share: nat)
      requires l < |r.logical| == |r.stage| && Known(r, c.edges) && allocation.Length == |r.fabric.edges|
      requires r.stage[l] < |stages| && Tallied() && Charged(share) && StagesBuilt(stages, r.stage[..l + 1], paths)
      modifies this, allocation
      ensures paths == old(paths) + [MakePath(r, l, c, |old(paths)| + 1)] && |stages| == |old(stages)|
      ensures Tallied() && Charged(share) && StagesBuilt(stages, r.stage[..l + 1], paths)
    {
      var hops := Route(r, c.edges, share);
      var entry := PathPlan(|paths| + 1, l + 1, r.logical[l].src, r.logical[l].dst, r.stage[l], hops, c.cost,
                            c.bottleneck, c.signature, c.weakest);
      Tally(entry);
      assert paths[..|paths| - 1] == old(paths);
      var s := r.stage[l];
      stages := stages[s := stages[s].(paths := stages[s].paths + [entry.id])];
    }

    /** Notes the logical edge in its stage. */
    method OpenStage(r: Request, l: nat)
      requires l < |r.stage| && r.stage[l] < |stages| && StagesBuilt(stages, r.stage[..l], paths)
      modifies this`stages
      ensures |stages| == |old(stages)| && StagesBuilt(stages, r.stage[..l + 1], paths)
    {
      var s := r.stage[l];
      assert r.stage[..l + 1][..l] == r.stage[..l];
      stages := stages[s := stages[s].(logical := stages[s].logical + [l + 1])];
    }

    /** Emits the paths of one logical edge. */
    method AddAnswer(r: Request, l: nat, cs: seq<Candidate>, share: nat)
      requires l < |r.logical| == |r.stage| && AllKnown(r, cs) && allocation.Length == |r.fabric.edges|
      requires r.stage[l] < |stages| && Tallied() && Charged(share) && StagesBuilt(stages, r.stage[..l], paths)
      modifies this, allocation
      ensures paths == old(paths) + AnswerPaths(r, l, cs, |old(paths)|) && |stages| == |old(stages)|
      ensures Tallied() && Charged(share) && StagesBuilt(stages, r.stage[..l + 1], paths)
    {
      OpenStage(r, l);
      ghost var start, all := paths, AnswerPaths(r, l, cs, |paths|);
      for m := 0 to |cs|
        invariant paths == start + all[..m] && |stages| == |old(stages)|
        invariant Tallied() && Charged(share) && StagesBuilt(stages, r.stage[..l + 1], paths)
      {
        OneMore(start, all, m);
        AddPath(r, l, cs[m], share);
      }
    }
  }

  lemma OneMore<T>(start: seq<T>, all: seq<T>, m: nat)
    requires m < |all|
    ensures start + all[..m + 1] == (start + all[..m]) + [all[m]]
  {
  }

  /** Lists the edges that carry an allocation. */
  method AllocationTable(allocation: array<nat>) returns (table: seq<Use>)
    ensures table == Table(allocation[..], allocation.Length)
  {
    table := [];
    for e := 0 to allocation.Length
      invariant table == Table(allocation[..], e)
    {
      if allocation[e] != 0 {
        table := table + [Use(e, allocation[e])];
      }
    }
  }

  /** Emits the paths of every logical edge in order. */
  method EmitPaths(r: Request, a: seq<PathSet>, draft: Draft)
    requires Ready(r, a) && draft.allocation.Length == |r.fabric.edges| && |draft.stages| == r.stageCount
    requires draft.paths == [] && draft.Tallied() && draft.Charged(PerPathDemand(r))
             && StagesBuilt(draft.stages, [], [])
    modifies draft, draft.allocation
    ensures draft.paths == PlanPaths(r, a, |a|) && draft.Tallied() && draft.Charged(PerPathDemand(r))
    ensures |draft.stages| == r.stageCount && StagesBuilt(draft.stages, r.stage, draft.paths)
  {
    for l := 0 to |a|
      invariant draft.paths == PlanPaths(r, a, l) && draft.Tallied() && draft.Charged(PerPathDemand(r))
      invariant |draft.stages| == r.stageCount && StagesBuilt(draft.stages, r.stage[..l], draft.paths)
    {
      draft.AddAnswer(r, l, a[l].paths, PerPathDemand(r));
    }
    assert r.stage[..|a|] == r.stage;
  }

  /** Assembles the plan of a chosen mapping; the result always passes the checker. */
  method Assemble(r: Request, a: seq<PathSet>) returns (plan: Plan)
    requires r.Valid() && Mapping(r, a)
    ensures ValidatePlan(r, plan)
    ensures Ready(r, a) && plan.paths == PlanPaths(r, a, |a|)
  {
    MappingReady(r, a);
    var draft := new Draft(|r.fabric.edges|, r.stageCount);
    EmitPaths(r, a, draft);
    var table := AllocationTable(draft.allocation);
    plan := Plan(r.stageCount, draft.stages, draft.paths, table, draft.totalCost, draft.maxPathCost, draft.hopCount,
                 |a|, if draft.paths == [] || draft.bottleneck == COST_CEILING then 0
                     else draft.bottleneck, draft.weakest);
    AssembledIsValid(r, a, plan, draft.allocation[..]);
  }

  datatype Reply = Rejected(denials: seq<Denial>) | SelfCheckFailed | Emitted(plan: Plan, answers: seq<PathSet>,
      optimal: bool, fronts: bool)

  /**
    The whole of plan_collective. A plan is only emitted when it passes the checker, which it always does, and an
    `optimal` plan's own cost figures are unbeaten by any mapping of the request. With generous limits the planner
    decides: a plan is emitted exactly when the request has a mapping.
   */
  method PlanRequest(r: Request, limits: PlannerLimits) returns (reply: Reply)
    ensures !reply.SelfCheckFailed?
    ensures reply.Rejected? && r.Valid() ==> reply.denials != [] && DenialsTrue(r, limits, reply.denials)
    ensures reply.Emitted? ==> r.Valid() && ValidatePlan(r, reply.plan) && Mapping(r, reply.answers)
    ensures reply.Emitted? ==>
              Ready(r, reply.answers) && reply.plan.paths == PlanPaths(r, reply.answers, |reply.answers|)
    ensures reply.Emitted? ==> reply.plan.totalCost == MappingScore(reply.answers).totalCost
                               && reply.plan.maxPathCost == MappingScore(reply.answers).maxPathCost
    ensures reply.Emitted? && reply.optimal
            && (if reply.fronts then reply.plan.totalCost < COST_CEILING else NothingDropped(r, limits)) ==>
              Unbeaten(r, MappingScore(reply.answers))
    ensures reply.Emitted? && reply.optimal && NothingDropped(r, limits) && Modest(r) ==>
            Unbeaten(r, MappingScore(reply.answers))
    ensures r.Valid() && Generous(r, limits) ==> if reply.Emitted? then reply.optimal else NoneGaveUp(reply.denials)
    ensures r.Valid() && limits.collectAllDenials ==>
              forall i {:trigger Unserved(r, i)} | 0 <= i < |r.logical| && Unserved(r, i) ::
                reply.Rejected? && Names(reply.denials, i)
    ensures r.Valid() && Servable(r, limits) && reply.Rejected? ==>
              forall i | 0 <= i < |reply.denials| :: reply.denials[i].edge == None
    ensures r.Valid() && Servable(r, limits) && Uncontended(r) ==> reply.Emitted?
    ensures r.Valid() && Decidable(r, limits) ==> (reply.Emitted? <==> exists fams :: Routing(r, fams))
    ensures reply.Emitted? ==> Routing(r, PathsOfAll(reply.answers))
    ensures reply.Emitted? && reply.optimal && NothingDropped(r, limits) && Modest(r) ==>
              UnbeatenByRouting(r, MappingScore(reply.answers))
  {
    var o := PlanCollective(r, limits);
    if r.Valid() {
      MappableIffRoutable(r);
    }
    if o.Refused? {
      return Rejected(o.denials);
    }
    var plan := Assemble(r, o.answers);
    if !ValidatePlan(r, plan) {
      return SelfCheckFailed;
    }
    CostsAreScore(r, o.answers);
    reply := Emitted(plan, o.answers, o.optimal, o.fronts);
    ClaimOnRoutes(r, limits, o);
  }

  /** The outcome's claims carry over to routings. */
  lemma {:induction false} ClaimOnRoutes(r: Request, limits: PlannerLimits, o: Outcome)
    requires r.Valid() && o.Chosen? && Mapping(r, o.answers)
             && o.score.(headroom := COST_CEILING) == MappingScore(o.answers)
    ensures Routing(r, PathsOfAll(o.answers))
    ensures Unbeaten(r, o.score) ==>
              Unbeaten(r, MappingScore(o.answers)) && UnbeatenByRouting(r, MappingScore(o.answers))
  {
    MappingIsRouting(r, o.answers);
    SameUnbeaten(r, o.score, MappingScore(o.answers));
    if Unbeaten(r, o.score) {
      UnbeatenRoutes(r, MappingScore(o.answers));
    }
  }

  lemma SameUnbeaten(r: Request, s: Score, s': Score)
    requires r.Valid() && s.(headroom := COST_CEILING) == s'
    ensures Unbeaten(r, s) <==> Unbeaten(r, s')
  {
    forall a | Mapping(r, a)
      ensures NoWorse3(s, MappingScore(a)) <==> NoWorse3(s', MappingScore(a))
    {
    }
  }
}
