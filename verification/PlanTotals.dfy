/** The totals of an assembled plan: what its paths commit on each edge is what the global assignment accounted for. */
module PlanTotals {
  import opened Saturating
  import opened Paths
  import opened Candidates
  import opened PathSets
  import opened Families
  import opened Requests
  import opened GlobalAssignment
  import opened SolveGlobal
  import opened Planner
  import opened PlanChecker
  import opened PlanAssembly

  ghost predicate Known(r: Request, p: Path) {
    forall i | 0 <= i < |p| :: p[i] < |r.fabric.edges|
  }

  ghost predicate AllKnown(r: Request, cs: seq<Candidate>) {
    forall m {:trigger cs[m]} | 0 <= m < |cs| :: Known(r, cs[m].edges)
  }

  /** The paths emitted for logical edge l, numbered from first + 1. */
  ghost function AnswerPaths(r: Request, l: nat, cs: seq<Candidate>, first: nat): seq<PathPlan>
    requires l < |r.logical| == |r.stage| && AllKnown(r, cs)
  {
    seq(|cs|, m requires 0 <= m < |cs| => MakePath(r, l, cs[m], first + m + 1))
  }

  ghost predicate Ready(r: Request, a: seq<PathSet>) {
    && r.Valid() && |a| == |r.logical|
    && forall l {:trigger a[l]} | 0 <= l < |a| :: r.Bound(l) && |a[l].paths| == Wanted(r) && AllKnown(r, a[l].paths)
  }

  /** The paths emitted for the first n logical edges. */
  ghost function PlanPaths(r: Request, a: seq<PathSet>, n: nat): seq<PathPlan>
    requires Ready(r, a) && n <= |a|
  {
    if n == 0 then []
    else
      var before := PlanPaths(r, a, n - 1);
      before + AnswerPaths(r, n - 1, a[n - 1].paths, |before|)
  }

  ghost predicate Link(r: Request, a: seq<PathSet>, chain: seq<seq<PathPlan>>, l: nat)
    requires Ready(r, a) && l < |a| && |chain| == |a| + 1
  {
    chain[l + 1] == chain[l] + AnswerPaths(r, l, a[l].paths, |chain[l]|)
  }

  /** The paths emitted so far, before and after each logical edge. */
  ghost predicate Chained(r: Request, a: seq<PathSet>, chain: seq<seq<PathPlan>>) {
    && Ready(r, a) && |chain| == |a| + 1 && chain[0] == []
    && forall l {:trigger Link(r, a, chain, l)} | 0 <= l < |a| :: Link(r, a, chain, l)
  }

  lemma {:induction false} PlanChain(r: Request, a: seq<PathSet>) returns (chain: seq<seq<PathPlan>>)
    requires Ready(r, a)
    ensures Chained(r, a, chain) && chain[|a|] == PlanPaths(r, a, |a|)
  {
    chain := seq(|a| + 1, n requires 0 <= n <= |a| => PlanPaths(r, a, n));
    forall l | 0 <= l < |a|
      ensures Link(r, a, chain, l)
    {
      assert chain[l + 1] == PlanPaths(r, a, l + 1);
    }
  }

  lemma AnswerKnown(r: Request, a: seq<PathSet>, l: nat)
    requires r.Valid() && l < |a| == |r.logical| && AnswerAt(r, a, l)
    ensures TermsAt(r, l).Valid() && IsAnswer(TermsAt(r, l), a[l])
    ensures |a[l].paths| == Wanted(r) && AllKnown(r, a[l].paths)
  {
    TermsAtValid(r, l);
  }

  lemma MappingReady(r: Request, a: seq<PathSet>)
    requires r.Valid() && Mapping(r, a)
    ensures Ready(r, a)
  {
    forall l | 0 <= l < |a|
      ensures r.Bound(l) && |a[l].paths| == Wanted(r) && AllKnown(r, a[l].paths)
    {
      assert AnswerAt(r, a, l);
      AnswerKnown(r, a, l);
    }
  }

  // ----- allocations -----

  lemma {:induction false} PathAllocationIsLoad(r: Request, t: Terms, start: nat, p: Path, x: nat)
    requires Known(r, p) && start <= COST_CEILING && x < |t.capacity| && t.capacity[x] > 0
    ensures PathAllocation(start, HopsOf(r, p), t.demand, x) == Min(start + PathLoad(t, p, x), COST_CEILING)
    decreases |p|
  {
    if p != [] {
      var init := p[..|p| - 1];
      PathAllocationIsLoad(r, t, start, init, x);
      assert HopsOf(r, p)[..|p| - 1] == HopsOf(r, init);
      ClampAdd(start + PathLoad(t, init, x), t.demand);
    }
  }

  lemma AnswerPathsSnoc(r: Request, l: nat, before: seq<PathPlan>, cs: seq<Candidate>)
    requires l < |r.logical| == |r.stage| && AllKnown(r, cs) && cs != []
    ensures AllKnown(r, cs[..|cs| - 1])
    ensures var after := before + AnswerPaths(r, l, cs, |before|);
            && after[..|after| - 1] == before + AnswerPaths(r, l, cs[..|cs| - 1], |before|)
            && Known(r, cs[|cs| - 1].edges)
            && after[|after| - 1] == MakePath(r, l, cs[|cs| - 1], |after|)
  {
  }

  lemma {:induction false} AnswerAllocation(r: Request, t: Terms, l: nat, before: seq<PathPlan>, cs: seq<Candidate>,
      x: nat)
    requires l < |r.logical| == |r.stage| && AllKnown(r, cs) && x < |t.capacity| && t.capacity[x] > 0
    requires Allocation(before, t.demand, x) <= COST_CEILING
    ensures Allocation(before + AnswerPaths(r, l, cs, |before|), t.demand, x)
            == Min(Allocation(before, t.demand, x) + Load(t, cs, x), COST_CEILING)
    decreases |cs|
  {
    var after := before + AnswerPaths(r, l, cs, |before|);
    if cs == [] {
      assert after == before;
    } else {
      var init := cs[..|cs| - 1];
      AnswerAllocation(r, t, l, before, init, x);
      AnswerPathsSnoc(r, l, before, cs);
      assert Known(r, cs[|cs| - 1].edges);
      PathAllocationIsLoad(r, t, Allocation(after[..|after| - 1], t.demand, x), cs[|cs| - 1].edges, x);
    }
  }

  // The score and commitments of the first n answers, without the menu notation.

  ghost function Counted(a: seq<PathSet>, n: nat, x: nat): nat
    requires n <= |a|
  {
    if n == 0 then 0 else Counted(a, n - 1, x) + Amount(a[n - 1].usage, x)
  }

  ghost function CostOf(a: seq<PathSet>, n: nat): nat
    requires n <= |a|
  {
    if n == 0 then 0 else SatAdd(CostOf(a, n - 1), a[n - 1].totalCost)
  }

  ghost function LargestOf(a: seq<PathSet>, n: nat): nat
    requires n <= |a|
  {
    if n == 0 then 0 else Max(LargestOf(a, n - 1), a[n - 1].maxPathCost)
  }

  lemma {:induction false} SingleScore(a: seq<PathSet>, n: nat, x: nat)
    requires n <= |a|
    ensures InMenu(Single(a), Fronts(n)) && Committed(Single(a), Fronts(n), x) == Counted(a, n, x)
    ensures Tally(Single(a), Fronts(n)).totalCost == CostOf(a, n)
    ensures Tally(Single(a), Fronts(n)).maxPathCost == LargestOf(a, n)
  {
    if n > 0 {
      SingleScore(a, n - 1, x);
      assert Fronts(n)[..n - 1] == Fronts(n - 1);
    }
  }

  ghost predicate Answered(r: Request, a: seq<PathSet>)
    requires Ready(r, a)
  {
    forall l {:trigger AnswerAt(r, a, l)} | 0 <= l < |a| :: AnswerAt(r, a, l)
  }

  lemma {:induction false} AllocationOfPrefix(r: Request, a: seq<PathSet>, chain: seq<seq<PathPlan>>, n: nat, x: nat)
    requires Chained(r, a, chain) && Answered(r, a) && n <= |a| && x < |r.fabric.edges|
             && r.fabric.edges[x].capacity > 0
    ensures Allocation(chain[n], PerPathDemand(r), x) == Min(Counted(a, n, x), COST_CEILING)
  {
    if n > 0 {
      AllocationOfPrefix(r, a, chain, n - 1, x);
      AnswerLoad(r, a, chain, n - 1, x);
      ClampAdd(Counted(a, n - 1, x), Amount(a[n - 1].usage, x));
    }
  }

  /** The plan commits on each verified edge exactly what the assignment counted there. */
  lemma {:induction false} AllocationIsCommitted(r: Request, a: seq<PathSet>, x: nat)
    requires r.Valid() && Mapping(r, a) && Ready(r, a) && x < |r.fabric.edges| && r.fabric.edges[x].capacity > 0
    ensures Allocation(PlanPaths(r, a, |a|), PerPathDemand(r), x) == Counted(a, |a|, x) <= Spare(r.fabric.edges[x])
  {
    assert r.fabric.EdgeOk(r.fabric.edges[x]);
    CountedWithin(r, a, x);
    var chain := PlanChain(r, a);
    AllocationOfPrefix(r, a, chain, |a|, x);
  }

  lemma {:induction false} CountedWithin(r: Request, a: seq<PathSet>, x: nat)
    requires r.Valid() && Mapping(r, a) && x < |r.fabric.edges|
    ensures Counted(a, |a|, x) <= Spare(r.fabric.edges[x])
  {
    assert SpareOf(r)[x] == Spare(r.fabric.edges[x]);
    SingleScore(a, |a|, x);
  }

  lemma {:induction false} AnswerLoad(r: Request, a: seq<PathSet>, chain: seq<seq<PathPlan>>, l: nat, x: nat)
    requires Chained(r, a, chain) && Answered(r, a) && l < |a| && x < |r.fabric.edges| && r.fabric.edges[x].capacity > 0
    requires Allocation(chain[l], PerPathDemand(r), x) <= COST_CEILING
    ensures Allocation(chain[l + 1], PerPathDemand(r), x) ==
            SatAdd(Allocation(chain[l], PerPathDemand(r), x), Amount(a[l].usage, x))
  {
    assert AnswerAt(r, a, l) && Link(r, a, chain, l);
    AnswerKnown(r, a, l);
    TermsAtValid(r, l);
    AnswerLoadFor(r, TermsAt(r, l), a[l], l, chain[l], x);
  }

  lemma {:induction false} AnswerLoadFor(r: Request, t: Terms, s: PathSet, l: nat, before: seq<PathPlan>, x: nat)
    requires t.Valid() && t.demand <= COST_CEILING && IsAnswer(t, s)
    requires l < |r.logical| == |r.stage| && AllKnown(r, s.paths) && x < |t.capacity| && t.capacity[x] > 0
    requires Allocation(before, t.demand, x) <= COST_CEILING
    ensures Allocation(before + AnswerPaths(r, l, s.paths, |before|), t.demand, x)
            == SatAdd(Allocation(before, t.demand, x), Amount(s.usage, x))
  {
    BuiltFromOrdered(t, s.paths);
    UsageAmount(t, s.paths, x);
    AnswerAllocation(r, t, l, before, s.paths, x);
  }

  // ----- which edges carry an allocation -----

  lemma {:induction false} PathAllocationPositive(start: nat, hops: seq<Hop>, share: nat, e: nat)
    ensures PathAllocation(start, hops, share, e) > 0 <==>
            start > 0 || (share > 0 && exists i | 0 <= i < |hops| :: hops[i].edge == e)
    decreases |hops|
  {
    if hops != [] {
      var init := hops[..|hops| - 1];
      PathAllocationPositive(start, init, share, e);
      assert (exists i | 0 <= i < |hops| :: hops[i].edge == e)
        <==> (exists i | 0 <= i < |init| :: init[i].edge == e) || hops[|hops| - 1].edge == e by {
        if i :| 0 <= i < |init| && init[i].edge == e {
          assert hops[i].edge == e;
        }
        if i :| 0 <= i < |hops| && hops[i].edge == e && i < |init| {
          assert init[i].edge == e;
        }
      }
    }
  }

  /** An edge carries an allocation exactly when a path crosses it and shares are positive. */
  lemma {:induction false} AllocationPositive(paths: seq<PathPlan>, share: nat, e: nat)
    ensures Allocation(paths, share, e) > 0 <==> share > 0 && Touches(paths, e)
    decreases |paths|
  {
    if paths != [] {
      var init, last := paths[..|paths| - 1], paths[|paths| - 1];
      AllocationPositive(init, share, e);
      PathAllocationPositive(Allocation(init, share, e), last.hops, share, e);
      TouchesSnoc(init, last, e);
      assert init + [last] == paths;
    }
  }

  lemma TouchesSnoc(init: seq<PathPlan>, last: PathPlan, e: nat)
    ensures Touches(init + [last], e) <==> Touches(init, e) || exists i | 0 <= i < |last.hops| :: last.hops[i].edge == e
  {
    var paths := init + [last];
    if Touches(init, e) {
      var k, i :| 0 <= k < |init| && 0 <= i < |init[k].hops| && init[k].hops[i].edge == e;
      assert paths[k].hops[i].edge == e;
    }
    if i :| 0 <= i < |last.hops| && last.hops[i].edge == e {
      assert paths[|init|].hops[i].edge == e;
    }
  }

  lemma ShareSign(r: Request)
    ensures PerPathDemand(r) > 0 <==> r.demand > 0
  {
    if r.demand > 0 {
      ShareAtLeastOne(r.demand, Wanted(r));
    }
  }

  lemma ShareAtLeastOne(d: nat, n: nat)
    requires d > 0 && n > 0
    ensures (d + n - 1) / n >= 1
  {
    var x := d + n - 1;
    assert x == x / n * n + x % n && x % n < n;
  }

  // ----- the allocation table -----

  /** The entries of the edges below n that carry an allocation. */
  ghost function Table(allocation: seq<nat>, n: nat): seq<Use>
    requires n <= |allocation|
  {
    if n == 0 then []
    else Table(allocation, n - 1) + (if allocation[n - 1] == 0 then [] else [Use(n - 1, allocation[n - 1])])
  }

  ghost predicate EntryOf(allocation: seq<nat>, n: nat, u: Use) {
    u.edge < n <= |allocation| && u.amount == allocation[u.edge] && u.amount > 0
  }

  lemma {:induction false} TableExact(allocation: seq<nat>, n: nat)
    requires n <= |allocation|
    ensures UsageOk(Table(allocation, n))
    ensures forall u {:trigger EntryOf(allocation, n, u)} :: u in Table(allocation, n) <==> EntryOf(allocation, n, u)
  {
    if n > 0 {
      TableExact(allocation, n - 1);
      var init := Table(allocation, n - 1);
      forall i | 0 <= i < |init|
        ensures init[i].edge < n - 1
      {
        assert init[i] in init && EntryOf(allocation, n - 1, init[i]);
      }
      forall u
        ensures u in Table(allocation, n) <==> EntryOf(allocation, n, u)
      {
        assert u in init <==> EntryOf(allocation, n - 1, u);
      }
    }
  }

  ghost function EdgesOf(table: seq<Use>): set<nat> {
    set i | 0 <= i < |table| :: table[i].edge
  }

  lemma {:induction false} EdgesOfSize(table: seq<Use>)
    requires UsageOk(table)
    ensures |EdgesOf(table)| == |table|
    decreases |table|
  {
    if table != [] {
      var init := table[..|table| - 1];
      EdgesOfSize(init);
      assert EdgesOf(table) == EdgesOf(init) + {table[|table| - 1].edge} by {
        forall i | 0 <= i < |init|
          ensures init[i].edge in EdgesOf(table)
        {
          assert table[i].edge in EdgesOf(table);
        }
      }
    }
  }

  lemma {:induction false} TableCoversTouched(r: Request, plan: Plan, allocation: seq<nat>)
    requires r.Valid() && |allocation| == |r.fabric.edges| && plan.allocations == Table(allocation, |allocation|)
    requires forall e | 0 <= e < |allocation| :: allocation[e] == Allocation(plan.paths, PerPathDemand(r), e)
    ensures EdgesOf(plan.allocations) == TouchedEdges(r, plan)
  {
    var table := plan.allocations;
    TableExact(allocation, |allocation|);
    ShareSign(r);
    forall e | e in EdgesOf(table)
      ensures e in TouchedEdges(r, plan)
    {
      var i :| 0 <= i < |table| && table[i].edge == e;
      assert table[i] in table && EntryOf(allocation, |allocation|, table[i]);
      AllocationPositive(plan.paths, PerPathDemand(r), e);
    }
    forall e | e in TouchedEdges(r, plan)
      ensures e in EdgesOf(table)
    {
      AllocationPositive(plan.paths, PerPathDemand(r), e);
      assert EntryOf(allocation, |allocation|, Use(e, allocation[e]));
      var i :| 0 <= i < |table| && table[i] == Use(e, allocation[e]);
      assert table[i].edge in EdgesOf(table);
    }
  }

  /** The recomputed allocations agree with the table and stay within every edge's spare capacity. */
  lemma {:induction false} AllocationsAreOk(r: Request, a: seq<PathSet>, plan: Plan, allocation: seq<nat>)
    requires r.Valid() && Mapping(r, a) && Ready(r, a) && plan.paths == PlanPaths(r, a, |a|)
    requires |allocation| == |r.fabric.edges| && plan.allocations == Table(allocation, |allocation|)
    requires forall e | 0 <= e < |allocation| :: allocation[e] == Allocation(plan.paths, PerPathDemand(r), e)
    ensures AllocationsOk(r, plan)
  {
    TableExact(allocation, |allocation|);
    TableCoversTouched(r, plan, allocation);
    EdgesOfSize(plan.allocations);
    forall i | 0 <= i < |plan.allocations|
      ensures EntryOk(r, plan, plan.allocations[i])
    {
      assert plan.allocations[i] in plan.allocations && EntryOf(allocation, |allocation|, plan.allocations[i]);
      assert plan.allocations[i].edge in EdgesOf(plan.allocations);
      EntryIsOk(r, a, plan, plan.allocations[i]);
    }
  }

  ghost predicate EntryOk(r: Request, plan: Plan, u: Use)
    requires r.Valid()
  {
    && u.edge in TouchedEdges(r, plan) && u.amount == Allocation(plan.paths, PerPathDemand(r), u.edge)
    && (r.fabric.edges[u.edge].capacity > 0 ==>
         u.amount <= r.fabric.edges[u.edge].capacity - r.fabric.edges[u.edge].reserved)
  }

  lemma {:induction false} EntryIsOk(r: Request, a: seq<PathSet>, plan: Plan, u: Use)
    requires r.Valid() && Mapping(r, a) && Ready(r, a) && plan.paths == PlanPaths(r, a, |a|)
    requires u.edge in TouchedEdges(r, plan) && u.amount == Allocation(plan.paths, PerPathDemand(r), u.edge)
    ensures EntryOk(r, plan, u)
  {
    assert r.fabric.EdgeOk(r.fabric.edges[u.edge]);
    if r.fabric.edges[u.edge].capacity > 0 {
      AllocationIsCommitted(r, a, u.edge);
    }
  }

  // ----- costs -----

  lemma {:induction false} AnswerCosts(r: Request, l: nat, before: seq<PathPlan>, cs: seq<Candidate>)
    requires l < |r.logical| == |r.stage| && AllKnown(r, cs) && CostSum(before) <= COST_CEILING
    ensures TotalCost(cs) <= COST_CEILING
    ensures CostSum(before + AnswerPaths(r, l, cs, |before|)) == SatAdd(CostSum(before), TotalCost(cs))
    ensures CostMax(before + AnswerPaths(r, l, cs, |before|)) == Max(CostMax(before), LargestCost(cs))
    decreases |cs|
  {
    if cs == [] {
      assert before + AnswerPaths(r, l, cs, |before|) == before;
    } else {
      AnswerPathsSnoc(r, l, before, cs);
      AnswerCosts(r, l, before, cs[..|cs| - 1]);
    }
  }

  /** Each answer records the costs of its paths. */
  ghost predicate Priced(a: seq<PathSet>) {
    forall l | 0 <= l < |a| :: a[l].totalCost == TotalCost(a[l].paths) && a[l].maxPathCost == LargestCost(a[l].paths)
  }

  lemma {:induction false} CostsOfPrefix(r: Request, a: seq<PathSet>, chain: seq<seq<PathPlan>>, n: nat)
    requires Chained(r, a, chain) && Priced(a) && n <= |a|
    ensures CostSum(chain[n]) == CostOf(a, n) <= COST_CEILING && CostMax(chain[n]) == LargestOf(a, n)
  {
    if n > 0 {
      CostsOfPrefix(r, a, chain, n - 1);
      assert Link(r, a, chain, n - 1);
      AnswerCosts(r, n - 1, chain[n - 1], a[n - 1].paths);
    }
  }

  /** The plan's own cost figures are the score the assignment was chosen by. */
  lemma {:induction false} CostsAreScore(r: Request, a: seq<PathSet>)
    requires r.Valid() && Mapping(r, a) && Ready(r, a)
    ensures CostSum(PlanPaths(r, a, |a|)) == MappingScore(a).totalCost
    ensures CostMax(PlanPaths(r, a, |a|)) == MappingScore(a).maxPathCost
  {
    forall l | 0 <= l < |a|
      ensures a[l].totalCost == TotalCost(a[l].paths) && a[l].maxPathCost == LargestCost(a[l].paths)
    {
      assert AnswerAt(r, a, l);
      AnswerKnown(r, a, l);
      BuiltFromOrdered(TermsAt(r, l), a[l].paths);
    }
    var chain := PlanChain(r, a);
    CostsOfPrefix(r, a, chain, |a|);
    SingleScore(a, |a|, 0);
  }
}
