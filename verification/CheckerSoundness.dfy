/** What the checker guarantees of every plan it accepts, whoever made the plan (src/plan.cpp:405-732). */
module CheckerSoundness {
  import opened Saturating
  import opened Paths
  import opened Finite
  import opened Candidates
  import opened PathSets
  import opened Requests
  import opened Planner
  import opened PlanChecker
  import opened PlanAssembly

  // ----- capacity -----

  /** How often a path crosses edge e. */
  function Crossings(hops: seq<Hop>, e: nat): nat {
    if hops == [] then 0 else Crossings(hops[..|hops| - 1], e) + if hops[|hops| - 1].edge == e then 1 else 0
  }

  /** How often all paths together cross edge e. */
  function AllCrossings(paths: seq<PathPlan>, e: nat): nat {
    if paths == [] then 0 else AllCrossings(paths[..|paths| - 1], e) + Crossings(paths[|paths| - 1].hops, e)
  }

  lemma {:induction false} PathAllocationCounts(start: nat, units: nat, hops: seq<Hop>, share: nat, e: nat)
    requires start == Min(units, COST_CEILING) && share <= COST_CEILING
    ensures PathAllocation(start, hops, share, e) == Min(units + Crossings(hops, e) * share, COST_CEILING)
    decreases |hops|
  {
    if hops != [] {
      var init := hops[..|hops| - 1];
      PathAllocationCounts(start, units, init, share, e);
      if hops[|hops| - 1].edge == e {
        OneMoreShare(Crossings(init, e), share);
        ClampAdd(units + Crossings(init, e) * share, share);
      }
    }
  }

  lemma OneMoreShare(n: nat, share: nat)
    ensures (n + 1) * share == n * share + share
  {
  }

  lemma SharesAdd(m: nat, n: nat, share: nat)
    ensures (m + n) * share == m * share + n * share
  {
  }

  /** The recomputed allocation is one share per crossing, clamped. */
  lemma {:induction false} AllocationCounts(paths: seq<PathPlan>, share: nat, e: nat)
    requires share <= COST_CEILING
    ensures Allocation(paths, share, e) == Min(AllCrossings(paths, e) * share, COST_CEILING)
    decreases |paths|
  {
    if paths != [] {
      var init, hops := paths[..|paths| - 1], paths[|paths| - 1].hops;
      AllocationCounts(init, share, e);
      PathAllocationCounts(Allocation(init, share, e), AllCrossings(init, e) * share, hops, share, e);
      SharesAdd(AllCrossings(init, e), Crossings(hops, e), share);
    }
  }

  lemma {:induction false} UntouchedPath(hops: seq<Hop>, e: nat)
    requires forall i | 0 <= i < |hops| :: hops[i].edge != e
    ensures Crossings(hops, e) == 0
    decreases |hops|
  {
    if hops != [] {
      UntouchedPath(hops[..|hops| - 1], e);
    }
  }

  lemma {:induction false} UntouchedEdge(paths: seq<PathPlan>, e: nat)
    requires !Touches(paths, e)
    ensures AllCrossings(paths, e) == 0
    decreases |paths|
  {
    if paths != [] {
      var init := paths[..|paths| - 1];
      forall k, i | 0 <= k < |init| && 0 <= i < |init[k].hops|
        ensures init[k].hops[i].edge != e
      {
        assert paths[k].hops[i].edge != e;
      }
      UntouchedEdge(init, e);
      UntouchedPath(paths[|paths| - 1].hops, e);
    }
  }

  /** A table without repetition that is as large as a set of edges holds each of them. */
  lemma {:induction false} EntryFor(table: seq<Use>, edges: set<nat>, e: nat) returns (i: nat)
    requires (forall i, j | 0 <= i < j < |table| :: table[i].edge != table[j].edge)
             && (forall i | 0 <= i < |table| :: table[i].edge in edges) && |edges| == |table| && e in edges
    ensures i < |table| && table[i].edge == e
    decreases |table|
  {
    if table == [] {
      assert false;
    }
    var init, last := table[..|table| - 1], table[|table| - 1].edge;
    if e == last {
      i := |table| - 1;
    } else {
      i := EntryFor(init, edges - {last}, e);
    }
  }

  lemma EntryStands(r: Request, plan: Plan, i: nat)
    requires r.Valid() && AllocationsOk(r, plan) && i < |plan.allocations|
    ensures var a := plan.allocations[i];
            && a.edge < |r.fabric.edges| && a.amount == Allocation(plan.paths, PerPathDemand(r), a.edge)
            && (r.fabric.edges[a.edge].capacity > 0 ==>
                  a.amount <= r.fabric.edges[a.edge].capacity - r.fabric.edges[a.edge].reserved)
  {
  }

  lemma {:induction false} TouchedIsEntered(r: Request, plan: Plan, e: nat) returns (i: nat)
    requires r.Valid() && AllocationsOk(r, plan) && e in TouchedEdges(r, plan)
    ensures i < |plan.allocations| && plan.allocations[i].edge == e
  {
    i := EntryFor(plan.allocations, TouchedEdges(r, plan), e);
  }

  lemma ClampedLoad(load: nat, amount: nat, spare: nat)
    requires amount == Min(load, COST_CEILING) && amount <= spare < COST_CEILING
    ensures load <= spare
  {
  }

  lemma {:induction false} TouchedKept(r: Request, plan: Plan, e: nat)
    requires r.Valid() && AllocationsOk(r, plan) && e in TouchedEdges(r, plan) && r.fabric.edges[e].capacity > 0
    requires r.fabric.edges[e].capacity <= MAX_CAPACITY && PerPathDemand(r) <= COST_CEILING
    ensures AllCrossings(plan.paths, e) * PerPathDemand(r) <= r.fabric.edges[e].capacity - r.fabric.edges[e].reserved
  {
    var share, n := PerPathDemand(r), AllCrossings(plan.paths, e);
    var i := TouchedIsEntered(r, plan, e);
    EntryStands(r, plan, i);
    AllocationCounts(plan.paths, share, e);
    ClampedLoad(n * share, plan.allocations[i].amount, r.fabric.edges[e].capacity - r.fabric.edges[e].reserved);
  }

  lemma NothingPlaced(n: nat, share: nat)
    requires n == 0 || share == 0
    ensures n * share == 0
  {
  }

  /** An accepted plan never commits more than the verified spare capacity of an edge. */
  lemma {:induction false} CapacityKept(r: Request, plan: Plan, e: nat)
    requires r.Valid() && ValidatePlan(r, plan) && e < |r.fabric.edges| && r.fabric.edges[e].capacity > 0
    ensures AllCrossings(plan.paths, e) * PerPathDemand(r) <= r.fabric.edges[e].capacity - r.fabric.edges[e].reserved
  {
    assert AllocationsOk(r, plan);
    LoadKept(r, plan, e);
  }

  lemma {:induction false} LoadKept(r: Request, plan: Plan, e: nat)
    requires r.Valid() && AllocationsOk(r, plan) && e < |r.fabric.edges| && r.fabric.edges[e].capacity > 0
    ensures AllCrossings(plan.paths, e) * PerPathDemand(r) <= r.fabric.edges[e].capacity - r.fabric.edges[e].reserved
  {
    assert r.fabric.EdgeOk(r.fabric.edges[e]);
    if e in TouchedEdges(r, plan) {
      DemandShare(r.demand, Wanted(r));
      TouchedKept(r, plan, e);
    } else {
      if r.demand > 0 {
        UntouchedEdge(plan.paths, e);
      }
      NothingPlaced(AllCrossings(plan.paths, e), PerPathDemand(r));
    }
  }

  // ----- one path -----

  function EdgesOf(hops: seq<Hop>): Path {
    seq(|hops|, i requires 0 <= i < |hops| => hops[i].edge)
  }

  /** A contiguous simple walk between the endpoints within the hop limit, over any edges of the fabric. */
  ghost predicate Travels(q: Query, p: Path) {
    && q.InRange(p) && |p| <= q.hopLimit && q.Simple(q.source, p)
    && (forall i {:trigger q.NodeAt(q.source, p, i)} | 0 <= i < |p| :: q.arcs[p[i]].from == q.NodeAt(q.source, p, i))
    && q.NodeAt(q.source, p, |p|) == q.target
  }

  /** Everything the policy and the bindings demand of an edge, apart from its own eligibility. */
  predicate Admits(r: Request, from: Binding, to: Binding, e: nat)
    requires r.Valid() && e < |r.fabric.edges|
  {
    var edge := r.fabric.edges[e];
    assert r.fabric.EdgeOk(edge);
    && PolicyAdmits(r, e) && CapacityUsable(r.policy, edge)
    && BindingAllows(r.fabric, from, edge) && BindingAllows(r.fabric, to, edge)
    && edge.from !in r.policy.forbiddenNodes && edge.to !in r.policy.forbiddenNodes
  }

  /** The bindings and terms of the logical edge a path belongs to. */
  ghost predicate Serves(r: Request, p: PathPlan, from: Binding, to: Binding, t: Terms)
    requires r.Valid()
  {
    && 1 <= p.logical <= |r.logical| && r.Bound(p.logical - 1) && t == TermsAt(r, p.logical - 1)
    && from == r.bindings[r.logical[p.logical - 1].src] && to == r.bindings[r.logical[p.logical - 1].dst]
    && Mirrors(r, from, to, t)
  }

  lemma {:induction false} Served(r: Request, plan: Plan, k: nat) returns (from: Binding, to: Binding, t: Terms)
    requires r.Valid() && ValidatePlan(r, plan) && k < |plan.paths|
    ensures PathOk(r, plan, plan.paths[k]) && Serves(r, plan.paths[k], from, to, t)
  {
    var l := plan.paths[k].logical - 1;
    assert PathOk(r, plan, plan.paths[k]);
    from, to, t := r.bindings[r.logical[l].src], r.bindings[r.logical[l].dst], TermsAt(r, l);
    TermsMirror(r, l);
  }

  lemma HopStands(r: Request, from: Binding, to: Binding, t: Terms, h: Hop)
    requires Mirrors(r, from, to, t) && HopOk(r, from, to, h)
    ensures t.q.arcs[h.edge].from == h.from && t.q.arcs[h.edge].to == h.to && Admits(r, from, to, h.edge)
  {
    assert MirrorAt(r, from, to, t, h.edge);
  }

  lemma HopsStand(r: Request, from: Binding, to: Binding, t: Terms, hops: seq<Hop>)
    requires Mirrors(r, from, to, t) && forall i | 0 <= i < |hops| :: HopOk(r, from, to, hops[i])
    ensures t.q.InRange(EdgesOf(hops))
    ensures forall i {:trigger hops[i]} | 0 <= i < |hops| ::
              && hops[i].edge < |r.fabric.edges| == |t.q.arcs| && t.q.arcs[hops[i].edge].from == hops[i].from
                 && t.q.arcs[hops[i].edge].to == hops[i].to
              && Admits(r, from, to, hops[i].edge)
  {
    forall i | 0 <= i < |hops|
      ensures hops[i].edge < |t.q.arcs|
      ensures t.q.arcs[hops[i].edge].from == hops[i].from && t.q.arcs[hops[i].edge].to == hops[i].to
      ensures Admits(r, from, to, hops[i].edge)
    {
      HopStands(r, from, to, t, hops[i]);
    }
  }

  lemma HopsTravel(r: Request, from: Binding, to: Binding, t: Terms, hops: seq<Hop>)
    requires Mirrors(r, from, to, t) && forall i | 0 <= i < |hops| :: HopOk(r, from, to, hops[i])
    requires HopsSimple(hops) && Contiguous(hops, from.node, to.node) && |hops| <= r.policy.maxHops
    ensures Travels(t.q, EdgesOf(hops))
  {
    HopsStand(r, from, to, t, hops);
    HopsVisit(t.q, hops);
  }

  /** The nodes a path visits are the ends of its hops. */
  lemma HopsVisit(q: Query, hops: seq<Hop>)
    requires q.InRange(EdgesOf(hops)) && HopsSimple(hops) && Contiguous(hops, q.source, q.target)
    requires forall i {:trigger hops[i]} | 0 <= i < |hops| ::
               q.arcs[EdgesOf(hops)[i]].from == hops[i].from && q.arcs[EdgesOf(hops)[i]].to == hops[i].to
    requires |hops| <= q.hopLimit
    ensures Travels(q, EdgesOf(hops))
  {
    var p := EdgesOf(hops);
    assert forall i {:trigger hops[i]} | 0 <= i < |p| :: q.NodeAt(q.source, p, i + 1) == hops[i].to;
    forall i | 0 <= i < |p|
      ensures q.arcs[p[i]].from == q.NodeAt(q.source, p, i)
    {
      if i > 0 {
        assert hops[i - 1 + 1].from == hops[i - 1].to;
      }
    }
    forall i, j | 0 <= i < j <= |p|
      ensures q.NodeAt(q.source, p, i) != q.NodeAt(q.source, p, j)
    {
      assert q.NodeAt(q.source, p, j) == hops[j - 1].to;
    }
  }

  /** Every path of an accepted plan is a simple walk between its bound nodes over admitted edges. */
  lemma {:induction false} PathsTravel(r: Request, plan: Plan, k: nat)
      returns (from: Binding, to: Binding, t: Terms)
    requires r.Valid() && ValidatePlan(r, plan) && k < |plan.paths|
    ensures var p := plan.paths[k];
            && Serves(r, p, from, to, t) && Travels(t.q, EdgesOf(p.hops))
            && t.q.source == from.node && t.q.target == to.node
            && forall i | 0 <= i < |p.hops| :: p.hops[i].edge < |r.fabric.edges| && Admits(r, from, to, p.hops[i].edge)
  {
    from, to, t := Served(r, plan, k);
    HopsStand(r, from, to, t, plan.paths[k].hops);
    HopsTravel(r, from, to, t, plan.paths[k].hops);
  }

  // ----- siblings -----

  /** Every logical edge has exactly the demanded number of paths, and each path belongs to one. */
  lemma {:induction false} PathsCounted(r: Request, plan: Plan, l: nat)
    requires r.Valid() && ValidatePlan(r, plan) && 1 <= l <= |r.logical|
    ensures |SiblingsOf(plan, l)| == r.policy.paths
  {
  }

  /** Siblings keep the distance the policy demands. */
  lemma {:induction false} SiblingsApart(r: Request, plan: Plan, j: nat, k: nat)
    requires r.Valid() && ValidatePlan(r, plan) && j < |plan.paths| && k < |plan.paths| && j != k
    requires plan.paths[j].logical == plan.paths[k].logical
    ensures Distant(r, plan.paths[j], plan.paths[k])
  {
    assert PathOk(r, plan, plan.paths[j]) && PathOk(r, plan, plan.paths[k]);
    if j < k {
      assert SiblingsOk(r, plan.paths[j], plan.paths[k]);
      PairApart(r, plan.paths[j], plan.paths[k]);
    } else {
      assert SiblingsOk(r, plan.paths[k], plan.paths[j]);
      PairApart(r, plan.paths[k], plan.paths[j]);
    }
  }

  /** Two paths keep the distance the policy demands. */
  ghost predicate Distant(r: Request, a: PathPlan, b: PathPlan) {
    && (r.policy.disjointness != Shared ==> NoSharedEdge(EdgesOf(a.hops), EdgesOf(b.hops)))
    && (r.policy.disjointness == NodeDisjoint ==>
          forall x, y | 0 <= x < |a.hops| - 1 && 0 <= y < |b.hops| - 1 :: a.hops[x].to != b.hops[y].to)
    && (r.policy.diversity == Required ==> a.signature !! b.signature)
  }

  lemma PairApart(r: Request, a: PathPlan, b: PathPlan)
    requires r.Valid() && SiblingsOk(r, a, b)
    requires r.policy.diversity == Required ==>
               (a.hops == [] ==> a.signature == {}) && (b.hops == [] ==> b.signature == {})
    ensures Distant(r, a, b) && Distant(r, b, a)
  {
    if r.policy.disjointness != Shared {
      NothingShared(a.hops, b.hops);
      NothingShared(b.hops, a.hops);
    }
  }

  lemma NothingShared(a: seq<Hop>, b: seq<Hop>)
    requires forall i, j | 0 <= i < |a| && 0 <= j < |b| :: a[i].edge != b[j].edge
    ensures NoSharedEdge(EdgesOf(a), EdgesOf(b))
  {
    forall e | e in EdgesOf(a)
      ensures e !in EdgesOf(b)
    {
      var x :| 0 <= x < |a| && EdgesOf(a)[x] == e;
      assert a[x].edge == e;
    }
  }
}
