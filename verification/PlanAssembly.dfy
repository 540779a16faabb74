/** Assembly of the emitted plan (src/planner.cpp:1915-1999); every assembled plan passes the checker. */
module PlanAssembly {
  import opened Paths
  import opened Candidates
  import opened Families
  import opened Requests
  import opened Planner
  import opened PlanChecker

  // ----- one path -----

  function HopsOf(r: Request, p: Path): seq<Hop>
    requires forall i | 0 <= i < |p| :: p[i] < |r.fabric.edges|
  {
    seq(|p|, i requires 0 <= i < |p| => Hop(p[i], r.fabric.edges[p[i]].from, r.fabric.edges[p[i]].to))
  }

  function MakePath(r: Request, l: nat, c: Candidate, id: nat): PathPlan
    requires l < |r.logical| == |r.stage| && forall i | 0 <= i < |c.edges| :: c.edges[i] < |r.fabric.edges|
  {
    PathPlan(id, l + 1, r.logical[l].src, r.logical[l].dst, r.stage[l], HopsOf(r, c.edges), c.cost, c.bottleneck,
             c.signature, c.weakest)
  }

  /** Edge e looks to the terms as it does in the fabric, and is usable exactly when the hop filter passes. */
  ghost predicate MirrorAt(r: Request, from: Binding, to: Binding, t: Terms, e: nat)
    requires r.Valid() && e < |r.fabric.edges| && t.Valid() && |t.q.arcs| == |r.fabric.edges|
  {
    var edge := r.fabric.edges[e];
    && t.q.arcs[e].from == edge.from && t.q.arcs[e].to == edge.to
    && r.fabric.EdgeOk(edge) && t.domain[e] == LevelDomain(r, edge) && t.capacity[e] == edge.capacity
    && t.spare[e] == Spare(edge) && (e in t.q.usable <==> HopUsable(r, from, to, e))
  }

  /** t are the terms of a logical edge between the two bindings. */
  ghost predicate Mirrors(r: Request, from: Binding, to: Binding, t: Terms) {
    && r.Valid() && t.Valid() && |t.q.arcs| == |r.fabric.edges| && t.q.nodeCount == |r.fabric.nodes|
    && t.q.source == from.node && t.q.target == to.node && t.q.hopLimit == r.policy.maxHops
       && t.q.maxCost == r.policy.maxPathCost
    && t.disjointness == r.policy.disjointness && t.diversity == r.policy.diversity
    && t.demand == PerPathDemand(r) && t.wanted == Wanted(r)
    && (forall e {:trigger MirrorAt(r, from, to, t, e)} | 0 <= e < |r.fabric.edges| :: MirrorAt(r, from, to, t, e))
    && (forall v | v in t.q.allowed :: v !in r.policy.forbiddenNodes)
  }

  lemma TermsMirror(r: Request, l: nat)
    requires r.Valid() && l < |r.logical| && r.Bound(l)
    ensures Mirrors(r, r.bindings[r.logical[l].src], r.bindings[r.logical[l].dst], TermsAt(r, l))
  {
    TermsAtValid(r, l);
    var t := TermsAt(r, l);
    forall e | 0 <= e < |r.fabric.edges|
      ensures MirrorAt(r, r.bindings[r.logical[l].src], r.bindings[r.logical[l].dst], t, e)
    {
      assert r.fabric.EdgeOk(r.fabric.edges[e]);
    }
  }

  lemma HopNodes(r: Request, from: Binding, to: Binding, t: Terms, p: Path, i: nat)
    requires Mirrors(r, from, to, t) && t.q.Walk(t.q.source, p, t.q.target) && i < |p|
    ensures HopsOf(r, p)[i].to == t.q.NodeAt(t.q.source, p, i + 1)
    ensures HopsOf(r, p)[i].from == t.q.NodeAt(t.q.source, p, i)
  {
    assert MirrorAt(r, from, to, t, p[i]);
    assert t.q.arcs[p[i]].from == t.q.NodeAt(t.q.source, p, i);
  }

  lemma HopsAreSimple(r: Request, from: Binding, to: Binding, t: Terms, p: Path)
    requires Mirrors(r, from, to, t) && t.q.Compliant(p)
    ensures HopsSimple(HopsOf(r, p))
  {
    var hops := HopsOf(r, p);
    forall i, j | 0 <= i < j < |hops|
      ensures hops[i].to != hops[j].to && hops[i].edge != hops[j].edge
    {
      HopNodes(r, from, to, t, p, i);
      HopNodes(r, from, to, t, p, j);
      assert t.q.NodeAt(t.q.source, p, i + 1) != t.q.NodeAt(t.q.source, p, j + 1);
    }
    forall i | 0 <= i < |hops|
      ensures hops[i].to != hops[0].from
    {
      HopNodes(r, from, to, t, p, i);
      HopNodes(r, from, to, t, p, 0);
      assert t.q.NodeAt(t.q.source, p, 0) != t.q.NodeAt(t.q.source, p, i + 1);
    }
  }

  lemma HopsAreContiguous(r: Request, from: Binding, to: Binding, t: Terms, p: Path)
    requires Mirrors(r, from, to, t) && t.q.Compliant(p)
    ensures Contiguous(HopsOf(r, p), from.node, to.node)
  {
    var hops := HopsOf(r, p);
    if hops != [] {
      HopNodes(r, from, to, t, p, 0);
      HopNodes(r, from, to, t, p, |p| - 1);
    }
    forall i | 0 <= i < |hops| - 1
      ensures hops[i + 1].from == hops[i].to
    {
      HopNodes(r, from, to, t, p, i);
      HopNodes(r, from, to, t, p, i + 1);
    }
  }

  lemma HopIsOk(r: Request, from: Binding, to: Binding, t: Terms, p: Path, i: nat)
    requires Mirrors(r, from, to, t) && t.q.Compliant(p) && i < |p|
    ensures HopOk(r, from, to, HopsOf(r, p)[i])
  {
    HopNodes(r, from, to, t, p, i);
    assert MirrorAt(r, from, to, t, p[i]) && p[i] in t.q.usable;
    assert t.q.NodeAt(t.q.source, p, i) in t.q.allowed by {
      if i > 0 {
        assert p[i - 1] in t.q.usable;
      }
    }
    assert t.q.arcs[p[i]].to in t.q.allowed;
  }

  lemma {:induction false} DomainsAgree(r: Request, from: Binding, to: Binding, t: Terms, p: Path)
    requires Mirrors(r, from, to, t) && t.q.InRange(p)
    ensures DomainsOf(r, HopsOf(r, p)) == HopDomains(t, p)
    decreases |p|
  {
    if p != [] {
      DomainsAgree(r, from, to, t, p[..|p| - 1]);
      assert HopsOf(r, p)[..|p| - 1] == HopsOf(r, p[..|p| - 1]);
      assert MirrorAt(r, from, to, t, p[|p| - 1]);
    }
  }

  lemma {:induction false} AllDomainsDeclared(t: Terms, p: Path)
    requires t.Valid() && t.q.InRange(p) && DomainKnown(t, p)
    ensures |HopDomains(t, p)| == |p|
    decreases |p|
  {
    if p != [] {
      AllDomainsDeclared(t, p[..|p| - 1]);
    }
  }

  /** A materialised compliant path passes every check on a single path. */
  lemma PathIsOk(r: Request, l: nat, plan: Plan, c: Candidate, id: nat)
    requires r.Valid() && l < |r.logical| && r.Bound(l) && 1 <= id <= |plan.paths|
    requires TermsAt(r, l).Valid() && Good(TermsAt(r, l), c)
    ensures forall i | 0 <= i < |c.edges| :: c.edges[i] < |r.fabric.edges|
    ensures PathOk(r, plan, MakePath(r, l, c, id))
  {
    var from, to, t := r.bindings[r.logical[l].src], r.bindings[r.logical[l].dst], TermsAt(r, l);
    TermsMirror(r, l);
    PathIsOkFor(r, from, to, t, l, plan, c, id);
  }

  lemma PathIsOkFor(r: Request, from: Binding, to: Binding, t: Terms, l: nat, plan: Plan, c: Candidate, id: nat)
    requires Mirrors(r, from, to, t) && l < |r.logical| && r.Bound(l) && 1 <= id <= |plan.paths|
    requires from == r.bindings[r.logical[l].src] && to == r.bindings[r.logical[l].dst]
    requires t.q.Compliant(c.edges) && c.cost == t.q.Cost(c.edges) && c.signature == Signature(t, c.edges)
    ensures forall i | 0 <= i < |c.edges| :: c.edges[i] < |r.fabric.edges|
    ensures PathOk(r, plan, MakePath(r, l, c, id))
  {
    HopsAreSimple(r, from, to, t, c.edges);
    HopsAreContiguous(r, from, to, t, c.edges);
    DomainsAgree(r, from, to, t, c.edges);
    forall i | 0 <= i < |c.edges|
      ensures HopOk(r, from, to, HopsOf(r, c.edges)[i])
    {
      HopIsOk(r, from, to, t, c.edges, i);
    }
  }

  /** Compatible candidates pass every check between siblings. */
  lemma SiblingsAreOk(r: Request, l: nat, a: Candidate, b: Candidate, id: nat, id': nat)
    requires r.Valid() && l < |r.logical| && r.Bound(l) && TermsAt(r, l).Valid()
    requires Good(TermsAt(r, l), a) && Good(TermsAt(r, l), b) && Compatible(TermsAt(r, l), a, b)
    ensures (forall i | 0 <= i < |a.edges| :: a.edges[i] < |r.fabric.edges|)
            && (forall i | 0 <= i < |b.edges| :: b.edges[i] < |r.fabric.edges|)
    ensures SiblingsOk(r, MakePath(r, l, a, id), MakePath(r, l, b, id'))
  {
    var from, to, t := r.bindings[r.logical[l].src], r.bindings[r.logical[l].dst], TermsAt(r, l);
    TermsMirror(r, l);
    SiblingsAreOkFor(r, from, to, t, l, a, b, id, id');
  }

  lemma SiblingsAreOkFor(r: Request, from: Binding, to: Binding, t: Terms, l: nat, a: Candidate, b: Candidate, id: nat,
      id': nat)
    requires Mirrors(r, from, to, t) && l < |r.logical|
    requires t.q.InRange(a.edges) && t.q.InRange(b.edges) && Compatible(t, a, b)
             && b.domainKnown == DomainKnown(t, b.edges)
    ensures SiblingsOk(r, MakePath(r, l, a, id), MakePath(r, l, b, id'))
  {
    DomainsAgree(r, from, to, t, b.edges);
    if b.domainKnown {
      AllDomainsDeclared(t, b.edges);
    }
    var x, y := HopsOf(r, a.edges), HopsOf(r, b.edges);
    forall i, j | 0 <= i < |x| && 0 <= j < |y|
      ensures t.disjointness != Shared ==> x[i].edge != y[j].edge
      ensures t.disjointness == NodeDisjoint && i < |x| - 1 && j < |y| - 1 ==> x[i].to != y[j].to
    {
      assert a.edges[i] in a.edges;
      assert MirrorAt(r, from, to, t, a.edges[i]) && MirrorAt(r, from, to, t, b.edges[j]);
    }
  }
}
