/** One routing question as every search of src/planner.cpp sees it, and what its answers are. */
module Paths {
  import opened Saturating

  datatype Arc = Arc(from: nat, to: nat, cost: nat)

  /** A path is the list of physical edge indices it crosses. */
  type Path = seq<nat>

  /**
    The physical multigraph filtered for one logical edge. `allowed` are the eligible nodes, `usable` the
    edges that pass the hop filter of src/planner.cpp:297-313 (which also checks the node the hop enters).
   */
  datatype Query = Query(nodeCount: nat, arcs: seq<Arc>, allowed: set<nat>, usable: set<nat>,
                         source: nat, target: nat, hopLimit: nat, maxCost: nat)
  {
    ghost predicate Valid() {
      && (forall e | 0 <= e < |arcs| ::
           arcs[e].from < nodeCount && arcs[e].to < nodeCount && arcs[e].from != arcs[e].to)
      && (forall v | v in allowed :: v < nodeCount)
      && (forall e | e in usable :: e < |arcs| && arcs[e].to in allowed)
      && source < nodeCount && target < nodeCount
    }

    /** All hops of p exist in the fabric. */
    predicate InRange(p: Path) {
      forall i | 0 <= i < |p| :: p[i] < |arcs|
    }

    /** The i-th node visited by p when it starts at s. */
    function NodeAt(s: nat, p: Path, i: nat): nat
      requires InRange(p) && i <= |p|
    {
      if i == 0 then s else arcs[p[i - 1]].to
    }

    /** p is a contiguous walk over usable hops from s to t. */
    ghost predicate Walk(s: nat, p: Path, t: nat) {
      && InRange(p)
      && (forall i | 0 <= i < |p| :: p[i] in usable)
      && (forall i {:trigger NodeAt(s, p, i)} | 0 <= i < |p| :: arcs[p[i]].from == NodeAt(s, p, i))
      && NodeAt(s, p, |p|) == t
    }

    /** No node is visited twice (hence no edge is crossed twice). */
    ghost predicate Simple(s: nat, p: Path)
      requires InRange(p)
    {
      forall i, j | 0 <= i < j <= |p| :: NodeAt(s, p, i) != NodeAt(s, p, j)
    }

    /** Saturating cost accumulated hop by hop. */
    function Cost(p: Path): nat
      requires InRange(p)
    {
      if p == [] then 0 else SatAdd(Cost(p[..|p| - 1]), arcs[p[|p| - 1]].cost)
    }

    /** A walk between the bound endpoints inside the hop and cost limits. */
    ghost predicate WithinLimits(p: Path) {
      Walk(source, p, target) && |p| <= hopLimit && Cost(p) <= maxCost
    }

    /** What a logical edge may be carried by: a simple walk inside the limits that leaves an eligible endpoint. */
    ghost predicate Compliant(p: Path) {
      WithinLimits(p) && Simple(source, p) && source in allowed
    }

    /** Outgoing edges of a node, in canonical (index) order; src/fabric.cpp:273-296. */
    function OutFrom(v: nat, e: nat): (out: seq<nat>)
      requires e <= |arcs|
      ensures forall k | 0 <= k < |out| :: e <= out[k] < |arcs| && arcs[out[k]].from == v
      ensures |out| <= |arcs| - e
      decreases |arcs| - e
    {
      if e == |arcs| then []
      else if arcs[e].from == v then [e] + OutFrom(v, e + 1)
      else OutFrom(v, e + 1)
    }

    /** The same edges as a set. */
    ghost function Leaving(v: nat): set<nat> {
      set e | 0 <= e < |arcs| && arcs[e].from == v
    }

    function Out(v: nat): seq<nat> {
      OutFrom(v, 0)
    }
  }

  lemma {:induction false} OutIncreasing(q: Query, v: nat, e: nat)
    requires e <= |q.arcs|
    ensures forall k, l | 0 <= k < l < |q.OutFrom(v, e)| :: q.OutFrom(v, e)[k] < q.OutFrom(v, e)[l]
    decreases |q.arcs| - e
  {
    if e < |q.arcs| {
      OutIncreasing(q, v, e + 1);
    }
  }

  lemma {:induction false} OutComplete(q: Query, v: nat, e: nat, x: nat)
    requires e <= x < |q.arcs| && q.arcs[x].from == v
    ensures x in q.OutFrom(v, e)
    decreases x - e
  {
    if e < x {
      OutComplete(q, v, e + 1, x);
    }
  }

  /** The exact (unsaturated) cost of a path. */
  ghost function Sum(q: Query, p: Path): nat
    requires q.InRange(p)
  {
    if p == [] then 0 else Sum(q, p[..|p| - 1]) + q.arcs[p[|p| - 1]].cost
  }

  lemma {:induction false} CostIsClampedSum(q: Query, p: Path)
    requires q.InRange(p)
    ensures q.Cost(p) == Min(Sum(q, p), COST_CEILING)
    decreases |p|
  {
    if p != [] {
      CostIsClampedSum(q, p[..|p| - 1]);
    }
  }

  lemma {:induction false} SumConcat(q: Query, a: Path, b: Path)
    requires q.InRange(a) && q.InRange(b)
    ensures q.InRange(a + b) && Sum(q, a + b) == Sum(q, a) + Sum(q, b)
    decreases |b|
  {
    if b == [] {
      assert a + b == a;
    } else {
      var b' := b[..|b| - 1];
      SumConcat(q, a, b');
      assert (a + b)[..|a + b| - 1] == a + b';
    }
  }

  lemma {:induction false} CostSnoc(q: Query, p: Path, e: nat)
    requires q.InRange(p) && e < |q.arcs|
    ensures q.InRange(p + [e]) && q.Cost(p + [e]) == SatAdd(q.Cost(p), q.arcs[e].cost)
  {
    assert (p + [e])[..|p + [e]| - 1] == p;
  }

  /** Costs never decrease along a path, saturated or not. */
  lemma {:induction false} CostOfPrefix(q: Query, a: Path, b: Path)
    requires q.InRange(a) && q.InRange(b)
    ensures q.InRange(a + b) && q.Cost(a) <= q.Cost(a + b)
  {
    SumConcat(q, a, b);
    CostIsClampedSum(q, a);
    CostIsClampedSum(q, a + b);
  }

  lemma WalkSnoc(q: Query, s: nat, p: Path, v: nat, e: nat)
    requires q.Valid() && q.Walk(s, p, v) && e in q.usable && q.arcs[e].from == v
    ensures q.Walk(s, p + [e], q.arcs[e].to)
  {
    var r := p + [e];
    forall i | 0 <= i < |r|
      ensures r[i] in q.usable && q.arcs[r[i]].from == q.NodeAt(s, r, i)
    {
      if i < |p| {
        assert q.NodeAt(s, r, i) == q.NodeAt(s, p, i);
      } else {
        assert q.NodeAt(s, r, i) == q.NodeAt(s, p, |p|);
      }
    }
  }

  lemma WalkPrefix(q: Query, s: nat, p: Path, t: nat, k: nat)
    requires q.Walk(s, p, t) && k <= |p|
    ensures q.InRange(p[..k]) && q.Walk(s, p[..k], q.NodeAt(s, p, k))
  {
    var r := p[..k];
    forall i | 0 <= i < |r|
      ensures r[i] in q.usable && q.arcs[r[i]].from == q.NodeAt(s, r, i)
    {
      assert q.NodeAt(s, r, i) == q.NodeAt(s, p, i);
    }
  }

  lemma WalkSuffix(q: Query, s: nat, p: Path, t: nat, k: nat)
    requires q.Walk(s, p, t) && k <= |p|
    ensures q.InRange(p[k..]) && q.Walk(q.NodeAt(s, p, k), p[k..], t)
    ensures forall i | 0 <= i <= |p| - k :: q.NodeAt(q.NodeAt(s, p, k), p[k..], i) == q.NodeAt(s, p, k + i)
  {
    var r := p[k..];
    var v := q.NodeAt(s, p, k);
    forall i | 0 <= i <= |r|
      ensures q.NodeAt(v, r, i) == q.NodeAt(s, p, k + i)
    {
      if i > 0 {
        assert r[i - 1] == p[k + i - 1];
      }
    }
    forall i | 0 <= i < |r|
      ensures r[i] in q.usable && q.arcs[r[i]].from == q.NodeAt(v, r, i)
    {
      assert r[i] == p[k + i] && q.arcs[p[k + i]].from == q.NodeAt(s, p, k + i);
    }
  }

  lemma NodeAtConcat(q: Query, s: nat, a: Path, b: Path, i: nat)
    requires q.InRange(a) && q.InRange(b) && i <= |a| + |b|
    ensures q.InRange(a + b)
    ensures q.NodeAt(s, a + b, i) ==
            if i <= |a| then q.NodeAt(s, a, i) else q.NodeAt(q.NodeAt(s, a, |a|), b, i - |a|)
  {
  }

  lemma WalkConcat(q: Query, s: nat, a: Path, v: nat, b: Path, t: nat)
    requires q.Walk(s, a, v) && q.Walk(v, b, t)
    ensures q.Walk(s, a + b, t)
  {
    var r := a + b;
    forall i | 0 <= i < |r|
      ensures r[i] in q.usable && q.arcs[r[i]].from == q.NodeAt(s, r, i)
    {
      NodeAtConcat(q, s, a, b, i);
      if i < |a| {
        assert r[i] == a[i] && q.arcs[a[i]].from == q.NodeAt(s, a, i);
      } else {
        assert r[i] == b[i - |a|] && q.arcs[b[i - |a|]].from == q.NodeAt(v, b, i - |a|);
      }
    }
    NodeAtConcat(q, s, a, b, |r|);
  }

  lemma {:induction false} CutCycleCost(q: Query, p: Path, i: nat, j: nat)
    requires q.InRange(p) && i <= j <= |p|
    ensures q.InRange(p[..i] + p[j..]) && q.Cost(p[..i] + p[j..]) <= q.Cost(p)
  {
    assert p == (p[..i] + p[i..j]) + p[j..];
    SumConcat(q, p[..i], p[i..j]);
    SumConcat(q, p[..i] + p[i..j], p[j..]);
    SumConcat(q, p[..i], p[j..]);
    CostIsClampedSum(q, p);
    CostIsClampedSum(q, p[..i] + p[j..]);
  }

  /** Cutting the cycle between two visits of the same node keeps a walk a walk and never costs more. */
  lemma {:induction false} CutCycle(q: Query, s: nat, p: Path, t: nat, i: nat, j: nat)
    requires q.Walk(s, p, t) && i < j <= |p| && q.NodeAt(s, p, i) == q.NodeAt(s, p, j)
    ensures q.Walk(s, p[..i] + p[j..], t)
    ensures q.Cost(p[..i] + p[j..]) <= q.Cost(p)
  {
    WalkPrefix(q, s, p, t, i);
    WalkSuffix(q, s, p, t, j);
    WalkConcat(q, s, p[..i], q.NodeAt(s, p, i), p[j..], t);
    CutCycleCost(q, p, i, j);
  }

  /** (cost, hops) in lexicographic order, the frontier order of the search. */
  predicate LexLeq(c1: nat, h1: nat, c2: nat, h2: nat) {
    c1 < c2 || (c1 == c2 && h1 <= h2)
  }

  /** p is minimal in (cost, hops) over every walk inside the limits. */
  ghost predicate Cheapest(q: Query, p: Path)
    requires q.InRange(p)
  {
    forall w | q.WithinLimits(w) :: LexLeq(q.Cost(p), |p|, q.Cost(w), |w|)
  }

  /** A walk that is minimal in (cost, hops) visits no node twice, even over zero-cost edges. */
  lemma CheapestIsSimple(q: Query, p: Path)
    requires q.WithinLimits(p) && Cheapest(q, p)
    ensures q.Simple(q.source, p)
  {
    forall i, j | 0 <= i < j <= |p|
      ensures q.NodeAt(q.source, p, i) != q.NodeAt(q.source, p, j)
    {
      if q.NodeAt(q.source, p, i) == q.NodeAt(q.source, p, j) {
        CutCycle(q, q.source, p, q.target, i, j);
        assert q.WithinLimits(p[..i] + p[j..]);
      }
    }
  }

  /** Every walk inside the limits contains a compliant path, so "no path" and "no walk" coincide. */
  lemma {:induction false} WalkYieldsCompliant(q: Query, p: Path) returns (r: Path)
    requires q.WithinLimits(p) && q.source in q.allowed
    ensures q.Compliant(r) && |r| <= |p|
    decreases |p|
  {
    if q.Simple(q.source, p) {
      r := p;
    } else {
      var i, j :| 0 <= i < j <= |p| && q.NodeAt(q.source, p, i) == q.NodeAt(q.source, p, j);
      CutCycle(q, q.source, p, q.target, i, j);
      r := WalkYieldsCompliant(q, p[..i] + p[j..]);
    }
  }
}
