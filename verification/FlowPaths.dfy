/** Splitting a flow of r units into r walks from the source to the sink. */
module FlowPaths {
  import opened Paths
  import opened Finite
  import MaxFlow

  /** What a flow carries out of the side, less what it carries back. */
  ghost function Net(arcs: seq<Arc>, f: seq<int>, side: set<nat>): int
    requires |f| == |arcs|
  {
    if arcs == [] then 0
    else
      var k := |arcs| - 1;
      Net(arcs[..k], f[..k], side) + MaxFlow.Crossed(f[k], arcs[k].from, arcs[k].to, side)
  }

  /** r units run from s to t: across every side exactly what starts or ends on it. */
  ghost predicate Flow(arcs: seq<Arc>, f: seq<int>, s: nat, t: nat, r: nat) {
    && |f| == |arcs| && (forall k {:trigger f[k]} | 0 <= k < |f| :: f[k] >= 0)
    && forall side :: Net(arcs, f, side) == MaxFlow.Crossed(r, s, t, side)
  }

  ghost predicate Sites(n: nat, arcs: seq<Arc>) {
    forall k {:trigger arcs[k]} | 0 <= k < |arcs| :: arcs[k].from < n && arcs[k].to < n && arcs[k].from != arcs[k].to
  }

  predicate Site(n: nat, v: nat) {
    v < n
  }

  /** The network of the arcs that carry something. */
  ghost function Carrying(n: nat, arcs: seq<Arc>, f: seq<int>, s: nat, t: nat): Query
    requires |f| == |arcs|
  {
    Query(n, arcs, (set v: nat | v < n && Site(n, v)), (set k: nat | k < |arcs| && f[k] >= 1), s, t, 0, 0)
  }

  // ----- one walk -----

  ghost predicate CanReach(q: Query, v: nat) {
    exists p :: q.Walk(q.source, p, v)
  }

  ghost function Reached(q: Query): set<nat> {
    set v: nat | v < q.nodeCount && CanReach(q, v)
  }

  lemma {:induction false} NothingLeaves(arcs: seq<Arc>, f: seq<int>, side: set<nat>)
    requires |f| == |arcs| && forall k {:trigger f[k]} | 0 <= k < |f| :: f[k] >= 0
    requires forall k {:trigger f[k]} | 0 <= k < |f| && arcs[k].from in side && arcs[k].to !in side :: f[k] == 0
    ensures Net(arcs, f, side) <= 0
    decreases |arcs|
  {
    if arcs != [] {
      NothingLeaves(arcs[..|arcs| - 1], f[..|arcs| - 1], side);
    }
  }

  lemma {:induction false} ReachedClosed(q: Query, k: nat)
    requires q.Valid() && k in q.usable && q.arcs[k].from in Reached(q)
    ensures q.arcs[k].to in Reached(q)
  {
    assert CanReach(q, q.arcs[k].from);
    var p :| q.Walk(q.source, p, q.arcs[k].from);
    WalkSnoc(q, q.source, p, q.arcs[k].from, k);
  }

  lemma StartsAtSource(q: Query)
    requires q.Valid()
    ensures q.source in Reached(q)
  {
    assert q.Walk(q.source, [], q.source);
  }

  lemma {:induction false} CarryingValid(n: nat, arcs: seq<Arc>, f: seq<int>, s: nat, t: nat)
    requires Sites(n, arcs) && |f| == |arcs| && s < n && t < n
    ensures Carrying(n, arcs, f, s, t).Valid()
  {
  }

  /** While something runs, a walk over carrying arcs leads from the source to the sink. */
  lemma {:induction false} WalkExists(n: nat, arcs: seq<Arc>, f: seq<int>, s: nat, t: nat, r: nat) returns (p: Path)
    requires Sites(n, arcs) && Flow(arcs, f, s, t, r) && r >= 1 && s < n && t < n && s != t
    ensures Carrying(n, arcs, f, s, t).Walk(s, p, t)
  {
    var q := Carrying(n, arcs, f, s, t);
    CarryingValid(n, arcs, f, s, t);
    var side := Reached(q);
    StartsAtSource(q);
    assert Net(arcs, f, side) == MaxFlow.Crossed(r, s, t, side);
    if t !in side {
      forall k | 0 <= k < |f| && arcs[k].from in side && arcs[k].to !in side
        ensures f[k] == 0
      {
        if f[k] >= 1 {
          ReachedClosed(q, k);
        }
      }
      NothingLeaves(arcs, f, side);
    }
    assert CanReach(q, t);
    p :| q.Walk(q.source, p, t);
  }

  /** A walk without its cycles. */
  lemma {:induction false} SimplePart(q: Query, s: nat, p: Path, t: nat) returns (r: Path)
    requires q.Walk(s, p, t)
    ensures q.Walk(s, r, t) && q.Simple(s, r) && forall e | e in r :: e in p
    decreases |p|
  {
    if q.Simple(s, p) {
      r := p;
    } else {
      var i, j :| 0 <= i < j <= |p| && q.NodeAt(s, p, i) == q.NodeAt(s, p, j);
      CutCycle(q, s, p, t, i, j);
      r := SimplePart(q, s, p[..i] + p[j..], t);
    }
  }

  // ----- taking a walk out of the flow -----

  lemma {:induction false} NetDrop(arcs: seq<Arc>, f: seq<int>, k: nat, side: set<nat>)
    requires |f| == |arcs| && k < |f|
    ensures Net(arcs, f[k := f[k] - 1], side) ==
            Net(arcs, f, side) - MaxFlow.Crossed(1, arcs[k].from, arcs[k].to, side)
    decreases |arcs|
  {
    var n := |arcs| - 1;
    if k < n {
      NetDrop(arcs[..n], f[..n], k, side);
      assert f[k := f[k] - 1][..n] == f[..n][k := f[..n][k] - 1];
    } else {
      assert f[k := f[k] - 1][..n] == f[..n];
    }
  }

  /** The flow without one unit on each of the first i arcs of p. */
  ghost function Without(f: seq<int>, p: Path, i: nat): (g: seq<int>)
    requires i <= |p| && forall x | 0 <= x < |p| :: p[x] < |f|
    ensures |g| == |f|
  {
    if i == 0 then f else var g := Without(f, p, i - 1); g[p[i - 1] := g[p[i - 1]] - 1]
  }

  lemma {:induction false} WithoutAt(f: seq<int>, p: Path, i: nat, k: nat)
    requires i <= |p| && (forall x | 0 <= x < |p| :: p[x] < |f|) && Injective(p) && k < |f|
    ensures Without(f, p, i)[k] == if k in p[..i] then f[k] - 1 else f[k]
  {
    if i > 0 {
      WithoutAt(f, p, i - 1, k);
      assert p[..i] == p[..i - 1] + [p[i - 1]];
      assert p[i - 1] !in p[..i - 1];
    }
  }

  lemma {:induction false} WithoutNet(q: Query, f: seq<int>, s: nat, p: Path, i: nat, side: set<nat>)
    requires |f| == |q.arcs| && q.InRange(p) && i <= |p|
    requires forall x {:trigger q.NodeAt(s, p, x)} | 0 <= x < |p| :: q.arcs[p[x]].from == q.NodeAt(s, p, x)
    ensures Net(q.arcs, Without(f, p, i), side) ==
            Net(q.arcs, f, side) - MaxFlow.Crossed(1, s, q.NodeAt(s, p, i), side)
  {
    if i > 0 {
      WithoutNet(q, f, s, p, i - 1, side);
      NetDrop(q.arcs, Without(f, p, i - 1), p[i - 1], side);
      assert q.arcs[p[i - 1]].from == q.NodeAt(s, p, i - 1);
    }
  }

  lemma SimpleIsInjective(q: Query, s: nat, p: Path)
    requires q.InRange(p) && q.Simple(s, p)
    ensures Injective(p)
  {
    forall i, j | 0 <= i < j < |p|
      ensures p[i] != p[j]
    {
      assert q.NodeAt(s, p, i + 1) != q.NodeAt(s, p, j + 1);
    }
  }

  /** One unit less runs when a simple walk is taken out. */
  lemma {:induction false} FlowWithout(n: nat, arcs: seq<Arc>, f: seq<int>, s: nat, t: nat, r: nat, p: Path)
    requires Sites(n, arcs) && Flow(arcs, f, s, t, r) && r >= 1
    requires Carrying(n, arcs, f, s, t).Walk(s, p, t) && Carrying(n, arcs, f, s, t).Simple(s, p)
    ensures Injective(p) && Flow(arcs, Without(f, p, |p|), s, t, r - 1)
  {
    var q, g := Carrying(n, arcs, f, s, t), Without(f, p, |p|);
    SimpleIsInjective(q, s, p);
    forall k | 0 <= k < |g|
      ensures g[k] >= 0
    {
      WithoutAt(f, p, |p|, k);
      if k in p {
        assert k in q.usable;
      }
    }
    forall side
      ensures Net(arcs, g, side) == MaxFlow.Crossed(r - 1, s, t, side)
    {
      WithoutNet(q, f, s, p, |p|, side);
    }
  }

  // ----- all walks -----

  /** Simple walks over carrying arcs; an arc on two of them carries at least two units. */
  ghost predicate Routes(n: nat, arcs: seq<Arc>, f: seq<int>, s: nat, t: nat, routes: seq<Path>) {
    && |f| == |arcs|
    && (forall i {:trigger routes[i]} | 0 <= i < |routes| ::
          Carrying(n, arcs, f, s, t).Walk(s, routes[i], t) && Carrying(n, arcs, f, s, t).Simple(s, routes[i]))
    && (forall i, j, k | 0 <= i < j < |routes| && k in routes[i] && k in routes[j] :: k < |f| && f[k] >= 2)
  }

  /** A flow of r units contains r walks from the source to the sink. */
  lemma {:induction false} Decompose(n: nat, arcs: seq<Arc>, f: seq<int>, s: nat, t: nat, r: nat)
      returns (routes: seq<Path>)
    requires Sites(n, arcs) && Flow(arcs, f, s, t, r) && s < n && t < n && s != t
    ensures Routes(n, arcs, f, s, t, routes) && |routes| == r
    decreases r
  {
    routes := [];
    if r > 0 {
      var w := WalkExists(n, arcs, f, s, t, r);
      var p := SimplePart(Carrying(n, arcs, f, s, t), s, w, t);
      FlowWithout(n, arcs, f, s, t, r, p);
      var rest := Decompose(n, arcs, Without(f, p, |p|), s, t, r - 1);
      AddRoute(n, arcs, f, s, t, p, rest);
      routes := [p] + rest;
    }
  }

  lemma {:induction false} AddRoute(n: nat, arcs: seq<Arc>, f: seq<int>, s: nat, t: nat, p: Path, rest: seq<Path>)
    requires |f| == |arcs| && Carrying(n, arcs, f, s, t).Walk(s, p, t) && Carrying(n, arcs, f, s, t).Simple(s, p)
    requires Injective(p) && Routes(n, arcs, Without(f, p, |p|), s, t, rest)
    ensures Routes(n, arcs, f, s, t, [p] + rest)
  {
    var g, q := Without(f, p, |p|), Carrying(n, arcs, f, s, t);
    forall k | 0 <= k < |f|
      ensures g[k] == if k in p then f[k] - 1 else f[k]
    {
      WithoutAt(f, p, |p|, k);
      assert p[..|p|] == p;
    }
    forall i | 0 <= i < |rest|
      ensures q.Walk(s, rest[i], t) && q.Simple(s, rest[i])
      ensures forall k | k in rest[i] :: k < |f| && g[k] >= 1
    {
      SameWalk(Carrying(n, arcs, g, s, t), q, s, rest[i], t);
    }
  }

  /** A walk over fewer usable arcs is a walk over more. */
  lemma SameWalk(q: Query, r: Query, s: nat, p: Path, t: nat)
    requires q.Walk(s, p, t) && q.Simple(s, p) && q.arcs == r.arcs && q.usable <= r.usable
    ensures r.Walk(s, p, t) && r.Simple(s, p) && forall k | k in p :: k in q.usable
  {
    forall i | 0 <= i <= |p|
      ensures r.NodeAt(s, p, i) == q.NodeAt(s, p, i)
    {
    }
  }
}
