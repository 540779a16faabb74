/** The flow networks of the disjointness certificate and the flows they carry (src/planner.cpp:903-948). */
module FlowNetworks {
  import opened Paths
  import opened FlowPaths
  import MaxFlow

  /** A resource a path consumes: a physical edge, or the inside of an intermediate node. */
  datatype Item = EdgeItem(e: nat) | NodeItem(v: nat)

  datatype FlowArc = FlowArc(from: nat, to: nat, capacity: nat, item: Item)

  ghost function Crossing(arcs: seq<FlowArc>, side: set<nat>): nat {
    if arcs == [] then 0
    else
      var a := arcs[|arcs| - 1];
      Crossing(arcs[..|arcs| - 1], side) + (if a.from in side && a.to !in side then a.capacity else 0)
  }

  /** The resources a path occupies exclusively under the given disjointness mode. */
  ghost predicate Occupies(q: Query, nodeMode: bool, p: Path, item: Item)
    requires q.InRange(p)
  {
    match item
    case EdgeItem(e) => e in p
    case NodeItem(v) => nodeMode && exists i :: 0 < i < |p| && q.NodeAt(q.source, p, i) == v
  }

  /** Simple paths between the endpoints that pairwise share no physical edge and, in node mode, no interior node. */
  ghost predicate Family(q: Query, nodeMode: bool, family: seq<Path>) {
    && (forall k | 0 <= k < |family| :: q.Walk(q.source, family[k], q.target) && q.Simple(q.source, family[k]))
    && (forall k, l, item | 0 <= k < l < |family| ::
         !(Occupies(q, nodeMode, family[k], item) && Occupies(q, nodeMode, family[l], item)))
  }

  function Tail(nodeMode: bool, v: nat): nat {
    if nodeMode then 2 * v + 1 else v
  }

  function Head(nodeMode: bool, v: nat): nat {
    if nodeMode then 2 * v else v
  }

  // ----- networks arc by arc -----

  ghost predicate Placeable(n: nat, arcs: seq<FlowArc>) {
    forall k {:trigger arcs[k]} | 0 <= k < |arcs| :: arcs[k].from < n && arcs[k].to < n && arcs[k].from != arcs[k].to
  }

  ghost predicate Within(arcs: seq<FlowArc>, f: seq<nat>) {
    |f| == |arcs| && forall k {:trigger f[k]} | 0 <= k < |f| :: f[k] <= arcs[k].capacity
  }

  /** The residual network in which arc k already carries f[k]. */
  ghost function Built(n: nat, arcs: seq<FlowArc>, f: seq<nat>): (g: MaxFlow.Residual)
    requires Placeable(n, arcs) && Within(arcs, f)
    ensures |g| == n
  {
    if arcs == [] then seq(n, _ => [])
    else
      var k := |arcs| - 1;
      assert arcs[k].from < n && f[k] <= arcs[k].capacity;
      MaxFlow.Extend(Built(n, arcs[..k], f[..k]), arcs[k].from, arcs[k].to, arcs[k].capacity - f[k], f[k])
  }

  ghost function Idle(arcs: seq<FlowArc>): seq<nat> {
    seq(|arcs|, _ => 0)
  }

  /** The residual network stands for the listed arcs before anything is pushed. */
  ghost predicate Represents(g: MaxFlow.Residual, arcs: seq<FlowArc>) {
    Placeable(|g|, arcs) && g == Built(|g|, arcs, Idle(arcs))
  }

  ghost function Lines(arcs: seq<FlowArc>): (r: seq<Arc>)
    ensures |r| == |arcs|
  {
    seq(|arcs|, k requires 0 <= k < |arcs| => Arc(arcs[k].from, arcs[k].to, 0))
  }

  /** Every cut has the capacity of its arcs less what the flow carries over it. */
  lemma {:induction false} BuiltCut(n: nat, arcs: seq<FlowArc>, f: seq<nat>)
    requires Placeable(n, arcs) && Within(arcs, f)
    ensures MaxFlow.Paired(Built(n, arcs, f))
    ensures forall side :: MaxFlow.Cut(Built(n, arcs, f), side) == Crossing(arcs, side) - Net(Lines(arcs), f, side)
    decreases |arcs|
  {
    if arcs == [] {
      forall side
        ensures MaxFlow.Cut(Built(n, arcs, f), side) == 0
      {
        MaxFlow.EmptyCut(Built(n, arcs, f), side, n);
      }
    } else {
      var k := |arcs| - 1;
      var init, g := arcs[..k], f[..k];
      assert arcs[k].from < n && f[k] <= arcs[k].capacity;
      BuiltCut(n, init, g);
      assert Lines(arcs)[..k] == Lines(init);
      MaxFlow.ArcAdded(Built(n, init, g), arcs[k].from, arcs[k].to, arcs[k].capacity - f[k], f[k]);
    }
  }

  lemma {:induction false} IdleNet(arcs: seq<FlowArc>, side: set<nat>)
    ensures Net(Lines(arcs), Idle(arcs), side) == 0
    decreases |arcs|
  {
    if arcs != [] {
      var k := |arcs| - 1;
      IdleNet(arcs[..k], side);
      assert Lines(arcs)[..k] == Lines(arcs[..k]) && Idle(arcs)[..k] == Idle(arcs[..k]);
    }
  }

  // ----- the flow a residual network carries -----

  ghost function Shortened(h: MaxFlow.Residual, from: nat, to: nat): MaxFlow.Residual
    requires from < |h| && to < |h| && from != to && h[from] != [] && h[to] != []
  {
    h[from := h[from][..|h[from]| - 1]][to := h[to][..|h[to]| - 1]]
  }

  lemma {:induction false} ShortenedKeeps(g: MaxFlow.Residual, from: nat, to: nat, capacity: nat, h: MaxFlow.Residual)
    requires MaxFlow.Paired(g) && from < |g| && to < |g| && from != to
    requires MaxFlow.SumsKept(MaxFlow.Extend(g, from, to, capacity, 0), h)
    ensures h[from] != [] && h[to] != [] && MaxFlow.SumsKept(g, Shortened(h, from, to))
    ensures var back := h[to][|g[to]|].capacity;
            back <= capacity && h == MaxFlow.Extend(Shortened(h, from, to), from, to, capacity - back, back)
  {
    var e, s := MaxFlow.Extend(g, from, to, capacity, 0), Shortened(h, from, to);
    assert |h[from]| == |g[from]| + 1 && |h[to]| == |g[to]| + 1;
    forall x, a | 0 <= x < |g| && 0 <= a < |g[x]|
      ensures MaxFlow.SumAt(g, x, a) == MaxFlow.SumAt(s, x, a)
    {
      assert MaxFlow.PairedAt(g, x, a);
      assert MaxFlow.SumAt(e, x, a) == MaxFlow.SumAt(h, x, a);
    }
    assert MaxFlow.SumAt(e, from, |g[from]|) == MaxFlow.SumAt(h, from, |g[from]|);
    LastArcs(e, h, g, from, to, capacity);
  }

  lemma LastArcs(e: MaxFlow.Residual, h: MaxFlow.Residual, g: MaxFlow.Residual, from: nat, to: nat, capacity: nat)
    requires from < |g| && to < |g| && from != to && e == MaxFlow.Extend(g, from, to, capacity, 0)
    requires MaxFlow.SameShape(e, h)
             && MaxFlow.SumAt(e, from, |g[from]|) == MaxFlow.SumAt(h, from, |g[from]|)
    ensures |h[from]| == |g[from]| + 1 && |h[to]| == |g[to]| + 1
    ensures var back := h[to][|g[to]|].capacity;
            back <= capacity && h == MaxFlow.Extend(Shortened(h, from, to), from, to, capacity - back, back)
  {
    var back := h[to][|g[to]|].capacity;
    assert h[from] == h[from][..|g[from]|] + [h[from][|g[from]|]] && h[to] == h[to][..|g[to]|] + [h[to][|g[to]|]];
  }

  /**
    Whatever was pushed, the residual network is one in which every arc carries something between 0 and its capacity.
   */
  lemma {:induction false} FlowOf(n: nat, arcs: seq<FlowArc>, h: MaxFlow.Residual) returns (f: seq<nat>)
    requires Placeable(n, arcs) && MaxFlow.SumsKept(Built(n, arcs, Idle(arcs)), h)
    ensures Within(arcs, f) && h == Built(n, arcs, f)
    decreases |arcs|
  {
    if arcs == [] {
      f := [];
      assert h == Built(n, arcs, f);
    } else {
      var k := |arcs| - 1;
      var init, from, to := arcs[..k], arcs[k].from, arcs[k].to;
      assert Idle(arcs)[..k] == Idle(init);
      BuiltCut(n, init, Idle(init));
      var g := Built(n, init, Idle(init));
      ShortenedKeeps(g, from, to, arcs[k].capacity, h);
      var f0 := FlowOf(n, init, Shortened(h, from, to));
      f := f0 + [h[to][|g[to]|].capacity];
      assert f[..k] == f0;
    }
  }
}
