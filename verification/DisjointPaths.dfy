/** The max-flow certificate for disjointness requirements (src/planner.cpp:903-948). */
module DisjointPaths {
  import opened Paths
  import opened Finite
  import opened FlowNetworks
  import opened FlowFamilies
  import MaxFlow

  ghost predicate CrossesWith(arcs: seq<FlowArc>, side: set<nat>, item: Item) {
    exists k :: 0 <= k < |arcs| && arcs[k].item == item && arcs[k].from in side && arcs[k].to !in side
        && arcs[k].capacity >= 1
  }

  /** Distinct items that each cross the cut are bounded by the capacity of the cut. */
  lemma {:induction false} ItemsFitCut(arcs: seq<FlowArc>, side: set<nat>, items: seq<Item>)
    requires Injective(items) && forall i | 0 <= i < |items| :: CrossesWith(arcs, side, items[i])
    ensures |items| <= Crossing(arcs, side)
    decreases |arcs|
  {
    if arcs == [] {
      assert |items| > 0 ==> CrossesWith(arcs, side, items[0]);
    } else {
      var last := arcs[|arcs| - 1];
      var init := arcs[..|arcs| - 1];
      if j :| 0 <= j < |items| && items[j] == last.item && !CrossesWith(init, side, items[j]) {
        var rest := items[..j] + items[j + 1..];
        assert CrossesWith(arcs, side, items[j]);
        forall i | 0 <= i < |rest|
          ensures CrossesWith(init, side, rest[i])
        {
          Shorten(arcs, side, rest[i]);
        }
        ItemsFitCut(init, side, rest);
      } else {
        forall i | 0 <= i < |items|
          ensures CrossesWith(init, side, items[i])
        {
          Shorten(arcs, side, items[i]);
        }
        ItemsFitCut(init, side, items);
      }
    }
  }

  lemma Shorten(arcs: seq<FlowArc>, side: set<nat>, item: Item)
    requires arcs != [] && CrossesWith(arcs, side, item)
    ensures CrossesWith(arcs[..|arcs| - 1], side, item) || item == arcs[|arcs| - 1].item
  {
    var k :| 0 <= k < |arcs| && arcs[k].item == item && arcs[k].from in side && arcs[k].to !in side
        && arcs[k].capacity >= 1;
    if k < |arcs| - 1 {
      assert arcs[..|arcs| - 1][k] == arcs[k];
    }
  }

  /** The flow network carries every edge a path may use and, in node mode, one unit through every interior node. */
  ghost predicate Covers(q: Query, nodeMode: bool, arcs: seq<FlowArc>) {
    && (forall e | e in q.usable && e < |q.arcs| && q.arcs[e].from in q.allowed ::
          FlowArc(Tail(nodeMode, q.arcs[e].from), Head(nodeMode, q.arcs[e].to), 1, EdgeItem(e)) in arcs)
    && (nodeMode ==> forall v | v in q.allowed && v != q.source && v != q.target ::
          FlowArc(Head(nodeMode, v), Tail(nodeMode, v), 1, NodeItem(v)) in arcs)
  }

  /** Every path crosses every cut with some resource it occupies. */
  lemma {:induction false} PathCrosses(q: Query, nodeMode: bool, arcs: seq<FlowArc>, side: set<nat>, p: Path, i: nat)
    returns (item: Item)
    requires q.Valid() && q.source in q.allowed && Covers(q, nodeMode, arcs)
    requires q.Walk(q.source, p, q.target) && q.Simple(q.source, p) && i < |p|
    requires Tail(nodeMode, q.NodeAt(q.source, p, i)) in side && Head(nodeMode, q.target) !in side
    ensures Occupies(q, nodeMode, p, item) && CrossesWith(arcs, side, item)
    decreases |p| - i
  {
    var e := p[i];
    var u := q.NodeAt(q.source, p, i);
    var v := q.NodeAt(q.source, p, i + 1);
    assert q.arcs[e].from == u && q.arcs[e].to == v && e in q.usable;
    assert u in q.allowed by {
      if i > 0 {
        assert p[i - 1] in q.usable;
      }
    }
    if Head(nodeMode, v) !in side {
      item := EdgeItem(e);
      assert FlowArc(Tail(nodeMode, u), Head(nodeMode, v), 1, EdgeItem(e)) in arcs;
    } else {
      assert i + 1 < |p|;
      if Tail(nodeMode, v) !in side {
        item := NodeItem(v);
        assert q.NodeAt(q.source, p, 0) != v && v != q.NodeAt(q.source, p, |p|);
        assert FlowArc(Head(nodeMode, v), Tail(nodeMode, v), 1, NodeItem(v)) in arcs;
      } else {
        item := PathCrosses(q, nodeMode, arcs, side, p, i + 1);
      }
    }
  }

  /** One crossing resource per path of the family, all different. */
  lemma {:induction false} FamilyCrosses(q: Query, nodeMode: bool, arcs: seq<FlowArc>, side: set<nat>,
      family: seq<Path>, n: nat)
    returns (items: seq<Item>)
    requires q.Valid() && q.source in q.allowed && q.source != q.target && Covers(q, nodeMode, arcs)
    requires Family(q, nodeMode, family) && n <= |family|
    requires Tail(nodeMode, q.source) in side && Head(nodeMode, q.target) !in side
    ensures |items| == n && Injective(items)
    ensures forall k | 0 <= k < n :: Occupies(q, nodeMode, family[k], items[k]) && CrossesWith(arcs, side, items[k])
  {
    items := [];
    if n > 0 {
      items := FamilyCrosses(q, nodeMode, arcs, side, family, n - 1);
      assert family[n - 1] != [];
      var item := PathCrosses(q, nodeMode, arcs, side, family[n - 1], 0);
      forall k | 0 <= k < n - 1
        ensures items[k] != item
      {
        assert Occupies(q, nodeMode, family[n - 1], item);
        assert !Occupies(q, nodeMode, family[k], item);
      }
      items := items + [item];
    }
  }

  lemma {:induction false} FamilyFitsCut(q: Query, nodeMode: bool, arcs: seq<FlowArc>, side: set<nat>,
      family: seq<Path>)
    requires q.Valid() && q.source in q.allowed && q.source != q.target && Covers(q, nodeMode, arcs)
    requires Family(q, nodeMode, family)
    requires Tail(nodeMode, q.source) in side && Head(nodeMode, q.target) !in side
    ensures |family| <= Crossing(arcs, side)
  {
    var items := FamilyCrosses(q, nodeMode, arcs, side, family, |family|);
    ItemsFitCut(arcs, side, items);
  }

  /** Adds one arc to the network and to its ghost description. */
  method AddItem(flow: MaxFlow.Network, arc: FlowArc, ghost arcs: seq<FlowArc>) returns (ghost arcs': seq<FlowArc>)
    requires Represents(flow.graph, arcs) && arc.from < |flow.graph| && arc.to < |flow.graph| && arc.from != arc.to
    modifies flow`graph
    ensures arcs' == arcs + [arc] && Represents(flow.graph, arcs') && |flow.graph| == old(|flow.graph|)
  {
    BuiltCut(|flow.graph|, arcs, Idle(arcs));
    flow.AddArc(arc.from, arc.to, arc.capacity);
    arcs' := arcs + [arc];
    assert arcs'[..|arcs|] == arcs && Idle(arcs')[..|arcs|] == Idle(arcs);
  }

  /** Node splitting: one unit through every eligible interior node, `limit` through the endpoints. */
  method AddNodes(flow: MaxFlow.Network, q: Query, limit: nat) returns (ghost arcs: seq<FlowArc>)
    requires q.Valid() && |flow.graph| == 2 * q.nodeCount && Represents(flow.graph, [])
    modifies flow`graph
    ensures Represents(flow.graph, arcs) && |flow.graph| == old(|flow.graph|)
    ensures Genuine(q, true, arcs) && forall k | 0 <= k < |arcs| :: arcs[k].item.NodeItem?
    ensures forall v | v in q.allowed && v != q.source && v != q.target ::
              FlowArc(Head(true, v), Tail(true, v), 1, NodeItem(v)) in arcs
  {
    arcs := [];
    for node := 0 to q.nodeCount
      invariant Represents(flow.graph, arcs) && |flow.graph| == old(|flow.graph|)
      invariant Genuine(q, true, arcs) && forall k | 0 <= k < |arcs| :: arcs[k].item.NodeItem? && arcs[k].item.v < node
      invariant forall v: nat | v < node && v in q.allowed && v != q.source && v != q.target ::
                  FlowArc(Head(true, v), Tail(true, v), 1, NodeItem(v)) in arcs
    {
      if node in q.allowed {
        var capacity := if node == q.source || node == q.target then limit else 1;
        arcs := AddItem(flow, FlowArc(Head(true, node), Tail(true, node), capacity, NodeItem(node)), arcs);
      }
    }
  }

  method AddEdges(flow: MaxFlow.Network, q: Query, nodeMode: bool, ghost arcs0: seq<FlowArc>)
      returns (ghost arcs: seq<FlowArc>)
    requires q.Valid() && |flow.graph| == (if nodeMode then 2 * q.nodeCount else q.nodeCount)
    requires Represents(flow.graph, arcs0) && Genuine(q, nodeMode, arcs0)
    requires forall k | 0 <= k < |arcs0| :: arcs0[k].item.NodeItem?
    modifies flow`graph
    ensures Represents(flow.graph, arcs) && |flow.graph| == old(|flow.graph|) && arcs0 <= arcs
    ensures Genuine(q, nodeMode, arcs)
    ensures forall e | e in q.usable && q.arcs[e].from in q.allowed ::
              FlowArc(Tail(nodeMode, q.arcs[e].from), Head(nodeMode, q.arcs[e].to), 1, EdgeItem(e)) in arcs
  {
    arcs := arcs0;
    for edge := 0 to |q.arcs|
      invariant Represents(flow.graph, arcs) && |flow.graph| == old(|flow.graph|) && arcs0 <= arcs
      invariant Genuine(q, nodeMode, arcs)
      invariant forall k | 0 <= k < |arcs| :: arcs[k].item.EdgeItem? ==> arcs[k].item.e < edge
      invariant forall e: nat | e < edge && e in q.usable && q.arcs[e].from in q.allowed ::
                  FlowArc(Tail(nodeMode, q.arcs[e].from), Head(nodeMode, q.arcs[e].to), 1, EdgeItem(e)) in arcs
    {
      if edge in q.usable && q.arcs[edge].from in q.allowed {
        var tail, head := Tail(nodeMode, q.arcs[edge].from), Head(nodeMode, q.arcs[edge].to);
        arcs := AddItem(flow, FlowArc(tail, head, 1, EdgeItem(edge)), arcs);
      }
    }
  }

  /**
    The certificate is the size of a largest family of pairwise edge-disjoint (node mode: also interior-node-disjoint)
    simple paths between the endpoints, or the limit if that is smaller.
   */
  method MaxDisjointPaths(q: Query, nodeMode: bool, limit: nat) returns (r: nat)
    requires q.Valid() && q.source in q.allowed && 2 * q.nodeCount < MaxFlow.UNREACHABLE
    ensures r <= limit
    ensures r < limit && q.source != q.target ==> forall family | Family(q, nodeMode, family) :: |family| <= r
    ensures q.source != q.target ==> exists family :: Family(q, nodeMode, family) && |family| == r
  {
    var flow := new MaxFlow.Network(if nodeMode then 2 * q.nodeCount else q.nodeCount);
    ghost var arcs: seq<FlowArc> := [];
    if nodeMode {
      arcs := AddNodes(flow, q, limit);
    }
    arcs := AddEdges(flow, q, nodeMode, arcs);
    assert Covers(q, nodeMode, arcs);
    ghost var g := flow.graph;
    BuiltCut(|g|, arcs, Idle(arcs));
    r := flow.Run(Tail(nodeMode, q.source), Head(nodeMode, q.target), limit);
    if q.source != q.target {
      ghost var family := FamilyFromRun(q, nodeMode, arcs, g, flow.graph, r);
      if r < limit {
        UpperBound(q, nodeMode, arcs, g, r);
      }
    }
  }

  lemma {:induction false} UpperBound(q: Query, nodeMode: bool, arcs: seq<FlowArc>, g: MaxFlow.Residual, r: nat)
    requires q.Valid() && q.source in q.allowed && q.source != q.target && Covers(q, nodeMode, arcs)
    requires Represents(g, arcs)
    requires exists side :: Tail(nodeMode, q.source) in side && Head(nodeMode, q.target) !in side
               && MaxFlow.Cut(g, side) == r
    ensures forall family | Family(q, nodeMode, family) :: |family| <= r
  {
    var side :| Tail(nodeMode, q.source) in side && Head(nodeMode, q.target) !in side && MaxFlow.Cut(g, side) == r;
    BuiltCut(|g|, arcs, Idle(arcs));
    IdleNet(arcs, side);
    forall family | Family(q, nodeMode, family)
      ensures |family| <= r
    {
      FamilyFitsCut(q, nodeMode, arcs, side, family);
    }
  }
}
