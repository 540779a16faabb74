/** Reading a family of disjoint paths off a flow (src/planner.cpp:903-948). */
module FlowFamilies {
  import opened Paths
  import opened Finite
  import opened FlowPaths
  import opened FlowNetworks
  import MaxFlow

  /** The arc stands for an edge that paths may use or, in node mode, for an eligible node. */
  ghost predicate GenuineArc(q: Query, nodeMode: bool, a: FlowArc) {
    match a.item
    case EdgeItem(e) =>
      && e in q.usable && e < |q.arcs| && q.arcs[e].from in q.allowed
      && a == FlowArc(Tail(nodeMode, q.arcs[e].from), Head(nodeMode, q.arcs[e].to), 1, EdgeItem(e))
    case NodeItem(v) =>
      && nodeMode && v in q.allowed && a.from == Head(true, v) && a.to == Tail(true, v)
      && (v != q.source && v != q.target ==> a.capacity == 1)
  }

  /** The network holds nothing but such arcs, each once. */
  ghost predicate Genuine(q: Query, nodeMode: bool, arcs: seq<FlowArc>) {
    && (forall k {:trigger GenuineArc(q, nodeMode, arcs[k])} | 0 <= k < |arcs| :: GenuineArc(q, nodeMode, arcs[k]))
    && (forall i, j | 0 <= i < j < |arcs| :: arcs[i].item != arcs[j].item)
  }

  /** The node a node of the network belongs to. */
  function Base(nodeMode: bool, x: nat): nat {
    if nodeMode then x / 2 else x
  }

  /** The edges a route through the network crosses. */
  ghost function EdgesIn(arcs: seq<FlowArc>, route: Path): Path
    requires forall x | 0 <= x < |route| :: route[x] < |arcs|
  {
    if route == [] then []
    else
      EdgesIn(arcs, route[..|route| - 1]) + EdgeOf(arcs[route[|route| - 1]])
  }

  /** A route through the network, projected, is a walk in the fabric. */
  lemma {:induction false} RouteWalks(q: Query, nodeMode: bool, arcs: seq<FlowArc>, net: Query, route: Path, i: nat)
    requires q.Valid() && Genuine(q, nodeMode, arcs) && net.arcs == Lines(arcs)
    requires net.Walk(Tail(nodeMode, q.source), route, Head(nodeMode, q.target)) && i <= |route|
    ensures q.Walk(q.source, EdgesIn(arcs, route[..i]), Base(nodeMode, net.NodeAt(Tail(nodeMode, q.source), route, i)))
  {
    var s := Tail(nodeMode, q.source);
    if i > 0 {
      RouteWalks(q, nodeMode, arcs, net, route, i - 1);
      var k := route[i - 1];
      assert route[..i][..i - 1] == route[..i - 1] && route[..i][i - 1] == k;
      assert GenuineArc(q, nodeMode, arcs[k]) && net.arcs[k].from == net.NodeAt(s, route, i - 1);
      ArcWalks(q, nodeMode, arcs[k], EdgesIn(arcs, route[..i - 1]));
    }
  }

  ghost function EdgeOf(a: FlowArc): Path {
    match a.item
    case EdgeItem(e) => [e]
    case NodeItem(_) => []
  }

  lemma BaseOf(nodeMode: bool, v: nat)
    ensures Base(nodeMode, Tail(nodeMode, v)) == v && Base(nodeMode, Head(nodeMode, v)) == v
  {
  }

  lemma ArcWalks(q: Query, nodeMode: bool, a: FlowArc, p: Path)
    requires q.Valid() && GenuineArc(q, nodeMode, a) && q.Walk(q.source, p, Base(nodeMode, a.from))
    ensures q.Walk(q.source, p + EdgeOf(a), Base(nodeMode, a.to))
  {
    match a.item
    case EdgeItem(e) =>
      BaseOf(nodeMode, q.arcs[e].from);
      BaseOf(nodeMode, q.arcs[e].to);
      WalkSnoc(q, q.source, p, q.arcs[e].from, e);
    case NodeItem(v) =>
      BaseOf(nodeMode, v);
      assert p + [] == p;
  }

  lemma {:induction false} EdgeOnRoute(arcs: seq<FlowArc>, route: Path, e: nat) returns (x: nat)
    requires (forall x | 0 <= x < |route| :: route[x] < |arcs|) && e in EdgesIn(arcs, route)
    ensures x < |route| && arcs[route[x]].item == EdgeItem(e)
    decreases |route|
  {
    var last := |route| - 1;
    if e in EdgesIn(arcs, route[..last]) {
      x := EdgeOnRoute(arcs, route[..last], e);
    } else {
      x := last;
    }
  }

  /** Some arc of the route stands for the resource, and carries one unit at most. */
  ghost predicate OnRoute(arcs: seq<FlowArc>, route: Path, item: Item) {
    exists x | 0 <= x < |route| :: route[x] < |arcs| && arcs[route[x]].item == item && arcs[route[x]].capacity == 1
  }

  /** After an edge into an interior node the route passes through that node. */
  lemma {:induction false} NodeOnRoute(q: Query, arcs: seq<FlowArc>, net: Query, route: Path, e: nat)
    requires q.Valid() && Genuine(q, true, arcs) && net.arcs == Lines(arcs)
    requires net.Walk(Tail(true, q.source), route, Head(true, q.target)) && e in EdgesIn(arcs, route)
    requires e < |q.arcs| && q.arcs[e].to != q.target && q.arcs[e].to != q.source
    ensures OnRoute(arcs, route, NodeItem(q.arcs[e].to))
  {
    var s, v := Tail(true, q.source), q.arcs[e].to;
    var x := EdgeOnRoute(arcs, route, e);
    assert GenuineArc(q, true, arcs[route[x]]);
    assert net.NodeAt(s, route, x + 1) == Head(true, v);
    assert x + 1 < |route|;
    var k := route[x + 1];
    assert net.arcs[k].from == net.NodeAt(s, route, x + 1) && GenuineArc(q, true, arcs[k]);
    assert arcs[k].item == NodeItem(v);
  }

  /** Whatever a simple part of the walk occupies, the route carries. */
  lemma {:induction false} OccupiedOnRoute(q: Query, nodeMode: bool, arcs: seq<FlowArc>, net: Query, route: Path,
      p: Path, item: Item)
    requires q.Valid() && Genuine(q, nodeMode, arcs) && net.arcs == Lines(arcs)
    requires net.Walk(Tail(nodeMode, q.source), route, Head(nodeMode, q.target))
    requires q.Walk(q.source, p, q.target) && q.Simple(q.source, p) && forall e | e in p :: e in EdgesIn(arcs, route)
    requires Occupies(q, nodeMode, p, item)
    ensures OnRoute(arcs, route, item)
  {
    match item
    case EdgeItem(e) =>
      var x := EdgeOnRoute(arcs, route, e);
      assert GenuineArc(q, nodeMode, arcs[route[x]]);
    case NodeItem(v) =>
      var i :| 0 < i < |p| && q.NodeAt(q.source, p, i) == v;
      assert v != q.NodeAt(q.source, p, 0) && v != q.NodeAt(q.source, p, |p|);
      assert p[i - 1] in p;
      NodeOnRoute(q, arcs, net, route, p[i - 1]);
  }

  /** p is a simple path along the route. */
  ghost predicate Along(q: Query, nodeMode: bool, arcs: seq<FlowArc>, route: Path, p: Path) {
    && q.Walk(q.source, p, q.target) && q.Simple(q.source, p)
    && forall item | Occupies(q, nodeMode, p, item) :: OnRoute(arcs, route, item)
  }

  lemma {:induction false} PathAlong(q: Query, nodeMode: bool, arcs: seq<FlowArc>, net: Query, route: Path)
      returns (p: Path)
    requires q.Valid() && Genuine(q, nodeMode, arcs) && net.arcs == Lines(arcs)
    requires net.Walk(Tail(nodeMode, q.source), route, Head(nodeMode, q.target))
    ensures Along(q, nodeMode, arcs, route, p)
  {
    RouteWalks(q, nodeMode, arcs, net, route, |route|);
    assert route[..|route|] == route;
    p := SimplePart(q, q.source, EdgesIn(arcs, route), q.target);
    forall item | Occupies(q, nodeMode, p, item)
      ensures OnRoute(arcs, route, item)
    {
      OccupiedOnRoute(q, nodeMode, arcs, net, route, p, item);
    }
  }

  /** One path along each route. */
  lemma {:induction false} PathsAlong(q: Query, nodeMode: bool, arcs: seq<FlowArc>, net: Query, routes: seq<Path>)
      returns (family: seq<Path>)
    requires q.Valid() && Genuine(q, nodeMode, arcs) && net.arcs == Lines(arcs)
    requires forall i {:trigger routes[i]} | 0 <= i < |routes| ::
               net.Walk(Tail(nodeMode, q.source), routes[i], Head(nodeMode, q.target))
    ensures |family| == |routes| && forall i {:trigger family[i]} | 0 <= i < |family| ::
              Along(q, nodeMode, arcs, routes[i], family[i])
    decreases |routes|
  {
    family := [];
    if routes != [] {
      var last := |routes| - 1;
      family := PathsAlong(q, nodeMode, arcs, net, routes[..last]);
      var p := PathAlong(q, nodeMode, arcs, net, routes[last]);
      family := family + [p];
    }
  }

  /** Two routes cannot share a resource that carries one unit. */
  lemma {:induction false} RoutesApart(q: Query, nodeMode: bool, n: nat, arcs: seq<FlowArc>, f: seq<nat>,
      routes: seq<Path>, i: nat, j: nat, item: Item)
    requires Genuine(q, nodeMode, arcs) && Within(arcs, f) && i < j < |routes|
    requires Routes(n, Lines(arcs), f, Tail(nodeMode, q.source), Head(nodeMode, q.target), routes)
    ensures !(OnRoute(arcs, routes[i], item) && OnRoute(arcs, routes[j], item))
  {
  }

  /** A flow of r units through the network yields r disjoint paths. */
  lemma {:induction false} FamilyFromFlow(q: Query, nodeMode: bool, n: nat, arcs: seq<FlowArc>, f: seq<nat>, r: nat)
      returns (family: seq<Path>)
    requires q.Valid() && q.source != q.target && Genuine(q, nodeMode, arcs) && Placeable(n, arcs) && Within(arcs, f)
    requires Flow(Lines(arcs), f, Tail(nodeMode, q.source), Head(nodeMode, q.target), r)
    requires Tail(nodeMode, q.source) < n && Head(nodeMode, q.target) < n
    ensures Family(q, nodeMode, family) && |family| == r
  {
    var s, t := Tail(nodeMode, q.source), Head(nodeMode, q.target);
    var routes := Decompose(n, Lines(arcs), f, s, t, r);
    family := PathsAlong(q, nodeMode, arcs, Carrying(n, Lines(arcs), f, s, t), routes);
    forall k, l, item | 0 <= k < l < |family|
      ensures !(Occupies(q, nodeMode, family[k], item) && Occupies(q, nodeMode, family[l], item))
    {
      RoutesApart(q, nodeMode, n, arcs, f, routes, k, l, item);
      assert Along(q, nodeMode, arcs, routes[k], family[k]) && Along(q, nodeMode, arcs, routes[l], family[l]);
    }
  }

  /** What the flow routine leaves behind yields as many disjoint paths as it reports. */
  lemma {:induction false} FamilyFromRun(q: Query, nodeMode: bool, arcs: seq<FlowArc>, g: MaxFlow.Residual,
      h: MaxFlow.Residual, r: nat) returns (family: seq<Path>)
    requires q.Valid() && q.source != q.target && Genuine(q, nodeMode, arcs) && Represents(g, arcs)
    requires MaxFlow.SumsKept(g, h) && Tail(nodeMode, q.source) < |g| && Head(nodeMode, q.target) < |g|
    requires forall side :: MaxFlow.Cut(h, side) ==
               MaxFlow.Cut(g, side) - MaxFlow.Crossed(r, Tail(nodeMode, q.source), Head(nodeMode, q.target), side)
    ensures Family(q, nodeMode, family) && |family| == r
  {
    var f := FlowOf(|g|, arcs, h);
    BuiltCut(|g|, arcs, f);
    BuiltCut(|g|, arcs, Idle(arcs));
    forall side
      ensures Net(Lines(arcs), f, side) ==
              MaxFlow.Crossed(r, Tail(nodeMode, q.source), Head(nodeMode, q.target), side)
    {
      IdleNet(arcs, side);
      assert MaxFlow.Cut(h, side) == MaxFlow.Cut(g, side)
             - MaxFlow.Crossed(r, Tail(nodeMode, q.source), Head(nodeMode, q.target), side);
    }
    family := FamilyFromFlow(q, nodeMode, |g|, arcs, f, r);
  }
}
