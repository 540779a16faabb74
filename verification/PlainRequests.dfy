/** Small requests in which every edge may be used, for showing what the planner does on concrete inputs. */
module PlainRequests {
  import opened Saturating
  import opened Paths
  import opened Candidates
  import opened Requests
  import opened Planner

  /** Hops every plain request allows. */
  const HOPS: nat := 8

  /** `pairs` logical edges from node 0 to the target node; an edge costs `rate` per unit of latency. */
  datatype Sketch = Sketch(nodes: nat, edges: seq<Edge>, pairs: nat, target: nat, wanted: nat, diversity: Diversity,
                           rate: nat, demand: nat)
  {
    /** The sketch describes a valid request in which every edge carries the demand. */
    predicate Valid() {
      && 0 < nodes <= MAX_NODES && target < nodes && pairs > 0 && 1 <= wanted <= MAX_PATHS && 1 <= rate <= 1000
      && demand <= MAX_CAPACITY && forall e | 0 <= e < |edges| :: EdgeValid(edges[e])
    }

    predicate EdgeValid(e: Edge) {
      && e == PlainEdge(e.from, e.to, e.capacity, e.latency, e.domain)
      && e.from < nodes && e.to < nodes && e.from != e.to
      && 0 < e.capacity <= MAX_CAPACITY && demand <= e.capacity && e.latency <= MAX_CAPACITY
      && (e.domain.Some? ==> e.domain.value == 0)
    }
  }

  function PlainEdge(from: nat, to: nat, capacity: nat, latency: nat, domain: Option<nat>): Edge {
    Edge(from, to, capacity, 0, latency, None, domain, MEASURED, true)
  }

  function PlainPolicy(wanted: nat, diversity: Diversity, rate: nat): Policy {
    Policy(HOPS, wanted, Shared, diversity, 0, AnyEvidence, 1000 * rate, 0, COST_CEILING, false, 1, {}, {}, {}, {})
  }

  /** Participant 2i sits on node 0 and exchanges with participant 2i + 1 on the target node. */
  function Plain(k: Sketch): Request {
    Request(Fabric(seq(k.nodes, _ => Node(None, true)), k.edges, [FailureDomain(None, 0)]),
            PlainPolicy(k.wanted, k.diversity, k.rate),
            seq(k.pairs, i requires 0 <= i < k.pairs => LogicalEdge(2 * i, 2 * i + 1)), seq(k.pairs, _ => 0), 1,
                k.demand,
            map p: nat | p < 2 * k.pairs :: Binding(if p % 2 == 0 then 0 else k.target, {}, {}))
  }

  lemma PlainIsValid(k: Sketch)
    requires k.Valid()
    ensures Plain(k).Valid() && forall i | 0 <= i < k.pairs :: Plain(k).Bound(i)
  {
    forall e | 0 <= e < |k.edges|
      ensures Plain(k).fabric.EdgeOk(k.edges[e])
    {
      assert k.EdgeValid(k.edges[e]);
    }
  }

  /** What every logical edge of a plain request is judged by. */
  ghost predicate Shape(k: Sketch, t: Terms) {
    && t.Valid() && t.demand <= COST_CEILING && t.demand == PerPathDemand(Plain(k))
    && t.q.source == 0 && t.q.target == k.target && t.q.hopLimit == HOPS && t.q.maxCost == COST_CEILING
       && 0 in t.q.allowed
    && t.wanted == k.wanted && t.disjointness == Shared && t.diversity == k.diversity
    && |t.q.arcs| == |k.edges| == |t.capacity| == |t.spare| == |t.domain|
    && forall e {:trigger ShapeAt(k, t, e)} | 0 <= e < |k.edges| :: ShapeAt(k, t, e)
  }

  ghost predicate ShapeAt(k: Sketch, t: Terms, e: nat)
    requires e < |t.q.arcs| && |t.q.arcs| == |k.edges| == |t.capacity| == |t.spare| == |t.domain|
  {
    var edge := k.edges[e];
    && e in t.q.usable && t.q.arcs[e] == Arc(edge.from, edge.to, edge.latency * k.rate)
    && t.capacity[e] == t.spare[e] == edge.capacity && t.domain[e] == edge.domain
  }

  lemma PlainCost(k: Sketch, e: Edge)
    requires e.latency <= MAX_CAPACITY && 1 <= k.rate <= 1000
    ensures EdgeCost(PlainPolicy(k.wanted, k.diversity, k.rate), e) == e.latency * k.rate
  {
    var x := e.latency * k.rate;
    Product(e.latency, k.rate);
    assert e.latency * (1000 * k.rate) == 1000 * x;
    Thousandths(x);
  }

  lemma Thousandths(x: nat)
    ensures 1000 * x / 1000 == x
  {
  }

  lemma Product(a: nat, b: nat)
    requires a <= MAX_CAPACITY && b <= 1000
    ensures a * b <= 1000 * MAX_CAPACITY
  {
    ProductGrows(a, b, 1000);
  }

  lemma ProductGrows(a: nat, b: nat, c: nat)
    requires b <= c
    ensures a * b <= a * c
  {
  }

  lemma PlainShape(k: Sketch, e: nat)
    requires k.Valid() && Plain(k).Valid() && e < |k.edges|
    ensures ShapeAt(k, TermsFor(Plain(k), Binding(0, {}, {}), Binding(k.target, {}, {})), e)
  {
    assert k.EdgeValid(k.edges[e]);
    PlainCost(k, k.edges[e]);
    if k.demand > 0 {
      DemandShare(k.demand, k.wanted);
    }
  }

  /** All logical edges of a plain request ask the same question. */
  lemma PlainTerms(k: Sketch, i: nat)
    requires k.Valid() && i < k.pairs
    ensures var r := Plain(k);
            && r.Valid() && r.Bound(i) && TermsAt(r, i) == TermsFor(r, Binding(0, {}, {}), Binding(k.target, {}, {}))
            && Shape(k, TermsAt(r, i))
  {
    PlainIsValid(k);
    var r := Plain(k);
    assert r.logical[i] == LogicalEdge(2 * i, 2 * i + 1);
    assert r.bindings[2 * i] == Binding(0, {}, {}) && r.bindings[2 * i + 1] == Binding(k.target, {}, {});
    TermsAtValid(r, i);
    forall e | 0 <= e < |k.edges|
      ensures ShapeAt(k, TermsAt(r, i), e)
    {
      PlainShape(k, e);
    }
  }
}
