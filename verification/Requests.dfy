/** The planning request and the static filters of src/planner.cpp:175-313 and 1783-1850. */
module Requests {
  import opened Saturating
  import opened Paths
  import opened Candidates

  /** Largest capacity, latency and demand the model admits (include/cpath/limits.hpp). */
  const MAX_CAPACITY: nat := 0x100_0000_0000
  const MAX_NODES: nat := 65536
  const MAX_HOPS: nat := 256
  const MAX_PATHS: nat := 8
  const MAX_WEIGHT: nat := 1_000_000
  const SITE: nat := 4

  datatype EvidenceFloor = AnyEvidence | SyntheticOrBetter | MeasuredOnly

  datatype Node = Node(tier: Option<nat>, eligible: bool)

  /** `kind` ranks device 0, host 1, rack 2, pod 3, site 4. */
  datatype FailureDomain = FailureDomain(parent: Option<nat>, kind: nat)

  datatype Edge = Edge(from: nat, to: nat, capacity: nat, reserved: nat, latency: nat, tier: Option<nat>,
                       domain: Option<nat>, evidence: nat, eligible: bool)

  /** Nodes, edges and domains are named by their position in canonical order. */
  datatype Fabric = Fabric(nodes: seq<Node>, edges: seq<Edge>, domains: seq<FailureDomain>)
  {
    /** What FabricGraph::validate establishes (src/fabric.cpp:379-478). */
    predicate Valid() {
      && |nodes| <= MAX_NODES
      && (forall e | 0 <= e < |edges| :: EdgeOk(edges[e]))
      && (forall d | 0 <= d < |domains| :: DomainOk(d))
    }

    predicate EdgeOk(e: Edge) {
      && e.from < |nodes| && e.to < |nodes| && e.from != e.to
      && e.reserved <= e.capacity <= MAX_CAPACITY && e.latency <= MAX_CAPACITY && e.evidence <= MEASURED
      && (e.domain.Some? ==> e.domain.value < |domains|)
    }

    predicate DomainOk(d: nat)
      requires d < |domains|
    {
      && domains[d].kind <= SITE
      && (domains[d].parent.Some? ==>
            domains[d].parent.value < |domains| && domains[domains[d].parent.value].kind > domains[d].kind)
    }

    /** The domain and everything that contains it; strict containment bounds the chain. */
    function Chain(d: nat): seq<nat>
      requires Valid() && d < |domains|
      decreases SITE + 1 - domains[d].kind
    {
      assert DomainOk(d);
      match domains[d].parent
      case None => [d]
      case Some(p) => assert DomainOk(p); [d] + Chain(p)
    }

    predicate Contains(ancestor: nat, d: nat)
      requires Valid() && d < |domains|
    {
      ancestor in Chain(d)
    }

    /** First entry of the chain at the given kind, else the domain itself. */
    function AtLevel(d: nat, level: nat): nat
      requires Valid() && d < |domains|
    {
      FirstOfKind(Chain(d), level, d)
    }

    function FirstOfKind(chain: seq<nat>, level: nat, default: nat): nat {
      if chain == [] then default
      else if chain[0] < |domains| && domains[chain[0]].kind == level then chain[0]
      else FirstOfKind(chain[1..], level, default)
    }
  }

  datatype Policy = Policy(maxHops: nat, paths: nat, disjointness: Disjointness, diversity: Diversity, level: nat,
                           evidence: EvidenceFloor, latencyWeight: nat, congestionWeight: nat, maxPathCost: nat,
                           allowUnverified: bool, maxExpansions: nat, forbiddenNodes: set<nat>,
                               forbiddenTiers: set<nat>,
                           forbiddenDomains: set<nat>, allowedTiers: set<nat>)
  {
    /** What Policy::validate establishes (src/policy.cpp:122-188). */
    predicate Valid() {
      && 1 <= maxHops <= MAX_HOPS && 1 <= paths <= MAX_PATHS
      && latencyWeight <= MAX_WEIGHT && congestionWeight <= MAX_WEIGHT && 1 <= maxPathCost <= COST_CEILING
    }
  }

  /** Physical endpoint of a participant with its own restrictions; an empty set restricts nothing. */
  datatype Binding = Binding(node: nat, domains: set<nat>, tiers: set<nat>)

  datatype LogicalEdge = LogicalEdge(src: nat, dst: nat)

  datatype Request = Request(fabric: Fabric, policy: Policy, logical: seq<LogicalEdge>, stage: seq<nat>,
      stageCount: nat,
                             demand: nat, bindings: map<nat, Binding>)
  {
    predicate Valid() {
      && fabric.Valid() && policy.Valid() && demand <= MAX_CAPACITY
      && |logical| == |stage| && |logical| > 0 && (forall i | 0 <= i < |stage| :: stage[i] < stageCount)
      && (forall p | p in bindings :: bindings[p].node < |fabric.nodes|)
    }

    predicate Bound(i: nat)
      requires i < |logical|
    {
      logical[i].src in bindings && logical[i].dst in bindings
    }
  }

  // ----- static eligibility -----

  predicate EvidenceSatisfies(observed: nat, floor: EvidenceFloor) {
    match floor
    case AnyEvidence => true
    case SyntheticOrBetter => observed != 0
    case MeasuredOnly => observed == MEASURED
  }

  predicate TierForbidden(p: Policy, tier: Option<nat>) {
    tier.Some? && tier.value in p.forbiddenTiers
  }

  predicate DomainForbidden(f: Fabric, p: Policy, domain: Option<nat>)
    requires f.Valid() && (domain.Some? ==> domain.value < |f.domains|)
  {
    domain.Some? && exists d :: d in p.forbiddenDomains && f.Contains(d, domain.value)
  }

  predicate NodeAllowed(r: Request, v: nat)
    requires v < |r.fabric.nodes|
  {
    var node := r.fabric.nodes[v];
    node.eligible && !TierForbidden(r.policy, node.tier) && v !in r.policy.forbiddenNodes
  }

  /** The policy's conditions on the tier, the failure domain and the evidence of an edge. */
  predicate PolicyAdmits(r: Request, e: nat)
    requires r.Valid() && e < |r.fabric.edges|
  {
    var edge := r.fabric.edges[e];
    assert r.fabric.EdgeOk(edge);
    && !TierForbidden(r.policy, edge.tier)
    && (r.policy.allowedTiers != {} ==> edge.tier.Some? && edge.tier.value in r.policy.allowedTiers)
    && !DomainForbidden(r.fabric, r.policy, edge.domain)
    && EvidenceSatisfies(edge.evidence, r.policy.evidence)
  }

  predicate EdgeAllowed(r: Request, e: nat)
    requires r.Valid() && e < |r.fabric.edges|
  {
    r.fabric.edges[e].eligible && PolicyAdmits(r, e)
  }

  /** Verified capacity not yet committed by an adjacent authority. */
  function Spare(e: Edge): nat {
    if e.capacity == 0 || e.reserved >= e.capacity then 0 else e.capacity - e.reserved
  }

  predicate CapacityUsable(p: Policy, e: Edge) {
    if e.capacity == 0 then p.allowUnverified && e.reserved == 0 else e.reserved < e.capacity
  }

  function Wanted(r: Request): nat {
    if r.policy.paths >= 1 then r.policy.paths else 1
  }

  /** The share of the declared demand each path must carry, rounded up. */
  function PerPathDemand(r: Request): nat {
    if r.demand == 0 then 0 else (r.demand + Wanted(r) - 1) / Wanted(r)
  }

  predicate CarriesDemand(r: Request, e: Edge) {
    PerPathDemand(r) == 0 || e.capacity == 0 || Spare(e) >= PerPathDemand(r)
  }

  predicate BindingAllows(f: Fabric, b: Binding, e: Edge)
    requires f.Valid() && f.EdgeOk(e)
  {
    && (b.domains != {} ==> e.domain.Some? && exists d :: d in b.domains && f.Contains(d, e.domain.value))
    && (b.tiers != {} ==> e.tier.Some? && e.tier.value in b.tiers)
  }

  function Quotient(x: nat, y: nat): (r: nat)
    requires y > 0
    ensures r <= x
  {
    QuotientBelow(x, y);
    x / y
  }

  lemma QuotientBelow(x: nat, y: nat)
    requires y > 0
    ensures x / y <= x
  {
    var q, m := x / y, x % y;
    assert x == q * y + m;
    if q > 0 {
      ProductBound(q, y);
    }
  }

  /** Thousandths of the capacity in use. */
  function Utilisation(used: nat, capacity: nat): (u: nat)
    requires used < capacity
    ensures u < 1000
  {
    UtilisationBelowFull(SatMul(used, 1000), capacity);
    Quotient(SatMul(used, 1000), capacity)
  }

  lemma UtilisationBelowFull(x: nat, capacity: nat)
    requires x < 1000 * capacity
    ensures capacity > 0 && x / capacity < 1000
  {
    assert x == (x / capacity) * capacity + x % capacity;
  }

  /** Fixed-point cost of an edge (src/planner.cpp:238-256). */
  function EdgeCost(p: Policy, e: Edge): (c: nat)
    ensures c <= COST_CEILING
  {
    var latency := Quotient(SatMul(e.latency, p.latencyWeight), 1000);
    if p.congestionWeight == 0 || e.capacity == 0 then latency
    else if e.reserved >= e.capacity then COST_CEILING
    else
      var utilisation := Utilisation(e.reserved, e.capacity);
      SatAdd(latency, Quotient(SatMul(p.congestionWeight, utilisation), 1000 - utilisation))
  }

  // ----- the question asked for one logical edge -----

  predicate HopUsable(r: Request, from: Binding, to: Binding, e: nat)
    requires r.Valid() && e < |r.fabric.edges|
  {
    var edge := r.fabric.edges[e];
    assert r.fabric.EdgeOk(edge);
    && NodeAllowed(r, edge.to)
    && EdgeAllowed(r, e) && CapacityUsable(r.policy, edge) && CarriesDemand(r, edge)
    && BindingAllows(r.fabric, from, edge) && BindingAllows(r.fabric, to, edge)
  }

  function Arcs(r: Request): seq<Arc> {
    seq(|r.fabric.edges|, e requires 0 <= e < |r.fabric.edges| =>
      Arc(r.fabric.edges[e].from, r.fabric.edges[e].to, EdgeCost(r.policy, r.fabric.edges[e])))
  }

  function QueryFor(r: Request, from: Binding, to: Binding): Query
    requires r.Valid()
  {
    Query(|r.fabric.nodes|, Arcs(r), (set v: nat | v < |r.fabric.nodes| && NodeAllowed(r, v)),
          (set e: nat | e < |r.fabric.edges| && HopUsable(r, from, to, e)),
          from.node, to.node, r.policy.maxHops, r.policy.maxPathCost)
  }

  function LevelDomain(r: Request, e: Edge): Option<nat>
    requires r.Valid() && r.fabric.EdgeOk(e)
  {
    match e.domain
    case None => None
    case Some(d) => Some(r.fabric.AtLevel(d, r.policy.level))
  }

  function LevelDomains(r: Request): seq<Option<nat>>
    requires r.Valid()
  {
    seq(|r.fabric.edges|, e requires 0 <= e < |r.fabric.edges| =>
      assert r.fabric.EdgeOk(r.fabric.edges[e]); LevelDomain(r, r.fabric.edges[e]))
  }

  function SpareOf(r: Request): seq<nat> {
    seq(|r.fabric.edges|, e requires 0 <= e < |r.fabric.edges| => Spare(r.fabric.edges[e]))
  }

  /** Everything the logical edge between two bindings is judged by. */
  function TermsFor(r: Request, from: Binding, to: Binding): Terms
    requires r.Valid()
  {
    Terms(QueryFor(r, from, to),
          seq(|r.fabric.edges|, e requires 0 <= e < |r.fabric.edges| => r.fabric.edges[e].capacity),
          SpareOf(r),
          seq(|r.fabric.edges|, e requires 0 <= e < |r.fabric.edges| => r.fabric.edges[e].evidence),
          LevelDomains(r), PerPathDemand(r), Wanted(r), r.policy.disjointness, r.policy.diversity)
  }

  lemma TermsValid(r: Request, from: Binding, to: Binding)
    requires r.Valid() && from.node < |r.fabric.nodes| && to.node < |r.fabric.nodes|
    ensures TermsFor(r, from, to).Valid() && TermsFor(r, from, to).demand <= COST_CEILING
  {
    var t := TermsFor(r, from, to);
    forall e | 0 <= e < |t.q.arcs|
      ensures t.q.arcs[e].from < t.q.nodeCount && t.q.arcs[e].to < t.q.nodeCount && t.q.arcs[e].from != t.q.arcs[e].to
      ensures t.spare[e] < COST_CEILING
    {
      assert r.fabric.EdgeOk(r.fabric.edges[e]);
    }
    if r.demand > 0 {
      DemandShare(r.demand, Wanted(r));
    }
  }

  /** The share of one path is the least that lets all of them together carry the demand. */
  lemma {:induction false} ShareIsLeast(r: Request, share: nat)
    ensures PerPathDemand(r) <= share <==> r.demand <= share * Wanted(r)
  {
    var n := Wanted(r);
    if r.demand > 0 {
      var q, m := (r.demand + n - 1) / n, (r.demand + n - 1) % n;
      assert r.demand + n - 1 == q * n + m && m < n;
      if q <= share {
        ProductMonotone(q, share, n);
      } else {
        ProductMonotone(share + 1, q, n);
        assert (share + 1) * n == share * n + n;
      }
    }
  }

  lemma ProductMonotone(a: nat, b: nat, n: nat)
    requires a <= b
    ensures a * n <= b * n
  {
  }

  lemma DemandShare(d: nat, n: nat)
    requires n >= 1 && d > 0
    ensures (d + n - 1) / n <= d
  {
    var q := (d + n - 1) / n;
    assert d + n - 1 == q * n + (d + n - 1) % n;
    assert (d + 1) * n == d * n + n && d * n >= d;
    assert q > d ==> q * n >= (d + 1) * n;
  }
}
