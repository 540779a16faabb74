/** Building the fabric graph (src/fabric.cpp:92-295, 379-478). */
module FabricBuild {
  import opened Candidates
  import opened Finite
  import opened Sorting
  import opened Collectives
  import opened CanonicalLists
  import opened Declarations
  import opened Identifiers
  import Requests

  datatype FabricGraph = FabricGraph(generations: Generations, domains: seq<DomainSpec>, nodes: seq<NodeSpec>,
                                     edges: seq<EdgeSpec>, chains: seq<seq<nat>>)

  // ----- what a declaration must satisfy -----

  predicate OptionalId(id: Option<nat>) {
    id.Some? ==> IsId(id.value)
  }

  predicate OptionalShort(id: Option<nat>) {
    id.Some? ==> IsShort(id.value)
  }

  predicate DomainNamed(d: DomainSpec) {
    IsId(d.id) && OptionalId(d.parent)
  }

  predicate NodeNamed(n: NodeSpec) {
    && IsId(n.id) && OptionalShort(n.tier) && OptionalShort(n.placement.site) && OptionalShort(n.placement.pod)
    && OptionalShort(n.placement.rack) && OptionalShort(n.placement.host)
  }

  predicate EdgeFits(e: EdgeSpec) {
    && IsId(e.id) && IsId(e.from) && IsId(e.to) && OptionalShort(e.tier) && OptionalId(e.domain)
    && e.capacity <= Requests.MAX_CAPACITY && e.latency <= Requests.MAX_CAPACITY
    && e.from != e.to && e.reserved <= e.capacity
  }

  predicate Declares<T>(key: T -> nat, s: seq<T>, id: nat) {
    exists i | 0 <= i < |s| :: key(s[i]) == id
  }

  predicate EdgeResolves(domains: seq<DomainSpec>, nodes: seq<NodeSpec>, e: EdgeSpec) {
    && EdgeFits(e) && Declares(NodeKey, nodes, e.from) && Declares(NodeKey, nodes, e.to)
    && (e.domain.Some? ==> Declares(DomainKey, domains, e.domain.value))
  }

  /** The parent is declared and of a broader kind. */
  predicate Nested(domains: seq<DomainSpec>, d: DomainSpec) {
    d.parent.Some? ==> exists i | 0 <= i < |domains| :: Contains(domains[i], d)
  }

  predicate Contains(outer: DomainSpec, d: DomainSpec) {
    d.parent == Some(outer.id) && outer.kind.Rank() > d.kind.Rank()
  }

  predicate WithinSizes(spec: FabricSpec) {
    |spec.domains| <= MAX_DOMAINS && |spec.nodes| <= Requests.MAX_NODES && |spec.edges| <= MAX_EDGES
  }

  predicate DomainOk(domains: seq<DomainSpec>, d: DomainSpec) {
    DomainNamed(d) && Nested(domains, d)
  }

  predicate DomainsOk(domains: seq<DomainSpec>) {
    forall i {:trigger DomainOk(domains, domains[i])} | 0 <= i < |domains| :: DomainOk(domains, domains[i])
  }

  predicate NodesOk(nodes: seq<NodeSpec>) {
    forall i {:trigger NodeNamed(nodes[i])} | 0 <= i < |nodes| :: NodeNamed(nodes[i])
  }

  predicate EdgesOk(domains: seq<DomainSpec>, nodes: seq<NodeSpec>, edges: seq<EdgeSpec>) {
    forall i {:trigger EdgeResolves(domains, nodes, edges[i])} | 0 <= i < |edges| ::
        EdgeResolves(domains, nodes, edges[i])
  }

  /** The declarations that are accepted, without reference to any order. */
  ghost predicate Acceptable(spec: FabricSpec) {
    && WithinSizes(spec) && DomainsOk(spec.domains) && NodesOk(spec.nodes)
       && EdgesOk(spec.domains, spec.nodes, spec.edges)
    && Injective(Map(DomainKey, spec.domains)) && Injective(Map(NodeKey, spec.nodes))
       && Injective(Map(EdgeKey, spec.edges))
  }

  // ----- containment chains -----

  /** The domain with the given identifier. */
  function Find(domains: seq<DomainSpec>, id: nat): (r: Option<DomainSpec>)
    ensures r.Some? ==> r.value in domains && r.value.id == id
    ensures r.None? ==> forall d | d in domains :: d.id != id
  {
    if domains == [] then None
    else if domains[0].id == id then Some(domains[0])
    else
      assert domains == [domains[0]] + domains[1..];
      Find(domains[1..], id)
  }

  /** Distinct identifiers, every parent declared and of a broader kind. */
  ghost predicate Hierarchy(domains: seq<DomainSpec>) {
    DomainsOk(domains) && Ascending(DomainKey, domains)
  }

  lemma {:induction false} ParentFound(domains: seq<DomainSpec>, d: DomainSpec)
    requires Hierarchy(domains) && d in domains && d.parent.Some?
    ensures var p := Find(domains, d.parent.value); p.Some? && p.value.kind.Rank() > d.kind.Rank()
  {
    var i :| 0 <= i < |domains| && domains[i] == d;
    assert DomainOk(domains, domains[i]);
    var j :| 0 <= j < |domains| && Contains(domains[j], d);
    var p := Find(domains, d.parent.value);
    assert domains[j] in domains;
    var k :| 0 <= k < |domains| && domains[k] == p.value;
    KeyFindsOne(DomainKey, domains, j, k);
  }

  lemma KeyFindsOne<T>(key: T -> nat, s: seq<T>, i: nat, j: nat)
    requires Ascending(key, s) && i < |s| && j < |s| && key(s[i]) == key(s[j])
    ensures i == j
  {
  }

  /** How far up a domain can still go. */
  ghost function Height(domains: seq<DomainSpec>, id: nat): nat {
    match Find(domains, id)
    case None => 0
    case Some(d) => 5 - d.kind.Rank()
  }

  /** The domain and everything that contains it, innermost first. */
  ghost function Chain(domains: seq<DomainSpec>, id: nat): (r: seq<nat>)
    requires Hierarchy(domains)
    ensures |r| <= Height(domains, id) || |r| == 1
    decreases Height(domains, id)
  {
    match Find(domains, id)
    case None => [id]
    case Some(d) =>
      if d.parent.None? then [id]
      else
        ParentFound(domains, d);
        [id] + Chain(domains, d.parent.value)
  }

  ghost function Chains(domains: seq<DomainSpec>): seq<seq<nat>>
    requires Hierarchy(domains)
  {
    seq(|domains|, i requires 0 <= i < |domains| => Chain(domains, domains[i].id))
  }

  // ----- the graph -----

  predicate EdgeLess(a: EdgeSpec, b: EdgeSpec) {
    if a.from != b.from then a.from < b.from else if a.to != b.to then a.to < b.to else a.id < b.id
  }

  lemma EdgeOrder()
    ensures StrictWeak(EdgeLess)
  {
  }

  predicate EdgeRepeats(edges: seq<EdgeSpec>) {
    Repeats(Sort(Less, Map(EdgeKey, edges)))
  }

  /** The canonical graph of a declaration, or None when it is refused. */
  ghost function Graph(spec: FabricSpec): Option<FabricGraph> {
    if !WithinSizes(spec) || Ranked(DomainKey, spec.domains).None? then None
    else
      RankedAscends(DomainKey, spec.domains);
      var domains := Ranked(DomainKey, spec.domains).value;
      if !DomainsOk(domains) || !NodesOk(spec.nodes) || Ranked(NodeKey, spec.nodes).None? then None
      else
        var nodes := Ranked(NodeKey, spec.nodes).value;
        if !EdgesOk(domains, nodes, spec.edges) || EdgeRepeats(spec.edges) then None
        else Some(FabricGraph(spec.generations, domains, nodes, Sort(EdgeLess, spec.edges), Chains(domains)))
  }

  // ----- order of declaration -----

  ghost predicate SameFabric(a: FabricSpec, b: FabricSpec) {
    && a.generations == b.generations && multiset(a.domains) == multiset(b.domains)
    && multiset(a.nodes) == multiset(b.nodes) && multiset(a.edges) == multiset(b.edges)
  }

  lemma {:induction false} DeclaresAgrees<T>(key: T -> nat, a: seq<T>, b: seq<T>, id: nat)
    requires multiset(a) == multiset(b)
    ensures Declares(key, a, id) <==> Declares(key, b, id)
  {
    SameElements(a, b);
    if i :| 0 <= i < |a| && key(a[i]) == id {
      assert a[i] in b;
    }
    if i :| 0 <= i < |b| && key(b[i]) == id {
      assert b[i] in a;
    }
  }

  lemma {:induction false} NestedAgrees(a: seq<DomainSpec>, b: seq<DomainSpec>, d: DomainSpec)
    requires multiset(a) == multiset(b) && Nested(a, d)
    ensures Nested(b, d)
  {
    SameElements(a, b);
    if d.parent.Some? {
      var i :| 0 <= i < |a| && Contains(a[i], d);
      assert a[i] in b;
    }
  }

  lemma {:induction false} DomainsAgree(a: seq<DomainSpec>, b: seq<DomainSpec>)
    requires multiset(a) == multiset(b) && DomainsOk(a)
    ensures DomainsOk(b)
  {
    SameElements(a, b);
    forall i | 0 <= i < |b|
      ensures DomainOk(b, b[i])
    {
      assert b[i] in a;
      var j :| 0 <= j < |a| && a[j] == b[i];
      assert DomainOk(a, a[j]);
      NestedAgrees(a, b, a[j]);
    }
  }

  lemma {:induction false} NodesAgree(a: seq<NodeSpec>, b: seq<NodeSpec>)
    requires multiset(a) == multiset(b) && NodesOk(a)
    ensures NodesOk(b)
  {
    SameElements(a, b);
    forall i | 0 <= i < |b|
      ensures NodeNamed(b[i])
    {
      assert b[i] in a;
      var j :| 0 <= j < |a| && a[j] == b[i];
      assert NodeNamed(a[j]);
    }
  }

  lemma {:induction false} EdgesAgree(d: seq<DomainSpec>, d': seq<DomainSpec>, n: seq<NodeSpec>, n': seq<NodeSpec>,
      a: seq<EdgeSpec>, b: seq<EdgeSpec>)
    requires multiset(d) == multiset(d') && multiset(n) == multiset(n') && multiset(a) == multiset(b)
             && EdgesOk(d, n, a)
    ensures EdgesOk(d', n', b)
  {
    SameElements(a, b);
    forall i | 0 <= i < |b|
      ensures EdgeResolves(d', n', b[i])
    {
      assert b[i] in a;
      var j :| 0 <= j < |a| && a[j] == b[i];
      var e := a[j];
      assert EdgeResolves(d, n, a[j]);
      DeclaresAgrees(NodeKey, n, n', e.from);
      DeclaresAgrees(NodeKey, n, n', e.to);
      if e.domain.Some? {
        DeclaresAgrees(DomainKey, d, d', e.domain.value);
      }
    }
  }

  lemma {:induction false} EdgeRepeatsIff(edges: seq<EdgeSpec>)
    ensures EdgeRepeats(edges) <==> !Injective(Map(EdgeKey, edges))
  {
    RepeatsIff(Map(EdgeKey, edges));
  }

  lemma {:induction false} DistinctKeys(edges: seq<EdgeSpec>, x: EdgeSpec, y: EdgeSpec)
    requires Injective(Map(EdgeKey, edges)) && x in edges && y in edges && x != y
    ensures x.id != y.id
  {
    var i :| 0 <= i < |edges| && edges[i] == x;
    var j :| 0 <= j < |edges| && edges[j] == y;
    assert i < j ==> Map(EdgeKey, edges)[i] != Map(EdgeKey, edges)[j];
    assert j < i ==> Map(EdgeKey, edges)[j] != Map(EdgeKey, edges)[i];
  }

  lemma {:induction false} SortedEdgesAgree(a: seq<EdgeSpec>, b: seq<EdgeSpec>)
    requires multiset(a) == multiset(b) && Injective(Map(EdgeKey, a))
    ensures Sort(EdgeLess, a) == Sort(EdgeLess, b)
  {
    EdgeOrder();
    SortKeeps(EdgeLess, a);
    SortKeeps(EdgeLess, b);
    var s := Sort(EdgeLess, a);
    SameElements(s, a);
    forall x, y | x in s && y in s && x != y
      ensures EdgeLess(x, y) || EdgeLess(y, x)
    {
      DistinctKeys(a, x, y);
    }
    SortedUnique(EdgeLess, s, Sort(EdgeLess, b));
  }

  /** A declaration is accepted exactly when it meets the demands above, in whatever order it was written. */
  lemma {:induction false} AcceptedIff(spec: FabricSpec)
    ensures Graph(spec).Some? <==> Acceptable(spec)
  {
    RankedIff(DomainKey, spec.domains);
    RankedIff(NodeKey, spec.nodes);
    EdgeRepeatsIff(spec.edges);
    if Ranked(DomainKey, spec.domains).Some? && Ranked(NodeKey, spec.nodes).Some? {
      RankedAscends(DomainKey, spec.domains);
      RankedAscends(NodeKey, spec.nodes);
      var domains, nodes := Ranked(DomainKey, spec.domains).value, Ranked(NodeKey, spec.nodes).value;
      if DomainsOk(domains) {
        DomainsAgree(domains, spec.domains);
      }
      if DomainsOk(spec.domains) {
        DomainsAgree(spec.domains, domains);
      }
      if EdgesOk(domains, nodes, spec.edges) {
        EdgesAgree(domains, spec.domains, nodes, spec.nodes, spec.edges, spec.edges);
      }
      if EdgesOk(spec.domains, spec.nodes, spec.edges) {
        EdgesAgree(spec.domains, domains, spec.nodes, nodes, spec.edges, spec.edges);
      }
    }
  }

  /** Permuted declarations build the same graph, or are both refused. */
  lemma {:induction false} FabricOrderIrrelevant(a: FabricSpec, b: FabricSpec)
    requires SameFabric(a, b)
    ensures Graph(a) == Graph(b)
  {
    RankedAgrees(DomainKey, a.domains, b.domains);
    RankedAgrees(NodeKey, a.nodes, b.nodes);
    SameElements(a.domains, b.domains);
    SameElements(a.nodes, b.nodes);
    SameElements(a.edges, b.edges);
    AcceptedIff(a);
    AcceptedIff(b);
    if Acceptable(a) || Acceptable(b) {
      AcceptableAgrees(a, b);
      SortedEdgesAgree(a.edges, b.edges);
    }
  }

  lemma {:induction false} AcceptableAgrees(a: FabricSpec, b: FabricSpec)
    requires SameFabric(a, b) && (Acceptable(a) || Acceptable(b))
    ensures Acceptable(a) && Acceptable(b)
  {
    if Acceptable(a) {
      AcceptableCarries(a, b);
    } else {
      AcceptableCarries(b, a);
    }
  }

  lemma {:induction false} AcceptableCarries(a: FabricSpec, b: FabricSpec)
    requires SameFabric(a, b) && Acceptable(a)
    ensures Acceptable(b)
  {
    SameElements(a.domains, b.domains);
    SameElements(a.nodes, b.nodes);
    SameElements(a.edges, b.edges);
    DomainsAgree(a.domains, b.domains);
    NodesAgree(a.nodes, b.nodes);
    EdgesAgree(a.domains, b.domains, a.nodes, b.nodes, a.edges, b.edges);
    KeysCarry(DomainKey, a.domains, b.domains);
    KeysCarry(NodeKey, a.nodes, b.nodes);
    KeysCarry(EdgeKey, a.edges, b.edges);
  }

  lemma {:induction false} KeysCarry<T>(key: T -> nat, a: seq<T>, b: seq<T>)
    requires multiset(a) == multiset(b) && Injective(Map(key, a))
    ensures Injective(Map(key, b))
  {
    MapPermutes(key, a, b);
    DistinctTransfers(Map(key, a), Map(key, b));
  }

  /** The declaration that can be read off a graph. */
  function DeclaredFabric(g: FabricGraph): FabricSpec {
    FabricSpec(g.generations, g.domains, g.nodes, g.edges)
  }

  lemma {:induction false} GraphPermutes(spec: FabricSpec, g: FabricGraph)
    requires Graph(spec) == Some(g)
    ensures SameFabric(spec, DeclaredFabric(g))
  {
    RankedAscends(DomainKey, spec.domains);
    RankedAscends(NodeKey, spec.nodes);
    SortPermutes(EdgeLess, spec.edges);
  }

  /** Building what was built changes nothing. */
  lemma {:induction false} GraphStays(spec: FabricSpec, g: FabricGraph)
    requires Graph(spec) == Some(g)
    ensures Graph(DeclaredFabric(g)) == Some(g)
  {
    GraphPermutes(spec, g);
    FabricOrderIrrelevant(spec, DeclaredFabric(g));
  }

  // ----- the final checks never fail -----

  /** The order checks of src/fabric.cpp:389-410 and the chain bound of src/fabric.cpp:155-158. */
  ghost predicate Validates(g: FabricGraph) {
    && Ascending(DomainKey, g.domains) && Ascending(NodeKey, g.nodes)
    && (forall i, j | 0 <= i < j < |g.edges| :: EdgeLess(g.edges[i], g.edges[j]))
    && |g.chains| == |g.domains| && forall i | 0 <= i < |g.chains| :: |g.chains[i]| <= MAX_LEVELS
  }

  lemma {:induction false} GraphValidates(spec: FabricSpec, g: FabricGraph)
    requires Graph(spec) == Some(g)
    ensures Validates(g)
  {
    RankedAscends(DomainKey, spec.domains);
    RankedAscends(NodeKey, spec.nodes);
    AcceptedIff(spec);
    EdgeOrder();
    SortKeeps(EdgeLess, spec.edges);
    KeysCarry(EdgeKey, spec.edges, g.edges);
    forall i, j | 0 <= i < j < |g.edges|
      ensures EdgeLess(g.edges[i], g.edges[j])
    {
      assert !EdgeLess(g.edges[j], g.edges[i]);
      assert Map(EdgeKey, g.edges)[i] != Map(EdgeKey, g.edges)[j];
    }
  }

  // ----- the builder -----

  /** `index` holds the position of every key (src/fabric.cpp:273-295). */
  ghost predicate Indexes<T>(key: T -> nat, s: seq<T>, index: map<nat, nat>) {
    forall id {:trigger id in index} ::
      (id in index <==> Declares(key, s, id)) && (id in index ==> index[id] < |s| && key(s[index[id]]) == id)
  }

  method BuildIndex<T>(key: T -> nat, s: seq<T>) returns (index: map<nat, nat>)
    ensures Indexes(key, s, index)
  {
    index := map[];
    for i := 0 to |s|
      invariant Indexes(key, s[..i], index)
    {
      var id := key(s[i]);
      assert s[..i + 1] == s[..i] + [s[i]];
      DeclaresSnoc(key, s[..i], s[i]);
      if id !in index {
        index := index[id := i];
      }
    }
    assert s[..|s|] == s;
  }

  lemma {:induction false} DeclaresSnoc<T>(key: T -> nat, s: seq<T>, x: T)
    ensures forall id :: Declares(key, s + [x], id) <==> Declares(key, s, id) || key(x) == id
  {
    forall id
      ensures Declares(key, s + [x], id) <==> Declares(key, s, id) || key(x) == id
    {
      if i :| 0 <= i < |s| && key(s[i]) == id {
        assert (s + [x])[i] == s[i];
      }
      assert (s + [x])[|s|] == x;
    }
  }

  lemma {:induction false} FindAt(domains: seq<DomainSpec>, i: nat)
    requires Ascending(DomainKey, domains) && i < |domains|
    ensures Find(domains, domains[i].id) == Some(domains[i])
  {
    var d := Find(domains, domains[i].id);
    assert domains[i] in domains;
    var k :| 0 <= k < |domains| && domains[k] == d.value;
    KeyFindsOne(DomainKey, domains, k, i);
  }

  method CheckDomains(domains: seq<DomainSpec>, index: map<nat, nat>) returns (ok: bool)
    requires Ascending(DomainKey, domains) && Indexes(DomainKey, domains, index)
    ensures ok <==> DomainsOk(domains)
  {
    for i := 0 to |domains|
      invariant forall k {:trigger DomainOk(domains, domains[k])} | 0 <= k < i :: DomainOk(domains, domains[k])
    {
      var d := domains[i];
      NestedByIndex(domains, index, d);
      if !DomainNamed(d) || (d.parent.Some? && (d.parent.value !in index
          || !Contains(domains[index[d.parent.value]], d))) {
        assert !DomainOk(domains, domains[i]);
        return false;
      }
    }
    ok := true;
  }

  lemma {:induction false} NestedByIndex(domains: seq<DomainSpec>, index: map<nat, nat>, d: DomainSpec)
    requires Ascending(DomainKey, domains) && Indexes(DomainKey, domains, index)
    ensures d.parent.Some? ==>
              (Nested(domains, d) <==> d.parent.value in index && Contains(domains[index[d.parent.value]], d))
  {
    if d.parent.Some? && Nested(domains, d) {
      var i :| 0 <= i < |domains| && Contains(domains[i], d);
      assert Declares(DomainKey, domains, d.parent.value) && d.parent.value in index;
      KeyFindsOne(DomainKey, domains, i, index[d.parent.value]);
    }
  }

  method CheckEdges(domains: seq<DomainSpec>, nodes: seq<NodeSpec>, edges: seq<EdgeSpec>) returns (ok: bool)
    ensures ok <==> EdgesOk(domains, nodes, edges)
  {
    var domainIndex := BuildIndex(DomainKey, domains);
    var nodeIndex := BuildIndex(NodeKey, nodes);
    ok := CheckEach(domains, nodes, domainIndex, nodeIndex, edges);
  }

  method CheckEach(domains: seq<DomainSpec>, nodes: seq<NodeSpec>, domainIndex: map<nat, nat>, nodeIndex: map<nat, nat>,
      edges: seq<EdgeSpec>)
    returns (ok: bool)
    requires Indexes(DomainKey, domains, domainIndex) && Indexes(NodeKey, nodes, nodeIndex)
    ensures ok <==> EdgesOk(domains, nodes, edges)
  {
    for i := 0 to |edges|
      invariant forall k {:trigger EdgeResolves(domains, nodes, edges[k])} | 0 <= k < i ::
                EdgeResolves(domains, nodes, edges[k])
    {
      EdgeByIndex(domains, nodes, domainIndex, nodeIndex, edges[i]);
      if !Resolved(domainIndex, nodeIndex, edges[i]) {
        return false;
      }
    }
    ok := true;
  }

  predicate Resolved(domainIndex: map<nat, nat>, nodeIndex: map<nat, nat>, e: EdgeSpec) {
    EdgeFits(e) && e.from in nodeIndex && e.to in nodeIndex && (e.domain.Some? ==> e.domain.value in domainIndex)
  }

  lemma {:induction false} EdgeByIndex(domains: seq<DomainSpec>, nodes: seq<NodeSpec>, domainIndex: map<nat, nat>,
      nodeIndex: map<nat, nat>, e: EdgeSpec)
    requires Indexes(DomainKey, domains, domainIndex) && Indexes(NodeKey, nodes, nodeIndex)
    ensures Resolved(domainIndex, nodeIndex, e) <==> EdgeResolves(domains, nodes, e)
  {
    var fits := EdgeFits(e);
    assert e.from in nodeIndex <==> Declares(NodeKey, nodes, e.from);
    assert e.to in nodeIndex <==> Declares(NodeKey, nodes, e.to);
    if e.domain.Some? {
      assert e.domain.value in domainIndex <==> Declares(DomainKey, domains, e.domain.value);
    }
  }

  /** Follows the parents of a domain; the refusal of a chain beyond the bound is never reached. */
  method WalkChain(domains: seq<DomainSpec>, index: map<nat, nat>, id: nat) returns (chain: seq<nat>)
    requires Hierarchy(domains) && Indexes(DomainKey, domains, index)
    ensures chain == Chain(domains, id) && |chain| <= MAX_LEVELS
  {
    var cursor := Some(id);
    chain := [];
    while cursor.Some?
      invariant Chain(domains, id) == chain + Remaining(domains, cursor)
      decreases if cursor.Some? then Height(domains, cursor.value) + 1 else 0
    {
      ChainStep(domains, index, cursor.value);
      if |chain| >= MAX_LEVELS {
        assert false;
      }
      chain := chain + [cursor.value];
      cursor := Above(domains, index, cursor.value);
    }
  }

  ghost function Remaining(domains: seq<DomainSpec>, cursor: Option<nat>): seq<nat>
    requires Hierarchy(domains)
  {
    if cursor.Some? then Chain(domains, cursor.value) else []
  }

  function Above(domains: seq<DomainSpec>, index: map<nat, nat>, id: nat): Option<nat>
    requires forall x | x in index :: index[x] < |domains|
  {
    if id in index then domains[index[id]].parent else None
  }

  lemma {:induction false} FindIff(domains: seq<DomainSpec>, id: nat)
    ensures Find(domains, id).Some? <==> Declares(DomainKey, domains, id)
  {
    if i :| 0 <= i < |domains| && DomainKey(domains[i]) == id {
      assert domains[i] in domains;
    }
    if Find(domains, id).Some? {
      var k :| 0 <= k < |domains| && domains[k] == Find(domains, id).value;
      assert DomainKey(domains[k]) == id;
    }
  }

  lemma {:induction false} ChainStep(domains: seq<DomainSpec>, index: map<nat, nat>, id: nat)
    requires Hierarchy(domains) && Indexes(DomainKey, domains, index)
    ensures var next := Above(domains, index, id);
            && Chain(domains, id) == [id] + Remaining(domains, next)
            && (next.Some? ==> Height(domains, next.value) < Height(domains, id))
  {
    FindIff(domains, id);
    if id in index {
      FindAt(domains, index[id]);
      var d := domains[index[id]];
      if d.parent.Some? {
        ParentFound(domains, d);
      }
    }
  }

  method WalkChains(domains: seq<DomainSpec>, index: map<nat, nat>) returns (chains: seq<seq<nat>>)
    requires Hierarchy(domains) && Indexes(DomainKey, domains, index)
    ensures chains == Chains(domains)
  {
    chains := [];
    for i := 0 to |domains|
      invariant chains == Chains(domains)[..i]
    {
      var chain := WalkChain(domains, index, domains[i].id);
      chains := chains + [chain];
    }
  }

  method BuildFabric(spec: FabricSpec) returns (r: Option<FabricGraph>)
    ensures r == Graph(spec)
  {
    var domains := Ranked(DomainKey, spec.domains);
    if !WithinSizes(spec) || domains.None? {
      return None;
    }
    RankedAscends(DomainKey, spec.domains);
    var index := BuildIndex(DomainKey, domains.value);
    var nested := CheckDomains(domains.value, index);
    var nodes := Ranked(NodeKey, spec.nodes);
    if !nested || !NodesOk(spec.nodes) || nodes.None? {
      return None;
    }
    var chains := WalkChains(domains.value, index);
    var resolved := CheckEdges(domains.value, nodes.value, spec.edges);
    if !resolved || EdgeRepeats(spec.edges) {
      return None;
    }
    r := Some(FabricGraph(spec.generations, domains.value, nodes.value, Sort(EdgeLess, spec.edges), chains));
  }
}
