/** Blocking searches and the candidate pool of one logical edge (src/planner.cpp:90-119, 1137-1279). */
module CandidatePool {
  import opened Paths
  import opened Finite
  import opened Sorting
  import opened Candidates
  import opened Families
  import opened ShortestPath
  import EnumeratePaths

  /** Stamps are 32-bit counters. */
  const GENERATIONS: nat := 0x1_0000_0000

  /** Generation-stamped block set: one counter step clears it, with a refill when the counter wraps. */
  class BlockSet {
    var nodeStamp: seq<nat>
    var edgeStamp: seq<nat>
    var generation: nat

    ghost predicate Valid()
      reads this
    {
      && 1 <= generation < GENERATIONS
      && (forall v | 0 <= v < |nodeStamp| :: nodeStamp[v] <= generation)
      && (forall e | 0 <= e < |edgeStamp| :: edgeStamp[e] <= generation)
    }

    function Nodes(): set<nat>
      reads this
    {
      set v: nat | v < |nodeStamp| && nodeStamp[v] == generation
    }

    function Edges(): set<nat>
      reads this
    {
      set e: nat | e < |edgeStamp| && edgeStamp[e] == generation
    }

    constructor (nodes: nat, edges: nat)
      ensures Valid() && |nodeStamp| == nodes && |edgeStamp| == edges
      ensures Nodes() == {} && Edges() == {}
    {
      nodeStamp, edgeStamp, generation := seq(nodes, _ => 0), seq(edges, _ => 0), 1;
    }

    method Reset()
      requires Valid()
      modifies this
      ensures Valid() && Nodes() == {} && Edges() == {}
      ensures |nodeStamp| == old(|nodeStamp|) && |edgeStamp| == old(|edgeStamp|)
    {
      generation := (generation + 1) % GENERATIONS;
      if generation == 0 {
        nodeStamp, edgeStamp := seq(|nodeStamp|, _ => 0), seq(|edgeStamp|, _ => 0);
        generation := 1;
      }
    }

    method BlockNode(v: nat)
      requires Valid() && v < |nodeStamp|
      modifies this`nodeStamp
      ensures Valid() && Nodes() == old(Nodes()) + {v} && Edges() == old(Edges()) && |nodeStamp| == old(|nodeStamp|)
    {
      nodeStamp := nodeStamp[v := generation];
    }

    method BlockEdge(e: nat)
      requires Valid() && e < |edgeStamp|
      modifies this`edgeStamp
      ensures Valid() && Edges() == old(Edges()) + {e} && Nodes() == old(Nodes()) && |edgeStamp| == old(|edgeStamp|)
    {
      edgeStamp := edgeStamp[e := generation];
    }
  }

  /** The question with blocked edges and blocked intermediate nodes removed. */
  function Without(q: Query, nodes: set<nat>, edges: set<nat>): Query
    requires forall e | e in q.usable :: e < |q.arcs|
  {
    q.(usable := set e | e in q.usable && e !in edges && q.arcs[e].to !in nodes)
  }

  lemma WithoutNothing(q: Query)
    requires q.Valid()
    ensures Without(q, {}, {}) == q
  {
    assert (set e | e in q.usable && e !in {} && q.arcs[e].to !in {}) == q.usable;
  }

  lemma {:induction false} WithoutCost(q: Query, q': Query, p: Path)
    requires q.arcs == q'.arcs && q.InRange(p)
    ensures q'.InRange(p) && q.Cost(p) == q'.Cost(p)
    decreases |p|
  {
    if p != [] {
      WithoutCost(q, q', p[..|p| - 1]);
    }
  }

  /** Whatever a blocked search finds is compliant for the unblocked question. */
  lemma BlockedStillCompliant(q: Query, nodes: set<nat>, edges: set<nat>, p: Path)
    requires q.Valid() && q.source in q.allowed
    requires var b := Without(q, nodes, edges); b.WithinLimits(p) && b.Simple(b.source, p)
    ensures q.Compliant(p)
  {
    var b := Without(q, nodes, edges);
    WithoutCost(q, b, p);
    assert forall i | 0 <= i <= |p| :: q.NodeAt(q.source, p, i) == b.NodeAt(q.source, p, i);
  }

  /** Distinct materialised compliant paths. */
  ghost predicate PoolOk(t: Terms, pool: seq<Candidate>)
    requires t.Valid()
  {
    AllGood(t, pool) && forall i, j | 0 <= i < j < |pool| :: pool[i].edges != pool[j].edges
  }

  predicate Present(pool: seq<Candidate>, p: Path) {
    exists i | 0 <= i < |pool| :: pool[i].edges == p
  }

  lemma PoolSnoc(t: Terms, pool: seq<Candidate>, c: Candidate)
    requires t.Valid() && PoolOk(t, pool) && Good(t, c) && !Present(pool, c.edges)
    ensures PoolOk(t, pool + [c])
  {
    var more := pool + [c];
    forall i | 0 <= i < |more|
      ensures Good(t, more[i])
    {
      assert i < |pool| ==> Good(t, pool[i]);
    }
  }

  lemma GoodMember(t: Terms, pool: seq<Candidate>, c: Candidate)
    requires t.Valid() && AllGood(t, pool) && c in pool
    ensures Good(t, c)
  {
    var k :| 0 <= k < |pool| && pool[k] == c;
    assert Good(t, pool[k]);
  }

  /** Sorting a pool of distinct paths puts it in strict canonical order. */
  lemma {:induction false} SortedPool(t: Terms, pool: seq<Candidate>)
    requires t.Valid() && PoolOk(t, pool)
    ensures PoolOk(t, Sort(CandidateLess, pool)) && Ordered(Sort(CandidateLess, pool))
    ensures forall c :: c in Sort(CandidateLess, pool) <==> c in pool
    ensures |Sort(CandidateLess, pool)| == |pool|
  {
    var s := Sort(CandidateLess, pool);
    assert Sorted(CandidateLess, s) && multiset(s) == multiset(pool) by {
      CandidateOrder();
      SortKeeps(CandidateLess, pool);
    }
    SameElements(s, pool);
    forall i | 0 <= i < |s|
      ensures Good(t, s[i])
    {
      GoodMember(t, pool, s[i]);
    }
    forall i, j | 0 <= i < j < |s|
      ensures CandidateLess(s[i], s[j]) && s[i].edges != s[j].edges
    {
      SortedApart(t, pool, s, i, j);
    }
  }

  lemma SortedApart(t: Terms, pool: seq<Candidate>, s: seq<Candidate>, i: nat, j: nat)
    requires t.Valid() && PoolOk(t, pool) && Sorted(CandidateLess, s) && multiset(s) == multiset(pool) && i < j < |s|
    requires Good(t, s[i]) && Good(t, s[j])
    ensures CandidateLess(s[i], s[j]) && s[i].edges != s[j].edges
  {
    CountedOnce(pool, s[i]);
    if s[i] == s[j] {
      CountedTwice(s, i, j);
    } else {
      CandidatesSeparated(t, s[i], s[j]);
    }
  }

  // ----- building the pool -----

  /** Nodes strictly between the endpoints. */
  function Interior(q: Query, p: Path): seq<nat>
    requires q.InRange(p)
  {
    if |p| <= 1 then [] else [q.arcs[p[0]].to] + Interior(q, p[1..])
  }

  ghost predicate Fits(q: Query, blocks: BlockSet)
    reads blocks
  {
    blocks.Valid() && |blocks.nodeStamp| == q.nodeCount && |blocks.edgeStamp| == |q.arcs|
  }

  ghost predicate Clear(blocks: BlockSet)
    reads blocks
  {
    blocks.Nodes() == {} && blocks.Edges() == {}
  }

  ghost predicate InNodes(q: Query, nodes: seq<nat>) {
    forall i | 0 <= i < |nodes| :: nodes[i] < q.nodeCount
  }

  /** Blocks exactly the given resources. */
  method Block(blocks: BlockSet, q: Query, edges: seq<nat>, nodes: seq<nat>)
    requires Fits(q, blocks)
    requires q.InRange(edges) && InNodes(q, nodes)
    modifies blocks
    ensures Fits(q, blocks)
    ensures blocks.Edges() == (set e | e in edges) && blocks.Nodes() == (set v | v in nodes)
  {
    blocks.Reset();
    for i := 0 to |edges|
      invariant Fits(q, blocks) && blocks.Nodes() == {} && blocks.Edges() == (set e | e in edges[..i])
    {
      blocks.BlockEdge(edges[i]);
    }
    for i := 0 to |nodes|
      invariant Fits(q, blocks) && blocks.Edges() == (set e | e in edges)
      invariant blocks.Nodes() == (set v | v in nodes[..i])
    {
      blocks.BlockNode(nodes[i]);
    }
  }

  /**
    Counters of the search budget before and after: no more was spent than stated, and it ran out only when used up.
   */
  ghost predicate Paid(spent: nat, over: bool, spent': nat, over': bool, most: nat, bound: int) {
    spent <= spent' <= spent + bound && (over ==> over') && (over' ==> over || spent' >= most)
  }

  /** search_blocked: block the given resources, then search. */
  method SearchBlocked(st: SearchBudget, blocks: BlockSet, q: Query, edges: seq<nat>, nodes: seq<nat>)
      returns (r: SearchOutcome)
    requires q.Valid() && q.source in q.allowed && Fits(q, blocks)
    requires q.InRange(edges) && InNodes(q, nodes)
    modifies blocks, st`expansions, st`budgetExceeded
    ensures Fits(q, blocks)
    ensures r.Found? ==> q.Compliant(r.edges)
    ensures Paid(old(st.expansions), old(st.budgetExceeded), st.expansions, st.budgetExceeded, st.maxExpansions,
                 SearchBound(q))
    ensures edges == [] && nodes == [] && !r.Found? ==> st.budgetExceeded || forall p :: !q.Compliant(p)
  {
    Block(blocks, q, edges, nodes);
    var b := Without(q, blocks.Nodes(), blocks.Edges());
    if edges == [] && nodes == [] {
      WithoutNothing(q);
      assert b == q;
    }
    r := Search(st, b);
    if r.Found? {
      if q.source == q.target {
        assert b.WithinLimits(r.edges);
      }
      BlockedStillCompliant(q, blocks.Nodes(), blocks.Edges(), r.edges);
    }
  }

  /** Adds a found path unless it is already there. */
  method Consider(t: Terms, pool: seq<Candidate>, also: seq<Candidate>, r: SearchOutcome)
      returns (pool': seq<Candidate>)
    requires t.Valid() && PoolOk(t, pool) && (r.Found? ==> t.q.Compliant(r.edges))
    ensures PoolOk(t, pool')
    ensures pool' == if r.Found? && !Present(pool, r.edges) && !Present(also, r.edges)
                     then pool + [Materialise(t, r.edges)] else pool
  {
    pool' := pool;
    if r.Found? {
      SimplePathAccepted(t.q, r.edges);
      if FormsSimplePath(t.q, r.edges) && !Present(pool, r.edges) && !Present(also, r.edges) {
        PoolSnoc(t, pool, Materialise(t, r.edges));
        pool' := pool + [Materialise(t, r.edges)];
      }
    }
  }

  /** Adds the candidates that are not in the pool yet, while there is room. */
  method Append(t: Terms, pool: seq<Candidate>, more: seq<Candidate>, cap: nat) returns (pool': seq<Candidate>)
    requires t.Valid() && PoolOk(t, pool) && AllGood(t, more)
    ensures PoolOk(t, pool') && (pool != [] ==> pool' != [])
  {
    pool' := pool;
    for i := 0 to |more|
      invariant PoolOk(t, pool') && (pool != [] ==> pool' != [])
    {
      if |pool'| >= cap {
        return;
      }
      if !Present(pool', more[i].edges) {
        assert Good(t, more[i]);
        PoolSnoc(t, pool', more[i]);
        pool' := pool' + [more[i]];
      }
    }
  }

  lemma {:induction false} InteriorInRange(q: Query, p: Path)
    requires q.Valid() && q.InRange(p)
    ensures |Interior(q, p)| <= |p| && forall i | 0 <= i < |Interior(q, p)| :: Interior(q, p)[i] < q.nodeCount
    decreases |p|
  {
    if |p| > 1 {
      InteriorInRange(q, p[1..]);
    }
  }

  /** The nodes a found path takes away from the next one. */
  function Taken(t: Terms, p: Path): seq<nat>
    requires t.Valid() && t.q.InRange(p)
  {
    if t.disjointness == NodeDisjoint then Interior(t.q, p) else []
  }

  lemma TakenInRange(t: Terms, p: Path)
    requires t.Valid() && t.q.Compliant(p)
    ensures |Taken(t, p)| <= t.q.nodeCount && InNodes(t.q, Taken(t, p))
  {
    InteriorInRange(t.q, p);
    EnumeratePaths.SimpleIsShort(t.q, p);
  }

  /** The resources taken by n paths. */
  ghost predicate Reserved(q: Query, edges: seq<nat>, nodes: seq<nat>, n: nat) {
    q.InRange(edges) && InNodes(q, nodes) && |nodes| <= Times(n, q.nodeCount)
  }

  lemma ReserveMore(t: Terms, edges: seq<nat>, nodes: seq<nat>, n: nat, p: Path)
    requires t.Valid() && Reserved(t.q, edges, nodes, n) && t.q.Compliant(p)
    ensures Reserved(t.q, edges + p, nodes + Taken(t, p), n + 1)
  {
    TakenInRange(t, p);
  }

  /** One turn of the chain: the next path around everything taken so far. */
  method NextSibling(st: SearchBudget, blocks: BlockSet, t: Terms, pool0: seq<Candidate>, edges0: seq<nat>,
      nodes0: seq<nat>, ghost n: nat)
    returns (found: bool, pool: seq<Candidate>, edges: seq<nat>, nodes: seq<nat>)
    requires t.Valid() && t.q.source in t.q.allowed && Fits(t.q, blocks) && PoolOk(t, pool0)
    requires Reserved(t.q, edges0, nodes0, n)
    modifies blocks, st`expansions, st`budgetExceeded
    ensures Fits(t.q, blocks) && PoolOk(t, pool) && pool0 <= pool
    ensures Paid(old(st.expansions), old(st.budgetExceeded), st.expansions, st.budgetExceeded, st.maxExpansions,
                 SearchBound(t.q))
    ensures Reserved(t.q, edges, nodes, if found then n + 1 else n)
  {
    pool, edges, nodes := pool0, edges0, nodes0;
    var next := SearchBlocked(st, blocks, t.q, edges, nodes);
    found := next.Found?;
    if found {
      ReserveMore(t, edges, nodes, n, next.edges);
      edges := edges + next.edges;
      nodes := nodes + Taken(t, next.edges);
      pool := Consider(t, pool, [], next);
    }
  }

  lemma FirstReserved(t: Terms, pool: seq<Candidate>)
    requires t.Valid() && PoolOk(t, pool) && pool != []
    ensures t.q.InRange(pool[0].edges) && Reserved(t.q, pool[0].edges, Taken(t, pool[0].edges), 1)
  {
    assert Good(t, pool[0]);
    TakenInRange(t, pool[0].edges);
    assert Times(1, t.q.nodeCount) == Times(0, t.q.nodeCount) + t.q.nodeCount;
  }

  /** The greedy diversity chain (src/planner.cpp:1215-1227). */
  method GreedyChain(st: SearchBudget, blocks: BlockSet, t: Terms, pool0: seq<Candidate>, cap: nat)
    returns (pool: seq<Candidate>, blockedNodes: seq<nat>)
    requires t.Valid() && t.q.source in t.q.allowed && Fits(t.q, blocks) && PoolOk(t, pool0) && pool0 != []
    modifies blocks, st`expansions, st`budgetExceeded
    ensures Fits(t.q, blocks) && PoolOk(t, pool) && pool0 <= pool
    ensures Paid(old(st.expansions), old(st.budgetExceeded), st.expansions, st.budgetExceeded, st.maxExpansions,
                 Times(t.wanted, SearchBound(t.q)))
    ensures InNodes(t.q, blockedNodes) && |blockedNodes| <= Times(t.wanted, t.q.nodeCount)
  {
    pool := pool0;
    FirstReserved(t, pool);
    var blockedEdges := pool[0].edges;
    blockedNodes := Taken(t, pool[0].edges);
    var step := 0;
    while step + 1 < t.wanted && |pool| < cap
      invariant Fits(t.q, blocks) && PoolOk(t, pool) && pool0 <= pool
      invariant Paid(old(st.expansions), old(st.budgetExceeded), st.expansions, st.budgetExceeded, st.maxExpansions,
                     Times(step, SearchBound(t.q)))
      invariant step < t.wanted && Reserved(t.q, blockedEdges, blockedNodes, step + 1)
      decreases t.wanted - step
    {
      TimesGrow(step + 1, t.wanted, SearchBound(t.q));
      TimesGrow(step + 1, t.wanted, t.q.nodeCount);
      var found;
      found, pool, blockedEdges, blockedNodes :=
        NextSibling(st, blocks, t, pool, blockedEdges, blockedNodes, step + 1);
      if !found {
        return;
      }
      step := step + 1;
    }
    TimesGrow(step, t.wanted, SearchBound(t.q));
    TimesGrow(step + 1, t.wanted, t.q.nodeCount);
  }

  /** Routes around one edge, or one node, of the cheapest route at a time (src/planner.cpp:1228-1258). */
  method Detours(st: SearchBudget, blocks: BlockSet, t: Terms, pool: seq<Candidate>, nodes: seq<nat>)
      returns (extra: seq<Candidate>)
    requires t.Valid() && t.q.source in t.q.allowed && Fits(t.q, blocks) && PoolOk(t, pool) && pool != []
    requires InNodes(t.q, nodes)
    modifies blocks, st`expansions, st`budgetExceeded
    ensures Fits(t.q, blocks) && PoolOk(t, extra)
    ensures Paid(old(st.expansions), old(st.budgetExceeded), st.expansions, st.budgetExceeded, st.maxExpansions,
                 Times(|pool[0].edges| + |nodes|, SearchBound(t.q)))
  {
    extra := [];
    TimesAdd(|pool[0].edges|, |nodes|, SearchBound(t.q));
    for i := 0 to |pool[0].edges|
      invariant Fits(t.q, blocks) && PoolOk(t, extra)
      invariant Paid(old(st.expansions), old(st.budgetExceeded), st.expansions, st.budgetExceeded, st.maxExpansions,
                     Times(i, SearchBound(t.q)))
    {
      var found := SearchBlocked(st, blocks, t.q, [pool[0].edges[i]], []);
      extra := Consider(t, extra, pool, found);
    }
    if t.disjointness == NodeDisjoint {
      for i := 0 to |nodes|
        invariant Fits(t.q, blocks) && PoolOk(t, extra)
        invariant Paid(old(st.expansions), old(st.budgetExceeded), st.expansions, st.budgetExceeded, st.maxExpansions,
                       Times(|pool[0].edges|, SearchBound(t.q)) + Times(i, SearchBound(t.q)))
      {
        var found := SearchBlocked(st, blocks, t.q, [], [nodes[i]]);
        extra := Consider(t, extra, pool, found);
      }
    }
  }

  /** Expansions that building one sample can take. */
  function SampleBound(t: Terms): nat {
    Times(1 + t.wanted + (t.q.nodeCount + Times(t.wanted, t.q.nodeCount)), SearchBound(t.q))
  }

  lemma {:induction false} SampleBoundSplit(t: Terms, detours: nat)
    requires detours <= t.q.nodeCount + Times(t.wanted, t.q.nodeCount)
    ensures SearchBound(t.q) + Times(t.wanted, SearchBound(t.q)) + Times(detours, SearchBound(t.q)) <= SampleBound(t)
  {
    var b := SearchBound(t.q);
    var most := t.q.nodeCount + Times(t.wanted, t.q.nodeCount);
    TimesGrow(detours, most, b);
    TimesAdd(1 + t.wanted, most, b);
    TimesAdd(1, t.wanted, b);
    assert Times(1, b) == Times(0, b) + b;
  }

  lemma GoodIsShort(t: Terms, pool: seq<Candidate>, i: nat)
    requires t.Valid() && PoolOk(t, pool) && i < |pool|
    ensures t.q.InRange(pool[i].edges) && |pool[i].edges| < t.q.nodeCount
  {
    assert Good(t, pool[i]);
    EnumeratePaths.SimpleIsShort(t.q, pool[i].edges);
  }

  /** Siblings and detours for the first path (src/planner.cpp:1215-1264). */
  method Diversify(st: SearchBudget, blocks: BlockSet, t: Terms, pool0: seq<Candidate>, cap: nat)
      returns (pool: seq<Candidate>)
    requires t.Valid() && t.q.source in t.q.allowed && Fits(t.q, blocks) && PoolOk(t, pool0) && pool0 != []
    modifies blocks, st`expansions, st`budgetExceeded
    ensures Fits(t.q, blocks) && PoolOk(t, pool) && pool != []
    ensures Paid(old(st.expansions), old(st.budgetExceeded), st.expansions, st.budgetExceeded, st.maxExpansions,
                 SampleBound(t) - SearchBound(t.q))
  {
    var nodes;
    pool, nodes := GreedyChain(st, blocks, t, pool0, cap);
    GoodIsShort(t, pool, 0);
    SampleBoundSplit(t, |pool[0].edges| + |nodes|);
    var extra := Detours(st, blocks, t, pool, nodes);
    SortedPool(t, extra);
    pool := Append(t, pool, Sort(CandidateLess, extra), cap);
  }

  /**
    The bounded sample used when the enumeration stopped early. It holds compliant paths only, each once, and is not
    empty when there are any, unless the search budget of the request ran out.
   */
  method SamplePool(st: SearchBudget, blocks: BlockSet, t: Terms, candidates: seq<Candidate>, cap: nat)
      returns (pool: seq<Candidate>)
    requires t.Valid() && t.q.source in t.q.allowed && Fits(t.q, blocks) && PoolOk(t, candidates)
    modifies blocks, st`expansions, st`budgetExceeded
    ensures Fits(t.q, blocks) && Clear(blocks)
    ensures PoolOk(t, pool) && Ordered(pool)
    ensures Paid(old(st.expansions), old(st.budgetExceeded), st.expansions, st.budgetExceeded, st.maxExpansions,
                 SampleBound(t))
    ensures pool == [] ==> st.budgetExceeded || forall p :: !t.q.Compliant(p)
  {
    SampleBoundSplit(t, 0);
    var best := SearchBlocked(st, blocks, t.q, [], []);
    pool := Consider(t, [], [], best);
    if pool == [] && candidates != [] {
      assert Good(t, candidates[0]);
      PoolSnoc(t, [], candidates[0]);
      pool := [candidates[0]];
    }
    if pool != [] {
      pool := Diversify(st, blocks, t, pool, cap);
    }
    pool := Append(t, pool, candidates, cap);
    SortedPool(t, pool);
    pool := Sort(CandidateLess, pool);
    blocks.Reset();
  }

  function Materialised(t: Terms, paths: seq<Path>): seq<Candidate>
    requires t.Valid() && forall p | p in paths :: t.q.InRange(p)
  {
    seq(|paths|, i requires 0 <= i < |paths| => Materialise(t, paths[i]))
  }

  /** The pool that stands for a list of paths. */
  function PoolOf(t: Terms, paths: seq<Path>): seq<Candidate>
    requires t.Valid() && forall p | p in paths :: t.q.InRange(p)
  {
    Sort(CandidateLess, Materialised(t, paths))
  }

  lemma {:induction false} PoolOfPaths(t: Terms, paths: seq<Path>)
    requires t.Valid() && Injective(paths) && (forall p | p in paths :: t.q.Compliant(p))
             && forall p | p in paths :: t.q.InRange(p)
    ensures PoolOk(t, PoolOf(t, paths)) && Ordered(PoolOf(t, paths)) && |PoolOf(t, paths)| == |paths|
    ensures forall p :: p in paths <==> Present(PoolOf(t, paths), p)
  {
    var before, after := Materialised(t, paths), PoolOf(t, paths);
    forall i | 0 <= i < |before|
      ensures Good(t, before[i])
    {
      assert paths[i] in paths;
    }
    SortedPool(t, before);
    forall p
      ensures p in paths <==> Present(after, p)
    {
      if p in paths {
        var k :| 0 <= k < |paths| && paths[k] == p;
        assert before[k] in after;
      }
      if Present(after, p) {
        var k :| 0 <= k < |after| && after[k].edges == p;
        assert after[k] in before;
      }
    }
  }

  /** Materialises the enumerated paths in canonical order (src/planner.cpp:1142-1154); the filter drops none. */
  method MaterialiseAll(t: Terms, paths: seq<Path>) returns (candidates: seq<Candidate>)
    requires t.Valid() && Injective(paths) && (forall p | p in paths :: t.q.Compliant(p))
             && forall p | p in paths :: t.q.InRange(p)
    ensures candidates == PoolOf(t, paths)
  {
    candidates := [];
    for i := 0 to |paths|
      invariant candidates == Materialised(t, paths)[..i]
    {
      assert paths[i] in paths;
      SimplePathAccepted(t.q, paths[i]);
      if FormsSimplePath(t.q, paths[i]) {
        candidates := candidates + [Materialise(t, paths[i])];
      }
    }
    assert Materialised(t, paths)[..|paths|] == Materialised(t, paths);
    candidates := Sort(CandidateLess, candidates);
  }
}
