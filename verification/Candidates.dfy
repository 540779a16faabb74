/** Materialised paths, their canonical order and the compatibility of siblings (src/planner.cpp:68-88, 517-638). */
module Candidates {
  import opened Saturating
  import opened Paths
  import opened Sorting

  datatype Option<T> = None | Some(value: T)

  datatype Disjointness = Shared | EdgeDisjoint | NodeDisjoint

  datatype Diversity = Ignored | Preferred | Required

  /** Everything one logical edge is judged by: the routing question plus per-edge evidence and the policy modes. */
  datatype Terms = Terms(q: Query, capacity: seq<nat>, spare: seq<nat>, evidence: seq<nat>, domain: seq<Option<nat>>,
                         demand: nat, wanted: nat, disjointness: Disjointness, diversity: Diversity)
  {
    ghost predicate Valid() {
      && q.Valid() && wanted >= 1
      && |capacity| == |spare| == |evidence| == |domain| == |q.arcs|
      && (forall e | 0 <= e < |spare| :: spare[e] < COST_CEILING)
    }
  }

  /** `domain[e]` is the failure domain of edge e lifted to the policy's diversity level. */
  datatype Candidate = Candidate(edges: Path, cost: nat, bottleneck: nat, weakest: nat, signature: set<nat>,
      domainKnown: bool)

  const MEASURED: nat := 2

  function Bottleneck(t: Terms, p: Path): nat
    requires t.Valid() && t.q.InRange(p)
  {
    if p == [] then COST_CEILING else Min(Bottleneck(t, p[..|p| - 1]), t.spare[p[|p| - 1]])
  }

  function Weakest(t: Terms, p: Path): nat
    requires t.Valid() && t.q.InRange(p)
  {
    if p == [] then MEASURED else Min(Weakest(t, p[..|p| - 1]), t.evidence[p[|p| - 1]])
  }

  /** A path is no better evidenced, and no wider, than its worst edge. */
  lemma {:induction false} WorstEdges(t: Terms, p: Path, evidence: nat, width: nat)
    requires t.Valid() && t.q.InRange(p) && evidence <= MEASURED && width <= COST_CEILING
    ensures evidence <= Weakest(t, p) <==> forall i | 0 <= i < |p| :: evidence <= t.evidence[p[i]]
    ensures width <= Bottleneck(t, p) <==> forall i | 0 <= i < |p| :: width <= t.spare[p[i]]
    decreases |p|
  {
    if p != [] {
      var rest := p[..|p| - 1];
      WorstEdges(t, rest, evidence, width);
      assert forall i | 0 <= i < |rest| :: rest[i] == p[i];
    }
  }

  /** The declared domains along the path, in hop order. */
  function HopDomains(t: Terms, p: Path): seq<nat>
    requires t.Valid() && t.q.InRange(p)
  {
    if p == [] then []
    else HopDomains(t, p[..|p| - 1]) + (match t.domain[p[|p| - 1]] case None => [] case Some(d) => [d])
  }

  function RemoveFirst(s: seq<nat>, x: nat): seq<nat> {
    if s == [] then [] else if s[0] == x then s[1..] else [s[0]] + RemoveFirst(s[1..], x)
  }

  /** Drops the first hop's domain and the next occurrence of the last hop's domain. */
  function WithoutEndpoints(domains: seq<nat>): seq<nat> {
    if domains == [] then [] else RemoveFirst(domains[1..], domains[|domains| - 1])
  }

  function Signature(t: Terms, p: Path): set<nat>
    requires t.Valid() && t.q.InRange(p)
  {
    if t.diversity == Ignored then {} else set d | d in WithoutEndpoints(HopDomains(t, p))
  }

  predicate DomainKnown(t: Terms, p: Path)
    requires t.Valid() && t.q.InRange(p)
  {
    forall i | 0 <= i < |p| :: t.domain[p[i]].Some?
  }

  function Materialise(t: Terms, p: Path): Candidate
    requires t.Valid() && t.q.InRange(p)
  {
    var b := Bottleneck(t, p);
    Candidate(p, t.q.Cost(p), if b == COST_CEILING then 0 else b, Weakest(t, p), Signature(t, p), DomainKnown(t, p))
  }

  /** The re-check of src/planner.cpp:517-547: hop bound, no repeated node, no repeated edge. */
  predicate FormsSimplePath(q: Query, p: Path)
    requires q.InRange(p)
  {
    && |p| <= q.hopLimit
    && (forall i, j | 0 <= i < j <= |p| :: q.NodeAt(q.source, p, i) != q.NodeAt(q.source, p, j))
    && (forall i, j | 0 <= i < j < |p| :: p[i] != p[j])
  }

  /** The re-check never rejects what a search delivers. */
  lemma SimplePathAccepted(q: Query, p: Path)
    requires q.InRange(p) && q.Simple(q.source, p) && |p| <= q.hopLimit
    ensures FormsSimplePath(q, p)
  {
    forall i, j | 0 <= i < j < |p|
      ensures p[i] != p[j]
    {
      assert q.NodeAt(q.source, p, i + 1) != q.NodeAt(q.source, p, j + 1);
    }
  }

  // ----- canonical order -----

  /** Lexicographic order of index vectors. */
  predicate LexLess(a: seq<nat>, b: seq<nat>) {
    b != [] && (a == [] || a[0] < b[0] || (a[0] == b[0] && LexLess(a[1..], b[1..])))
  }

  lemma {:induction false} LexTotal(a: seq<nat>, b: seq<nat>)
    ensures a == b || LexLess(a, b) || LexLess(b, a)
    ensures !(LexLess(a, b) && LexLess(b, a)) && !LexLess(a, a)
    decreases |a|
  {
    if a != [] {
      LexTotal(a[1..], a[1..]);
      if b != [] {
        LexTotal(a[1..], b[1..]);
        assert a == [a[0]] + a[1..] && b == [b[0]] + b[1..];
      }
    }
  }

  lemma {:induction false} LexTransitive(a: seq<nat>, b: seq<nat>, c: seq<nat>)
    requires LexLess(a, b) && LexLess(b, c)
    ensures LexLess(a, c)
    decreases |a|
  {
    if a != [] && a[0] == b[0] == c[0] {
      LexTransitive(a[1..], b[1..], c[1..]);
    }
  }

  predicate CandidateLess(a: Candidate, b: Candidate) {
    if a.cost != b.cost then a.cost < b.cost
    else if |a.edges| != |b.edges| then |a.edges| < |b.edges|
    else LexLess(a.edges, b.edges)
  }

  lemma CandidateOrder()
    ensures StrictWeak(CandidateLess)
  {
    forall a: Candidate, b: Candidate, c: Candidate
      ensures !CandidateLess(a, a)
      ensures CandidateLess(a, b) && CandidateLess(b, c) ==> CandidateLess(a, c)
      ensures CandidateLess(a, c) ==> CandidateLess(a, b) || CandidateLess(b, c)
    {
      LexTotal(a.edges, a.edges);
      LexTotal(a.edges, b.edges);
      LexTotal(b.edges, c.edges);
      LexTotal(a.edges, c.edges);
      if LexLess(c.edges, b.edges) && LexLess(b.edges, a.edges) {
        LexTransitive(c.edges, b.edges, a.edges);
      }
      if LexLess(a.edges, b.edges) && LexLess(b.edges, c.edges) {
        LexTransitive(a.edges, b.edges, c.edges);
      }
    }
  }

  /** Candidates of the same terms are told apart by the order. */
  lemma CandidatesSeparated(t: Terms, a: Candidate, b: Candidate)
    requires t.Valid() && t.q.InRange(a.edges) && t.q.InRange(b.edges)
    requires a == Materialise(t, a.edges) && b == Materialise(t, b.edges) && a != b
    ensures CandidateLess(a, b) || CandidateLess(b, a)
  {
    LexTotal(a.edges, b.edges);
  }

  // ----- siblings -----

  predicate NoSharedEdge(a: Path, b: Path) {
    forall e | e in a :: e !in b
  }

  /** No interior node in common; the last hop of each path enters the shared destination. */
  predicate NoSharedNode(q: Query, a: Path, b: Path)
    requires q.InRange(a) && q.InRange(b)
  {
    forall i, j | 0 <= i < |a| - 1 && 0 <= j < |b| - 1 :: q.arcs[a[i]].to != q.arcs[b[j]].to
  }

  predicate Independent(a: Candidate, b: Candidate) {
    a.domainKnown && b.domainKnown && a.signature !! b.signature
  }

  /** Two candidates may serve the same logical edge. */
  predicate Compatible(t: Terms, a: Candidate, b: Candidate)
    requires t.q.InRange(a.edges) && t.q.InRange(b.edges)
  {
    && (t.disjointness != Shared ==> NoSharedEdge(a.edges, b.edges))
    && (t.disjointness == NodeDisjoint ==> NoSharedNode(t.q, a.edges, b.edges))
    && (t.diversity == Required ==> Independent(a, b))
  }
}
