/** The logical edges a collective implies, each once, at its earliest stage (src/collective.cpp:27-99, 284-331). */
module LogicalEdges {
  import opened Candidates
  import opened Finite
  import opened Sorting
  import opened Thinning
  import opened Collectives

  // ----- one group -----

  /** What a canonical group means: src sends to dst. */
  ghost predicate Implies(g: Group, src: nat, dst: nat) {
    var m := g.members;
    match g.pattern
    case Ring => exists i | 0 <= i < |m| :: src == m[i] && dst == m[Succ(|m|, i)]
    case Tree =>
      || (g.direction != Reverse && g.root == Some(src) && dst in m && dst != src)
      || (g.direction != Forward && g.root == Some(dst) && src in m && src != dst)
    case Pairwise => exists i | 0 <= i < |m| :: i % 2 == 0 && i + 1 < |m| && Exchange(m[i], m[i + 1], src, dst)
    case AllToAll => src in m && dst in m && src != dst
  }

  predicate Exchange(a: nat, b: nat, src: nat, dst: nat) {
    (src == a && dst == b) || (src == b && dst == a)
  }

  function Succ(n: nat, i: nat): nat {
    if i + 1 < n then i + 1 else 0
  }

  /** The structural demands of the pattern. */
  predicate WellFormed(g: Group) {
    match g.pattern
    case Ring => |g.members| >= 2
    case Tree => |g.members| >= 2 && g.root.Some? && g.root.value in g.members
    case Pairwise => |g.members| % 2 == 0
    case AllToAll => |g.members| >= 2
  }

  ghost predicate Exactly(g: Group, edges: seq<Implied>) {
    forall e {:trigger e in edges} :: e in edges <==> Implies(g, e.src, e.dst) && e.stage == g.level
  }

  /** Members other than x. */
  function Others(m: seq<nat>, x: nat): nat {
    if m == [] then 0 else Others(m[..|m| - 1], x) + if m[|m| - 1] == x then 0 else 1
  }

  function OrderedPairs(m: seq<nat>, n: nat): nat
    requires n <= |m|
  {
    if n == 0 then 0 else OrderedPairs(m, n - 1) + Others(m, m[n - 1])
  }

  /** How many edges a well-formed group contributes. */
  function EdgeCount(g: Group): nat {
    match g.pattern
    case Ring => |g.members|
    case Tree => (if g.direction == Bidirectional then 2 else 1) * (if g.root.Some? then Others(g.members, g.root.value)
        else 0)
    case Pairwise => |g.members| / 2 * 2
    case AllToAll => OrderedPairs(g.members, |g.members|)
  }

  method RingEdges(g: Group) returns (edges: seq<Implied>)
    requires g.pattern == Ring
    ensures Exactly(g, edges) && |edges| == EdgeCount(g)
  {
    var m := g.members;
    edges := [];
    for i := 0 to |m|
      invariant |edges| == i
      invariant forall e {:trigger e in edges} :: e in edges <==>
                  e.stage == g.level && exists j | 0 <= j < i :: e.src == m[j] && e.dst == m[Succ(|m|, j)]
    {
      assert Succ(|m|, i) == (i + 1) % |m|;
      edges := edges + [Implied(m[i], m[(i + 1) % |m|], g.level)];
    }
  }

  method TreeEdges(g: Group, root: nat) returns (edges: seq<Implied>)
    requires g.pattern == Tree && g.root == Some(root)
    ensures Exactly(g, edges) && |edges| == EdgeCount(g)
  {
    var m := g.members;
    edges := [];
    for i := 0 to |m|
      invariant Exactly(g.(members := m[..i]), edges) && |edges| == EdgeCount(g.(members := m[..i]))
    {
      assert m[..i + 1] == m[..i] + [m[i]] && m[..i + 1][..i] == m[..i];
      if m[i] != root {
        if g.direction == Forward || g.direction == Bidirectional {
          edges := edges + [Implied(root, m[i], g.level)];
        }
        if g.direction == Reverse || g.direction == Bidirectional {
          edges := edges + [Implied(m[i], root, g.level)];
        }
      }
    }
    assert m[..|m|] == m;
  }

  method PairwiseEdges(g: Group) returns (edges: seq<Implied>)
    requires g.pattern == Pairwise
    ensures Exactly(g, edges) && |edges| == EdgeCount(g)
  {
    var m := g.members;
    edges := [];
    var i := 0;
    while i + 1 < |m|
      invariant i % 2 == 0 && |edges| == i <= |m|
      invariant forall e {:trigger e in edges} :: e in edges <==>
                  e.stage == g.level && exists j | 0 <= j < i ::
                      j % 2 == 0 && j + 1 < |m| && Exchange(m[j], m[j + 1], e.src, e.dst)
    {
      edges := edges + [Implied(m[i], m[i + 1], g.level), Implied(m[i + 1], m[i], g.level)];
      i := i + 2;
    }
  }

  method AllToAllEdges(g: Group) returns (edges: seq<Implied>)
    requires g.pattern == AllToAll
    ensures Exactly(g, edges) && |edges| == EdgeCount(g)
  {
    var m := g.members;
    edges := [];
    for i := 0 to |m|
      invariant |edges| == OrderedPairs(m, i)
      invariant forall e {:trigger e in edges} :: e in edges <==>
                  e.stage == g.level && e.src in m[..i] && e.dst in m && e.src != e.dst
    {
      edges := FanOut(m[i], m, g.level, edges);
      assert m[..i + 1] == m[..i] + [m[i]];
    }
    assert m[..|m|] == m;
  }

  method FanOut(src: nat, m: seq<nat>, level: nat, before: seq<Implied>) returns (edges: seq<Implied>)
    ensures forall e {:trigger e in edges} :: e in edges <==>
              e in before || (e.stage == level && e.src == src && e.dst in m && e.dst != src)
    ensures |edges| == |before| + Others(m, src)
  {
    edges := before;
    for j := 0 to |m|
      invariant |edges| == |before| + Others(m[..j], src)
      invariant forall e {:trigger e in edges} :: e in edges <==>
                  e in before || (e.stage == level && e.src == src && e.dst in m[..j] && e.dst != src)
    {
      assert m[..j + 1] == m[..j] + [m[j]] && m[..j + 1][..j] == m[..j];
      if src != m[j] {
        edges := edges + [Implied(src, m[j], level)];
      }
    }
    assert m[..|m|] == m;
  }

  /** The edges one group implies, or None when the group is malformed. */
  method GroupEdges(g: Group) returns (r: Option<seq<Implied>>)
    ensures r.Some? <==> WellFormed(g)
    ensures r.Some? ==> Exactly(g, r.value) && |r.value| == EdgeCount(g)
  {
    if !WellFormed(g) {
      return None;
    }
    var edges;
    match g.pattern {
      case Ring => edges := RingEdges(g);
      case Tree => edges := TreeEdges(g, g.root.value);
      case Pairwise => edges := PairwiseEdges(g);
      case AllToAll => edges := AllToAllEdges(g);
    }
    r := Some(edges);
  }

  // ----- all groups -----

  ghost predicate ImpliedBy(groups: seq<Group>, e: Implied) {
    exists i {:trigger groups[i]} | 0 <= i < |groups| :: Implies(groups[i], e.src, e.dst) && e.stage == groups[i].level
  }

  predicate AllWellFormed(groups: seq<Group>) {
    forall i | 0 <= i < |groups| :: WellFormed(groups[i])
  }

  function TotalCount(groups: seq<Group>): nat {
    if groups == [] then 0 else TotalCount(groups[..|groups| - 1]) + EdgeCount(groups[|groups| - 1])
  }

  ghost predicate AllImplied(groups: seq<Group>, edges: seq<Implied>) {
    forall e {:trigger e in edges} :: e in edges <==> ImpliedBy(groups, e)
  }

  lemma ImpliedSnoc(groups: seq<Group>, g: Group, e: Implied)
    ensures ImpliedBy(groups + [g], e) <==> ImpliedBy(groups, e) || (Implies(g, e.src, e.dst) && e.stage == g.level)
  {
    var more := groups + [g];
    if ImpliedBy(groups, e) {
      var i :| 0 <= i < |groups| && Implies(groups[i], e.src, e.dst) && e.stage == groups[i].level;
      assert more[i] == groups[i];
    }
    assert more[|groups|] == g;
  }

  /** Collects the edges of every group, in order, stopping at the first malformed one. */
  method Derive(groups: seq<Group>) returns (r: Option<seq<Implied>>)
    ensures r.Some? <==> AllWellFormed(groups)
    ensures r.Some? ==> AllImplied(groups, r.value) && |r.value| == TotalCount(groups)
  {
    var edges := [];
    for i := 0 to |groups|
      invariant AllWellFormed(groups[..i]) && AllImplied(groups[..i], edges) && |edges| == TotalCount(groups[..i])
    {
      var more := GroupEdges(groups[i]);
      if more.None? {
        return None;
      }
      assert groups[..i + 1] == groups[..i] + [groups[i]] && groups[..i + 1][..i] == groups[..i];
      forall e
        ensures e in edges + more.value <==> ImpliedBy(groups[..i + 1], e)
      {
        ImpliedSnoc(groups[..i], groups[i], e);
      }
      edges := edges + more.value;
    }
    assert groups[..|groups|] == groups;
    r := Some(edges);
  }

  // ----- one entry per pair -----

  predicate ImpliedLess(a: Implied, b: Implied) {
    if a.src != b.src then a.src < b.src else if a.dst != b.dst then a.dst < b.dst else a.stage < b.stage
  }

  lemma ImpliedOrder()
    ensures StrictWeak(ImpliedLess)
  {
  }

  predicate SamePair(a: Implied, b: Implied) {
    a.src == b.src && a.dst == b.dst
  }

  predicate PairBelow(a: Implied, b: Implied) {
    a.src < b.src || (a.src == b.src && a.dst < b.dst)
  }

  lemma PairGrouping()
    ensures Grouping(SamePair, PairBelow)
  {
  }

  /** The edge is implied, and by no group of a lower level. */
  ghost predicate Earliest(groups: seq<Group>, e: Implied) {
    && ImpliedBy(groups, e)
    && forall i {:trigger groups[i]} | 0 <= i < |groups|
       && Implies(groups[i], e.src, e.dst) :: e.stage <= groups[i].level
  }

  /** Every implied pair once, in strict order, at its earliest stage. */
  ghost predicate CanonicalEdges(groups: seq<Group>, r: seq<Implied>) {
    && (forall i, j | 0 <= i < j < |r| :: PairBelow(r[i], r[j]))
    && (forall e {:trigger e in r} :: e in r <==> Earliest(groups, e))
  }

  lemma {:induction false} FirstOfRun(s: seq<Implied>, q: nat, p: nat)
    requires Sorted(ImpliedLess, s) && Starts(SamePair, s, q) && p < |s| && SamePair(s[p], s[q])
    ensures s[q].stage <= s[p].stage
  {
    assert q < p ==> !ImpliedLess(s[p], s[q]);
  }

  lemma {:induction false} ThinIsCanonical(groups: seq<Group>, derived: seq<Implied>, s: seq<Implied>)
    requires AllImplied(groups, derived) && multiset(s) == multiset(derived) && Sorted(ImpliedLess, s)
    ensures CanonicalEdges(groups, Thin(SamePair, s))
  {
    PairGrouping();
    SameElements(s, derived);
    SortedRuns(s);
    ThinExact(SamePair, PairBelow, s);
    var r := Thin(SamePair, s);
    forall e | e in r
      ensures Earliest(groups, e)
    {
      KeptIsEarliest(groups, derived, s, e);
    }
    forall e | Earliest(groups, e)
      ensures e in r
    {
      assert e in derived && e in s;
      var i :| 0 <= i < |r| && SamePair(r[i], e);
      KeptIsEarliest(groups, derived, s, r[i]);
      EarliestUnique(groups, r[i], e);
    }
  }

  lemma SortedRuns(s: seq<Implied>)
    requires Sorted(ImpliedLess, s)
    ensures Runs(SamePair, PairBelow, s)
  {
    forall i | 1 <= i < |s|
      ensures Moves(SamePair, PairBelow, s, i)
    {
      assert !ImpliedLess(s[i], s[i - 1]);
    }
  }

  lemma {:induction false} KeptIsEarliest(groups: seq<Group>, derived: seq<Implied>, s: seq<Implied>, e: Implied)
    requires AllImplied(groups, derived) && (forall x :: x in s <==> x in derived) && Sorted(ImpliedLess, s)
    requires Thinned(SamePair, PairBelow, s, Thin(SamePair, s)) && e in Thin(SamePair, s)
    ensures Earliest(groups, e)
  {
    var r := Thin(SamePair, s);
    var i :| 0 <= i < |r| && r[i] == e;
    var q: nat :| Starts(SamePair, s, q) && s[q] == r[i];
    assert e in derived;
    forall j | 0 <= j < |groups| && Implies(groups[j], e.src, e.dst)
      ensures e.stage <= groups[j].level
    {
      var x := Implied(e.src, e.dst, groups[j].level);
      assert ImpliedBy(groups, x) && x in derived && x in s;
      var p :| 0 <= p < |s| && s[p] == x;
      FirstOfRun(s, q, p);
    }
  }

  lemma {:induction false} EarliestUnique(groups: seq<Group>, a: Implied, b: Implied)
    requires Earliest(groups, a) && Earliest(groups, b) && SamePair(a, b)
    ensures a == b
  {
    var i :| 0 <= i < |groups| && Implies(groups[i], a.src, a.dst) && a.stage == groups[i].level;
    var j :| 0 <= j < |groups| && Implies(groups[j], b.src, b.dst) && b.stage == groups[j].level;
  }
}
