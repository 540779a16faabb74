/** Families as plain sets of paths, the uniqueness of their encoding, and the flow bound applied to them. */
module FamilyLaws {
  import opened Paths
  import opened Finite
  import opened Sorting
  import opened Candidates
  import opened PathSets
  import opened SetEnumeration
  import opened Families
  import FlowNetworks

  // ----- families as sets of paths -----

  ghost function PathsOf(s: seq<Candidate>): set<Path> {
    set i | 0 <= i < |s| :: s[i].edges
  }

  ghost function Users(fam: set<Path>, x: nat): set<Path> {
    set p | p in fam && x in p
  }

  /** The declared problem for one logical edge, with no reference to order or encoding. */
  ghost predicate Admissible(t: Terms, fam: set<Path>)
    requires t.Valid()
  {
    && |fam| == t.wanted
    && (forall p | p in fam :: t.q.Compliant(p))
    && (forall p, r | p in fam && r in fam && p != r :: Compatible(t, Materialise(t, p), Materialise(t, r)))
    && (forall x | 0 <= x < |t.spare| && t.capacity[x] > 0 :: |Users(fam, x)| * t.demand <= t.spare[x])
  }

  lemma CompatibleSymmetric(t: Terms, a: Candidate, b: Candidate)
    requires t.q.InRange(a.edges) && t.q.InRange(b.edges) && Compatible(t, a, b)
    ensures Compatible(t, b, a)
  {
  }

  lemma {:induction false} PathLoadOnce(t: Terms, p: Path, x: nat)
    requires x < |t.capacity| && Injective(p)
    ensures PathLoad(t, p, x) == if x in p && t.capacity[x] > 0 then t.demand else 0
    decreases |p|
  {
    if p != [] {
      PathLoadOnce(t, p[..|p| - 1], x);
      assert p == p[..|p| - 1] + [p[|p| - 1]];
    }
  }

  lemma GoodPrefix(t: Terms, s: seq<Candidate>, n: nat)
    requires t.Valid() && AllGood(t, s) && n <= |s|
    ensures AllGood(t, s[..n])
  {
    forall i {:trigger Good(t, s[..n][i])} | 0 <= i < n
      ensures Good(t, s[..n][i])
    {
      assert Good(t, s[i]);
    }
  }

  lemma OneMore(n: nat, d: nat)
    ensures (n + 1) * d == n * d + d
  {
  }

  lemma UsersSnoc(fam: set<Path>, p: Path, x: nat)
    requires p !in fam
    ensures |Users(fam + {p}, x)| == |Users(fam, x)| + (if x in p then 1 else 0)
  {
    if x in p {
      assert Users(fam + {p}, x) == Users(fam, x) + {p};
    } else {
      assert Users(fam + {p}, x) == Users(fam, x);
    }
  }

  /** An edge carries one share per path that crosses it. */
  lemma {:induction false} LoadCountsUsers(t: Terms, s: seq<Candidate>, x: nat)
    requires t.Valid() && AllGood(t, s) && Ordered(s) && x < |t.capacity| && t.capacity[x] > 0
    ensures Load(t, s, x) == |Users(PathsOf(s), x)| * t.demand
    decreases |s|
  {
    if s == [] {
      assert Users(PathsOf(s), x) == {};
    } else {
      var init := s[..|s| - 1];
      var p := s[|s| - 1].edges;
      GoodPrefix(t, s, |s| - 1);
      LoadCountsUsers(t, init, x);
      LastIsSimple(t, s);
      PathLoadOnce(t, p, x);
      LastIsNew(t, s);
      assert s == init + [s[|s| - 1]];
      PathsSnoc(init, s[|s| - 1]);
      UsersSnoc(PathsOf(init), p, x);
      OneMore(|Users(PathsOf(init), x)|, t.demand);
    }
  }

  lemma LastIsSimple(t: Terms, s: seq<Candidate>)
    requires t.Valid() && AllGood(t, s) && s != []
    ensures Injective(s[|s| - 1].edges)
  {
    assert Good(t, s[|s| - 1]);
    SimplePathAccepted(t.q, s[|s| - 1].edges);
  }

  lemma PathsSnoc(s: seq<Candidate>, c: Candidate)
    ensures PathsOf(s + [c]) == PathsOf(s) + {c.edges}
  {
    forall p | p in PathsOf(s) + {c.edges}
      ensures p in PathsOf(s + [c])
    {
      if p == c.edges {
        assert (s + [c])[|s|] == c;
      } else {
        var i :| 0 <= i < |s| && s[i].edges == p;
        assert (s + [c])[i] == s[i];
      }
    }
  }

  lemma LastIsNew(t: Terms, s: seq<Candidate>)
    requires t.Valid() && AllGood(t, s) && Ordered(s) && s != []
    ensures s[|s| - 1].edges !in PathsOf(s[..|s| - 1])
  {
    var c := s[|s| - 1];
    if i :| 0 <= i < |s| - 1 && s[i].edges == c.edges {
      assert Good(t, s[i]) && Good(t, c);
      LexTotal(c.edges, c.edges);
    }
  }

  lemma {:induction false} PathsOfSize(t: Terms, s: seq<Candidate>)
    requires t.Valid() && AllGood(t, s) && Ordered(s)
    ensures |PathsOf(s)| == |s|
    decreases |s|
  {
    if s != [] {
      var init := s[..|s| - 1];
      GoodPrefix(t, s, |s| - 1);
      PathsOfSize(t, init);
      LastIsNew(t, s);
      PathsSnoc(init, s[|s| - 1]);
      assert s == init + [s[|s| - 1]];
    }
  }

  /** Any finite set of compliant paths can be listed in canonical order. */
  lemma {:induction false} ListInOrder(t: Terms, fam: set<Path>) returns (s: seq<Candidate>)
    requires t.Valid() && forall p | p in fam :: t.q.Compliant(p)
    ensures Ordered(s) && AllGood(t, s) && PathsOf(s) == fam
  {
    s := [];
    if fam != {} {
      var p :| p in fam;
      var rest := ListInOrder(t, fam - {p});
      var c := Materialise(t, p);
      CandidateOrder();
      OrderedSorted(rest);
      InsertSorted(CandidateLess, rest, c);
      s := Insert(CandidateLess, rest, c);
      var k := LowerBound(CandidateLess, rest, c);
      forall i | 0 <= i < |s|
        ensures Good(t, s[i])
      {
        assert Good(t, if i < k then rest[i] else if i == k then c else rest[i - 1]);
      }
      forall i, j | 0 <= i < j < |s|
        ensures CandidateLess(s[i], s[j])
      {
        InsertedApart(t, rest, c, k, i, j);
      }
      assert PathsOf(s) == PathsOf(rest) + {p} by {
        InsertedPaths(rest, c, k);
      }
    }
  }

  lemma OrderedSorted(s: seq<Candidate>)
    requires Ordered(s)
    ensures Sorted(CandidateLess, s)
  {
    CandidateOrder();
    forall i, j | 0 <= i < j < |s|
      ensures !CandidateLess(s[j], s[i])
    {
      Asymmetric(CandidateLess, s[i], s[j]);
    }
  }

  lemma InsertedApart(t: Terms, rest: seq<Candidate>, c: Candidate, k: nat, i: nat, j: nat)
    requires t.Valid() && AllGood(t, rest) && Ordered(rest) && Good(t, c) && c.edges !in PathsOf(rest)
    requires k <= |rest| && i < j <= |rest|
    requires Sorted(CandidateLess, rest[..k] + [c] + rest[k..])
    ensures var s := rest[..k] + [c] + rest[k..]; CandidateLess(s[i], s[j])
  {
    var s := rest[..k] + [c] + rest[k..];
    if i == k {
      assert s[j] == rest[j - 1] && Good(t, rest[j - 1]);
      CandidatesSeparated(t, c, rest[j - 1]);
      assert !CandidateLess(s[j], s[i]);
    } else if j == k {
      assert s[i] == rest[i] && Good(t, rest[i]);
      CandidatesSeparated(t, rest[i], c);
      assert !CandidateLess(s[j], s[i]);
    } else {
      assert s[i] == rest[if i < k then i else i - 1] && s[j] == rest[if j < k then j else j - 1];
    }
  }

  lemma InsertedPaths(rest: seq<Candidate>, c: Candidate, k: nat)
    requires k <= |rest|
    ensures PathsOf(rest[..k] + [c] + rest[k..]) == PathsOf(rest) + {c.edges}
  {
    var s := rest[..k] + [c] + rest[k..];
    forall i | 0 <= i < |rest|
      ensures rest[i].edges in PathsOf(s)
    {
      assert s[if i < k then i else i + 1] == rest[i];
    }
    assert s[k] == c;
    forall i | 0 <= i < |s|
      ensures s[i].edges in PathsOf(rest) + {c.edges}
    {
      assert s[i] == if i < k then rest[i] else if i == k then c else rest[i - 1];
    }
  }

  /** Families in canonical order and admissible sets of paths are the same thing. */
  lemma SetHasFamily(t: Terms, fam: set<Path>) returns (s: seq<Candidate>)
    requires t.Valid() && Admissible(t, fam)
    ensures Family(t, s) && PathsOf(s) == fam
  {
    s := ListInOrder(t, fam);
    PathsOfSize(t, s);
    forall i, j | 0 <= i < j < |s|
      ensures Compatible(t, s[i], s[j])
    {
      assert Good(t, s[i]) && Good(t, s[j]) && CandidateLess(s[i], s[j]);
      LexTotal(s[i].edges, s[i].edges);
      assert s[i].edges in fam && s[j].edges in fam;
    }
    forall x | 0 <= x < |t.spare|
      ensures Load(t, s, x) <= t.spare[x] || t.capacity[x] == 0
    {
      if t.capacity[x] > 0 {
        LoadCountsUsers(t, s, x);
      }
    }
  }

  lemma FamilyIsSet(t: Terms, s: seq<Candidate>)
    requires t.Valid() && Family(t, s)
    ensures Admissible(t, PathsOf(s))
  {
    var fam := PathsOf(s);
    PathsOfSize(t, s);
    forall p | p in fam
      ensures t.q.Compliant(p)
    {
      var i :| 0 <= i < |s| && s[i].edges == p;
      assert Good(t, s[i]);
    }
    forall p, r | p in fam && r in fam && p != r
      ensures Compatible(t, Materialise(t, p), Materialise(t, r))
    {
      var i :| 0 <= i < |s| && s[i].edges == p;
      var j :| 0 <= j < |s| && s[j].edges == r;
      assert Good(t, s[i]) && Good(t, s[j]);
      if i < j {
        assert Compatible(t, s[i], s[j]);
      } else {
        assert Compatible(t, s[j], s[i]);
        CompatibleSymmetric(t, s[j], s[i]);
      }
    }
    forall x | 0 <= x < |t.spare| && t.capacity[x] > 0
      ensures |Users(fam, x)| * t.demand <= t.spare[x]
    {
      LoadCountsUsers(t, s, x);
    }
  }

  // ----- the canonical encoding -----

  /** Only the last hop of a compliant path enters the target. */
  lemma EntersOnce(t: Terms, c: Candidate, k: nat)
    requires t.Valid() && Good(t, c) && k < |c.edges|
    ensures t.q.arcs[c.edges[k]].to == t.q.target <==> k == |c.edges| - 1
  {
    assert t.q.arcs[c.edges[k]].to == t.q.NodeAt(t.q.source, c.edges, k + 1);
    if k + 1 < |c.edges| {
      assert t.q.NodeAt(t.q.source, c.edges, k + 1) != t.q.NodeAt(t.q.source, c.edges, |c.edges|);
    }
  }

  lemma {:induction false} ConcatenatedEnds(t: Terms, s: seq<Candidate>)
    requires t.Valid() && AllGood(t, s) && t.q.source != t.q.target && s != []
    ensures var z := Concatenated(s); z != [] && z[|z| - 1] < |t.q.arcs| && t.q.arcs[z[|z| - 1]].to == t.q.target
  {
    var c := s[|s| - 1];
    assert Good(t, c) && c.edges != [];
    EntersOnce(t, c, |c.edges| - 1);
  }

  /** Two path lists whose concatenations agree end with paths of the same length. */
  lemma SameLastLength(t: Terms, a: seq<Candidate>, b: seq<Candidate>)
    requires t.Valid() && AllGood(t, a) && AllGood(t, b) && t.q.source != t.q.target && a != [] && b != []
    requires Concatenated(a) == Concatenated(b)
    ensures |a[|a| - 1].edges| >= |b[|b| - 1].edges|
  {
    var x, p := Concatenated(a[..|a| - 1]), a[|a| - 1].edges;
    var y, r := Concatenated(b[..|b| - 1]), b[|b| - 1].edges;
    if |p| < |r| {
      assert Good(t, a[|a| - 1]) && p != [];
      Overlap(x, p, y, r);
      assert a[..|a| - 1] != [];
      GoodPrefix(t, a, |a| - 1);
      ConcatenatedEnds(t, a[..|a| - 1]);
      assert Good(t, b[|b| - 1]);
      EntersOnce(t, b[|b| - 1], |r| - |p| - 1);
    }
  }

  lemma Overlap(x: seq<nat>, p: seq<nat>, y: seq<nat>, r: seq<nat>)
    requires x + p == y + r && |p| < |r|
    ensures |x| > 0 && x[|x| - 1] == r[|r| - |p| - 1]
  {
    assert (x + p)[|x| - 1] == (y + r)[|x| - 1];
  }

  lemma SplitAt(x: seq<nat>, p: seq<nat>, y: seq<nat>, r: seq<nat>)
    requires x + p == y + r && |p| == |r|
    ensures x == y && p == r
  {
    assert x == (x + p)[..|x|] && y == (y + r)[..|y|];
    assert p == (x + p)[|x|..] && r == (y + r)[|y|..];
  }

  /** So the last paths are the same, and what precedes them agrees again. */
  lemma {:induction false} LastAgree(t: Terms, a: seq<Candidate>, b: seq<Candidate>)
    requires t.Valid() && AllGood(t, a) && AllGood(t, b) && t.q.source != t.q.target && a != [] && b != []
    requires Concatenated(a) == Concatenated(b)
    ensures a[|a| - 1] == b[|b| - 1] && Concatenated(a[..|a| - 1]) == Concatenated(b[..|b| - 1])
  {
    SameLastLength(t, a, b);
    SameLastLength(t, b, a);
    assert Good(t, a[|a| - 1]) && Good(t, b[|b| - 1]);
    SplitAt(Concatenated(a[..|a| - 1]), a[|a| - 1].edges, Concatenated(b[..|b| - 1]), b[|b| - 1].edges);
  }

  /** The concatenated edge list of an answer decodes uniquely. */
  lemma {:induction false} SignatureDecodes(t: Terms, a: seq<Candidate>, b: seq<Candidate>)
    requires t.Valid() && AllGood(t, a) && AllGood(t, b) && t.q.source != t.q.target
    requires Concatenated(a) == Concatenated(b)
    ensures a == b
    decreases |a|
  {
    if a == [] || b == [] {
      if a != [] {
        ConcatenatedEnds(t, a);
      }
      if b != [] {
        ConcatenatedEnds(t, b);
      }
    } else {
      LastAgree(t, a, b);
      var a', b' := a[..|a| - 1], b[..|b| - 1];
      GoodPrefix(t, a, |a| - 1);
      GoodPrefix(t, b, |b| - 1);
      SignatureDecodes(t, a', b');
      assert a == a' + [a[|a| - 1]] && b == b' + [b[|b| - 1]];
    }
  }

  /** The total order of answers tells any two different answers apart. */
  lemma AnswersSeparated(t: Terms, a: PathSet, b: PathSet)
    requires t.Valid() && t.q.source != t.q.target && IsAnswer(t, a) && IsAnswer(t, b) && a != b
    ensures PathSetLess(a, b) || PathSetLess(b, a)
  {
    BuiltFromOrdered(t, a.paths);
    BuiltFromOrdered(t, b.paths);
    if a.signature == b.signature {
      SignatureDecodes(t, a.paths, b.paths);
    }
    LexTotal(a.signature, b.signature);
  }

  /** What the cap retains does not depend on the order in which answers were offered. */
  lemma {:induction false} RetentionIgnoresOrder(t: Terms, l1: seq<PathSet>, l2: seq<PathSet>, cap: nat)
    requires t.Valid() && t.q.source != t.q.target && multiset(l1) == multiset(l2)
    requires forall s | s in l1 :: IsAnswer(t, s)
    ensures OfferAll(l1, cap) == OfferAll(l2, cap)
  {
    KeepsTheBest(l1, cap);
    KeepsTheBest(l2, cap);
    PathSetOrder();
    SortKeeps(PathSetLess, l1);
    SortKeeps(PathSetLess, l2);
    var s1 := Sort(PathSetLess, l1);
    forall x, y | x in s1 && y in s1 && x != y
      ensures PathSetLess(x, y) || PathSetLess(y, x)
    {
      assert x in multiset(l1) && y in multiset(l1);
      AnswersSeparated(t, x, y);
    }
    SortedUnique(PathSetLess, s1, Sort(PathSetLess, l2));
  }

  // ----- the flow bound -----

  ghost function EdgeLists(s: seq<Candidate>): seq<Path> {
    seq(|s|, i requires 0 <= i < |s| => s[i].edges)
  }

  /** A family under a disjointness policy is one the flow certificate speaks about. */
  lemma FamilyIsDisjoint(t: Terms, s: seq<Candidate>)
    requires t.Valid() && Family(t, s) && t.disjointness != Shared
    ensures FlowNetworks.Family(t.q, t.disjointness == NodeDisjoint, EdgeLists(s))
  {
    var mode := t.disjointness == NodeDisjoint;
    var list := EdgeLists(s);
    forall k | 0 <= k < |list|
      ensures t.q.Walk(t.q.source, list[k], t.q.target) && t.q.Simple(t.q.source, list[k])
    {
      assert Good(t, s[k]);
    }
    forall k, l, item | 0 <= k < l < |list|
      ensures !(FlowNetworks.Occupies(t.q, mode, list[k], item) && FlowNetworks.Occupies(t.q, mode, list[l], item))
    {
      assert Compatible(t, s[k], s[l]);
    }
  }
}
