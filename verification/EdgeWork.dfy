/** What a complete analysis of one logical edge has to examine, and what it retains. */
module EdgeWork {
  import opened Saturating
  import opened Paths
  import opened Finite
  import opened Sorting
  import opened Candidates
  import opened PathSets
  import opened SetEnumeration
  import opened Families
  import opened FamilyLaws
  import opened EnumeratePaths
  import opened CandidatePool

  /** The pool holds every compliant path. */
  ghost predicate Complete(t: Terms, pool: seq<Candidate>) {
    forall p {:trigger Present(pool, p)} | t.q.Compliant(p) :: Present(pool, p)
  }

  /** Every path a complete enumeration records. */
  ghost function AllPaths(q: Query): seq<Path>
    requires q.Valid()
  {
    Deepening(q, Deepest(q))
  }

  lemma {:induction false} AllPathsExact(q: Query)
    requires q.Valid() && q.source in q.allowed
    ensures Injective(AllPaths(q)) && forall p | p in AllPaths(q) :: q.Compliant(p)
    ensures q.source != q.target ==> forall p | q.Compliant(p) :: p in AllPaths(q)
    ensures q.source == q.target ==> AllPaths(q) == []
  {
    PartialEnumeration(q, Deepest(q), AllPaths(q));
    if q.source != q.target {
      FullEnumeration(q, Deepest(q));
    }
  }

  /** The pool of a complete enumeration. */
  ghost function FullPool(t: Terms): (pool: seq<Candidate>)
    requires t.Valid() && t.q.source in t.q.allowed
    ensures PoolOk(t, pool) && Ordered(pool) && |pool| == |AllPaths(t.q)|
    ensures if t.q.source == t.q.target then pool == [] else Complete(t, pool)
  {
    AllPathsExact(t.q);
    InRangeToo(t.q, AllPaths(t.q));
    PoolOfPaths(t, AllPaths(t.q));
    PoolOf(t, AllPaths(t.q))
  }

  lemma InRangeToo(q: Query, paths: seq<Path>)
    requires forall p | p in paths :: q.Compliant(p)
    ensures forall p | p in paths :: q.InRange(p)
  {
  }

  /** The selections a complete search considers. */
  ghost function Selections(t: Terms): nat
    requires t.Valid() && t.q.source in t.q.allowed
  {
    Considered(t, FullPool(t), 0, [])
  }

  /** The alternatives a complete analysis retains: the best of all admissible selections, in order. */
  ghost function BestSets(t: Terms, cap: nat): seq<PathSet>
    requires t.Valid() && t.q.source in t.q.allowed
  {
    Take(Sort(PathSetLess, Offers(t, FullPool(t), 0, [])), cap)
  }

  /** A selection is considered for at most every subset of the paths, and a path found for at most every scan. */
  lemma SelectionsBounded(t: Terms)
    requires t.Valid() && t.q.source in t.q.allowed
    ensures Selections(t) <= SelectBound(RunBound(t.q))
  {
    ScansBounded(t.q, Deepest(t.q));
    ConsideredBounded(t, FullPool(t), 0, []);
    SelectBoundGrows(|AllPaths(t.q)|, RunBound(t.q));
  }

  // ----- one path -----

  /** Every edge a path may use can carry its share. */
  ghost predicate Carries(t: Terms)
    requires t.Valid()
  {
    forall e | e in t.q.usable && t.capacity[e] > 0 :: t.demand <= t.spare[e]
  }

  /** An edge-simple path loads an edge with one share or none. */
  lemma {:induction false} OneLoad(t: Terms, p: Path, x: nat)
    requires t.Valid() && t.q.Compliant(p) && x < |t.capacity|
    ensures Load(t, [Materialise(t, p)], x) == if x in p && t.capacity[x] > 0 then t.demand else 0
  {
    var s := [Materialise(t, p)];
    assert s[..0] == [] && Load(t, s[..0], x) == 0;
    SimplePathAccepted(t.q, p);
    PathLoadOnce(t, p, x);
  }

  /** When one path is wanted, a compliant path whose edges carry its share is an answer by itself. */
  lemma {:induction false} OneIsFamily(t: Terms, p: Path)
    requires t.Valid() && t.wanted == 1 && t.q.Compliant(p)
    requires forall x | x in p && x < |t.spare| && t.capacity[x] > 0 :: t.demand <= t.spare[x]
    ensures Family(t, [Materialise(t, p)])
  {
    var s := [Materialise(t, p)];
    assert Good(t, s[0]);
    forall x | 0 <= x < |t.spare|
      ensures Load(t, s, x) <= t.spare[x] || t.capacity[x] == 0
    {
      OneLoad(t, p, x);
    }
  }

  /** An answer with one path takes at most one share of a verified edge, and nothing of any other. */
  lemma {:induction false} OneAmount(t: Terms, s: PathSet, x: nat)
    requires t.Valid() && t.demand <= COST_CEILING && t.wanted == 1 && IsAnswer(t, s) && x < |t.capacity|
    ensures Amount(s.usage, x) <= if t.capacity[x] > 0 then t.demand else 0
  {
    var c := s.paths[0];
    assert Good(t, c) && s.paths == [Materialise(t, c.edges)];
    BuiltFromOrdered(t, s.paths);
    UsageAmount(t, s.paths, x);
    OneLoad(t, c.edges, x);
  }

  /** A family is offered when it is reached. */
  lemma {:induction false} FamilyIsOffered(t: Terms, s: seq<Candidate>)
    requires t.Valid() && t.demand <= COST_CEILING && Family(t, s)
    ensures Leaf(t, s) == [BuildPathSet(t, s)]
  {
    BuiltFromOrdered(t, s);
    UsageEdges(t, s);
    FitsIffCarried(t, s);
  }

  /** So every candidate is an answer by itself when one path is wanted, and each is considered. */
  lemma {:induction false} EachIsOffered(t: Terms, pool: seq<Candidate>)
    requires t.Valid() && t.demand <= COST_CEILING && t.wanted == 1 && Carries(t) && PoolOk(t, pool)
    ensures EachServes(t, pool) && (pool != [] ==> Considered(t, pool, 0, []) >= 1)
  {
    forall i | 0 <= i < |pool|
      ensures |Leaf(t, [pool[i]])| == 1
    {
      assert Good(t, pool[i]);
      OneIsFamily(t, pool[i].edges);
      FamilyIsOffered(t, [pool[i]]);
    }
    if pool != [] {
      assert Considered(t, pool, 1, [] + [pool[0]]) == 1;
      assert ConsideredAt(t, pool, 0, []) == 1;
    }
  }
}
