/** Analysis of one logical edge (src/planner.cpp:1283-1443). */
module EdgeAnalysis {
  import opened Saturating
  import opened Paths
  import opened Finite
  import opened Sorting
  import opened Candidates
  import opened PathSets
  import opened SetEnumeration
  import opened Families
  import opened FamilyLaws
  import opened ShortestPath
  import opened EnumeratePaths
  import opened CandidatePool
  import opened EdgeWork
  import Reachability
  import DisjointPaths
  import FlowNetworks
  import MaxFlow

  /** Declared search bounds (include/cpath/planner.hpp:94-124). */
  datatype PlannerLimits = PlannerLimits(maxCandidatePaths: nat, maxExhaustivePaths: nat, maxEnumerationSteps: nat,
                                         maxTotalEnumerationSteps: nat, maxCombinationSteps: nat,
                                             maxSetAlternatives: nat,
                                         maxGlobalNodes: nat, collectAllDenials: bool)

  /** The limits in force unless a caller sets others. */
  const Defaults := PlannerLimits(8, 64, 512, 0x20_0000, 200000, 8, 200000, true)

  datatype DenialKind = InvalidRequest | ProvenInfeasible | SearchLimitReached

  datatype EdgePlan = Denied(kind: DenialKind) | Planned(sets: seq<PathSet>, exhaustive: bool, accepted: nat)

  /** No set of sibling paths serves the logical edge. */
  ghost predicate NoFamily(t: Terms)
    requires t.Valid()
  {
    forall s :: !Family(t, s)
  }

  // ----- reasons for infeasibility -----

  lemma FamilyHasPath(t: Terms, s: seq<Candidate>)
    requires t.Valid() && Family(t, s)
    ensures t.q.Compliant(s[0].edges) && t.q.source in t.q.allowed && t.q.target in t.q.allowed
  {
    assert Good(t, s[0]);
    var p := s[0].edges;
    if p != [] {
      assert p[|p| - 1] in t.q.usable && t.q.NodeAt(t.q.source, p, |p|) == t.q.target;
    }
  }

  lemma IneligibleEndpoint(t: Terms)
    requires t.Valid() && (t.q.source !in t.q.allowed || t.q.target !in t.q.allowed)
    ensures NoFamily(t)
  {
    forall s: seq<Candidate>
      ensures !Family(t, s)
    {
      if Family(t, s) {
        FamilyHasPath(t, s);
      }
    }
  }

  lemma NoCompliantPath(t: Terms)
    requires t.Valid() && forall p :: !t.q.Compliant(p)
    ensures NoFamily(t)
  {
    forall s: seq<Candidate>
      ensures !Family(t, s)
    {
      if Family(t, s) {
        FamilyHasPath(t, s);
      }
    }
  }

  /** Between a node and itself only the empty path is simple, so two siblings cannot exist. */
  lemma SameNodeOnePath(t: Terms)
    requires t.Valid() && t.q.source == t.q.target && t.wanted >= 2
    ensures NoFamily(t)
  {
    forall s: seq<Candidate>
      ensures !Family(t, s)
    {
      if Family(t, s) {
        assert Good(t, s[0]) && Good(t, s[1]);
        OnlyEmpty(t.q, s[0].edges);
        OnlyEmpty(t.q, s[1].edges);
        LexTotal(s[0].edges, s[0].edges);
      }
    }
  }

  lemma OnlyEmpty(q: Query, p: Path)
    requires q.source == q.target && q.Walk(q.source, p, q.target) && q.Simple(q.source, p)
    ensures p == []
  {
    assert q.NodeAt(q.source, p, 0) == q.NodeAt(q.source, p, |p|);
  }

  /** One participant pair on one eligible node is served by the empty path. */
  lemma SameNodeServed(t: Terms)
    requires t.Valid() && t.q.source == t.q.target && t.wanted == 1 && t.q.source in t.q.allowed
    ensures Family(t, [Materialise(t, [])])
  {
    OneIsFamily(t, []);
  }

  lemma FlowBound(t: Terms, r: nat)
    requires t.Valid() && t.disjointness != Shared && r < t.wanted
    requires forall family | FlowNetworks.Family(t.q, t.disjointness == NodeDisjoint, family) :: |family| <= r
    ensures NoFamily(t)
  {
    forall s: seq<Candidate>
      ensures !Family(t, s)
    {
      if Family(t, s) {
        FamilyIsDisjoint(t, s);
      }
    }
  }

  // ----- what the set search knows about families -----

  lemma InitialPartial(t: Terms, pool: seq<Candidate>)
    requires t.Valid() && PoolOk(t, pool) && Ordered(pool)
    ensures Partial(t, pool, 0, [])
  {
  }

  lemma FamilyInPool(t: Terms, pool: seq<Candidate>, s: seq<Candidate>)
    requires t.Valid() && PoolOk(t, pool) && Complete(t, pool) && AllGood(t, s)
    ensures forall k | 0 <= k < |s| :: s[k] in pool
  {
    forall k | 0 <= k < |s|
      ensures s[k] in pool
    {
      assert Good(t, s[k]);
      assert Present(pool, s[k].edges);
      var i :| 0 <= i < |pool| && pool[i].edges == s[k].edges;
      assert Good(t, pool[i]);
    }
  }

  /** With a complete pool the offers are exactly the answers. */
  lemma {:induction false} OffersAreAnswers(t: Terms, pool: seq<Candidate>, s: PathSet)
    requires t.Valid() && t.demand <= COST_CEILING && PoolOk(t, pool) && Ordered(pool)
    ensures s in Offers(t, pool, 0, []) ==> IsAnswer(t, s)
    ensures Complete(t, pool) && IsAnswer(t, s) ==> s in Offers(t, pool, 0, [])
  {
    InitialPartial(t, pool);
    if s in Offers(t, pool, 0, []) {
      OffersSound(t, pool, 0, [], s);
    }
    if Complete(t, pool) && IsAnswer(t, s) {
      AnswerIsOffered(t, pool, s);
    }
  }

  lemma {:induction false} AnswerIsOffered(t: Terms, pool: seq<Candidate>, s: PathSet)
    requires t.Valid() && t.demand <= COST_CEILING && PoolOk(t, pool) && Partial(t, pool, 0, [])
    requires Complete(t, pool) && IsAnswer(t, s)
    ensures s in Offers(t, pool, 0, [])
  {
    FamilyInPool(t, pool, s.paths);
    assert pool[0..] == pool && [] + s.paths == s.paths;
    OffersComplete(t, pool, 0, [], s.paths);
  }

  /** Retained alternatives come from the offers, the first of them beats none, and within the cap none is missing. */
  lemma {:induction false} Retained(offered: seq<PathSet>, cap: nat)
    ensures var best := OfferAll(offered, cap);
            && (forall s | s in best :: s in offered)
            && (cap >= 1 ==> (best == [] <==> offered == []))
            && (best != [] ==> forall s | s in offered :: !PathSetLess(s, best[0]))
            && (|offered| <= cap ==> forall s | s in offered :: s in best)
            && |best| <= cap
  {
    KeepsTheBest(offered, cap);
    PathSetOrder();
    SortKeeps(PathSetLess, offered);
    var sorted := Sort(PathSetLess, offered);
    assert |sorted| == |multiset(sorted)| == |offered|;
    assert forall s :: s in sorted <==> s in multiset(sorted);
    assert forall s :: s in offered <==> s in multiset(offered);
    var best := OfferAll(offered, cap);
    forall s | s in offered && best != []
      ensures !PathSetLess(s, best[0])
    {
      var k :| 0 <= k < |sorted| && sorted[k] == s;
      assert best[0] == sorted[0];
      assert k > 0 ==> !PathSetLess(sorted[k], sorted[0]);
    }
  }

  /** The logical edge has at most `cap` answers, so the cap cannot drop any. */
  ghost predicate FewAnswers(t: Terms, cap: nat)
    requires t.Valid()
  {
    forall list {:trigger Injective<PathSet>(list)} | Injective<PathSet>(list)
        && (forall s | s in list :: IsAnswer(t, s)) :: |list| <= cap
  }

  /** What the returned alternatives stand for. */
  ghost predicate Represents(t: Terms, plan: EdgePlan, cap: nat)
    requires t.Valid() && plan.Planned?
  {
    && 0 < |plan.sets| <= cap
    && (forall s | s in plan.sets :: IsAnswer(t, s) && !PathSetLess(s, plan.sets[0]))
    && (plan.exhaustive ==> forall s | IsAnswer(t, s) :: !PathSetLess(s, plan.sets[0]))
    && (plan.exhaustive && plan.accepted <= cap ==> forall s | IsAnswer(t, s) :: s in plan.sets)
    && (plan.exhaustive ==> t.q.source in t.q.allowed && plan.sets == BestSets(t, cap))
    && (FewAnswers(t, cap) ==> plan.accepted <= cap)
  }

  /** The side condition under which a "proven infeasible" verdict is true. */
  ghost predicate Honest(t: Terms) {
    t.q.source != t.q.target || t.wanted >= 2 || t.q.source !in t.q.allowed
  }

  /** Outside the side condition the logical edge can always be served, so no such verdict could be true. */
  lemma HonestyIsNeeded(t: Terms)
    requires t.Valid() && NoFamily(t)
    ensures Honest(t)
  {
    if !Honest(t) {
      SameNodeServed(t);
    }
  }

  /**
    The work the analysis has to do stays below the limits, `left` scans being left of the budget of the request:
    the scans of the enumeration, the paths there are, and the selections from them.
   */
  ghost predicate Searchable(t: Terms, limits: PlannerLimits, left: int)
    requires t.Valid()
  {
    && Enumerable(t.q, limits.maxExhaustivePaths, limits.maxEnumerationSteps, left)
    && (t.q.source in t.q.allowed ==> Selections(t) < limits.maxCombinationSteps)
  }

  /** The per-edge limits leave room for an enumeration of `bound` steps and for every selection from its paths. */
  predicate Ample(limits: PlannerLimits, bound: nat) {
    bound < limits.maxEnumerationSteps && bound <= limits.maxExhaustivePaths
        && SelectBound(bound) < limits.maxCombinationSteps
  }

  lemma SearchableGrows(t: Terms, limits: PlannerLimits, left: int, more: int)
    requires t.Valid() && Searchable(t, limits, left) && left <= more
    ensures Searchable(t, limits, more)
  {
  }

  /** Limits above a bound on the size of the question always suffice. */
  lemma AmpleIsEnough(t: Terms, limits: PlannerLimits, left: int)
    requires t.Valid() && Ample(limits, RunBound(t.q)) && RunBound(t.q) < left
    ensures Searchable(t, limits, left)
  {
    EnumerableWithin(t.q, limits.maxExhaustivePaths, limits.maxEnumerationSteps, left);
    if t.q.source in t.q.allowed {
      SelectionsBounded(t);
    }
  }

  /** One path is wanted, there is one, and the limits allow for looking at it and keeping it. */
  ghost predicate OneWillDo(t: Terms, limits: PlannerLimits)
    requires t.Valid()
  {
    && t.wanted == 1 && Carries(t) && (exists p :: t.q.Compliant(p))
    && limits.maxCombinationSteps >= 1 && limits.maxSetAlternatives >= 1
  }

  /** An endpoint is ineligible, or no walk over usable edges is short enough, whatever it costs. */
  ghost predicate OutOfReach(q: Query) {
    q.source !in q.allowed || q.target !in q.allowed
    || forall p | q.Walk(q.source, p, q.target) :: |p| > q.hopLimit
  }

  /** The analysis does not claim to have seen everything. */
  predicate Inconclusive(plan: EdgePlan) {
    plan == Denied(SearchLimitReached) || (plan.Planned? && !plan.exhaustive)
  }

  /** Enumerated paths, reported exhaustive only when no bound interfered (src/planner.cpp:1344-1359). */
  method EnumerateFor(st: SearchBudget, blocks: BlockSet, t: Terms, limits: PlannerLimits)
      returns (paths: seq<Path>, exhaustive: bool)
    requires t.Valid() && t.q.source in t.q.allowed && Fits(t.q, blocks)
    modifies blocks, st`enumerationSteps, st`enumerationExhausted
    ensures Fits(t.q, blocks) && Clear(blocks)
    ensures Injective(paths) && forall p | p in paths :: t.q.Compliant(p)
    ensures t.q.source == t.q.target ==> paths == []
    ensures exhaustive <==> Enumerable(t.q, limits.maxExhaustivePaths, limits.maxEnumerationSteps,
                                       st.enumerationBudget - old(st.enumerationSteps))
    ensures exhaustive ==> paths == AllPaths(t.q)
    ensures old(st.enumerationSteps) <= st.enumerationSteps
            <= old(st.enumerationSteps) + Scans(t.q, Deepest(t.q))
  {
    blocks.Reset();
    WithoutNothing(t.q);
    var q := Without(t.q, blocks.Nodes(), blocks.Edges());
    assert q == t.q;
    AllPathsExact(q);
    var e := new Enumeration();
    e.Run(st, q, limits.maxExhaustivePaths, limits.maxEnumerationSteps);
    exhaustive := e.exhaustive && !e.stepLimited && |e.paths| <= limits.maxExhaustivePaths;
    paths := if |e.paths| > limits.maxExhaustivePaths then e.paths[..limits.maxExhaustivePaths] else e.paths;
  }

  /** build_pool: the feasible path set itself when the enumeration completed, a sample otherwise. */
  method BuildPool(st: SearchBudget, blocks: BlockSet, t: Terms, paths: seq<Path>, exhaustive: bool,
      limits: PlannerLimits)
    returns (pool: seq<Candidate>)
    requires t.Valid() && t.q.source in t.q.allowed && Fits(t.q, blocks) && Clear(blocks)
    requires Injective(paths) && forall p | p in paths :: t.q.Compliant(p)
    requires exhaustive ==> paths == AllPaths(t.q)
    modifies blocks, st`expansions, st`budgetExceeded
    ensures Fits(t.q, blocks) && Clear(blocks) && PoolOk(t, pool) && Ordered(pool)
    ensures exhaustive ==> pool == FullPool(t)
    ensures Paid(old(st.expansions), old(st.budgetExceeded), st.expansions, st.budgetExceeded, st.maxExpansions,
                 SampleBound(t))
    ensures !exhaustive && pool == [] ==> st.budgetExceeded || forall p :: !t.q.Compliant(p)
  {
    InRangeToo(t.q, paths);
    PoolOfPaths(t, paths);
    pool := MaterialiseAll(t, paths);
    if !exhaustive {
      pool := SamplePool(st, blocks, t, pool, limits.maxCandidatePaths);
    }
  }

  /** The pool is that of a complete enumeration between distinct nodes. */
  ghost predicate Whole(t: Terms, pool: seq<Candidate>)
    requires t.Valid()
  {
    t.q.source in t.q.allowed && t.q.source != t.q.target && pool == FullPool(t)
  }

  /** What the retained sets say about all answers. */
  lemma {:induction false} RetainedAnswers(t: Terms, pool: seq<Candidate>, offered: seq<PathSet>, exhaustive: bool,
      cap: nat)
    requires t.Valid() && t.demand <= COST_CEILING && PoolOk(t, pool) && Ordered(pool)
    requires Grown([], Offers(t, pool, 0, []), offered, exhaustive) && (exhaustive ==> Whole(t, pool))
    ensures var best := OfferAll(offered, cap);
            && (best != [] ==> Represents(t, Planned(best, exhaustive, |offered|), cap))
            && (best == [] && exhaustive && cap >= 1 ==> forall s :: !IsAnswer(t, s))
  {
    Retained(offered, cap);
    if exhaustive {
      RetainedBest(t, pool, offered, cap);
    }
    OfferedAnswers(t, pool, offered, exhaustive);
  }

  lemma {:induction false} RetainedBest(t: Terms, pool: seq<Candidate>, offered: seq<PathSet>, cap: nat)
    requires t.Valid() && AllInRange(t, pool) && Whole(t, pool)
    requires Grown([], Offers(t, pool, 0, []), offered, true)
    ensures OfferAll(offered, cap) == BestSets(t, cap)
  {
    KeepsTheBest(offered, cap);
    assert offered == Offers(t, FullPool(t), 0, []);
  }

  lemma {:induction false} OfferedAnswers(t: Terms, pool: seq<Candidate>, offered: seq<PathSet>, exhaustive: bool)
    requires t.Valid() && t.demand <= COST_CEILING && PoolOk(t, pool) && Ordered(pool)
    requires Grown([], Offers(t, pool, 0, []), offered, exhaustive) && (exhaustive ==> Complete(t, pool))
    ensures Injective(offered) && forall s | s in offered :: IsAnswer(t, s)
    ensures exhaustive ==> forall s | IsAnswer(t, s) :: s in offered
  {
    forall s
      ensures s in offered ==> IsAnswer(t, s)
      ensures exhaustive && IsAnswer(t, s) ==> s in offered
    {
      OffersAreAnswers(t, pool, s);
    }
    InitialPartial(t, pool);
    OffersOnce(t, pool, 0, []);
    InjectivePrefix(offered, Offers(t, pool, 0, []));
  }

  lemma InjectivePrefix<T>(a: seq<T>, b: seq<T>)
    requires a <= b && Injective(b)
    ensures Injective(a)
  {
  }

  /** A complete analysis of a logical edge that has an answer. */
  lemma {:induction false} WholePlan(t: Terms, s: PathSet, cap: nat) returns (plan: EdgePlan)
    requires t.Valid() && t.demand <= COST_CEILING && IsAnswer(t, s) && t.q.source != t.q.target && cap >= 1
    ensures plan.Planned? && plan.exhaustive && Represents(t, plan, cap)
  {
    FamilyHasPath(t, s.paths);
    var offered := Offers(t, FullPool(t), 0, []);
    RetainedAnswers(t, FullPool(t), offered, true, cap);
    plan := Planned(OfferAll(offered, cap), true, |offered|);
  }

  method SearchSets(t: Terms, pool: seq<Candidate>, exhaustive: bool, limits: PlannerLimits)
    returns (best: seq<PathSet>, setsExhaustive: bool, accepted: nat)
    requires t.Valid() && t.demand <= COST_CEILING && PoolOk(t, pool) && Ordered(pool)
             && (exhaustive ==> Whole(t, pool))
    ensures best != [] ==> Represents(t, Planned(best, setsExhaustive, accepted), limits.maxSetAlternatives)
    ensures best == [] && setsExhaustive && limits.maxSetAlternatives >= 1 ==> forall s :: !IsAnswer(t, s)
    ensures exhaustive && Selections(t) < limits.maxCombinationSteps ==> setsExhaustive
    ensures OneWillDo(t, limits) && pool != [] ==> best != []
  {
    var sets := new SetSearch();
    if OneWillDo(t, limits) {
      EachIsOffered(t, pool);
    }
    sets.Enumerate(t, pool, 0, [], limits.maxSetAlternatives, limits.maxCombinationSteps);
    setsExhaustive := exhaustive && !sets.stepLimited;
    RetainedAnswers(t, pool, sets.offered, setsExhaustive, limits.maxSetAlternatives);
    Retained(sets.offered, limits.maxSetAlternatives);
    best, accepted := sets.best, sets.accepted;
  }

  /** Whether the flow certificate rules out the wanted number of disjoint siblings. */
  method Certified(t: Terms) returns (impossible: bool)
    requires t.Valid() && t.q.source in t.q.allowed && 2 * t.q.nodeCount < MaxFlow.UNREACHABLE
    ensures impossible ==> NoFamily(t)
    ensures t.disjointness != Shared && t.wanted > 1 && t.q.source != t.q.target ==>
              (impossible <==> forall family | FlowNetworks.Family(t.q, t.disjointness == NodeDisjoint, family) ::
                                 |family| < t.wanted)
  {
    if t.disjointness == Shared || t.wanted <= 1 {
      return false;
    }
    var certificate := DisjointPaths.MaxDisjointPaths(t.q, t.disjointness == NodeDisjoint, t.wanted);
    if certificate < t.wanted {
      if t.q.source == t.q.target {
        SameNodeOnePath(t);
      } else {
        FlowBound(t, certificate);
      }
      return true;
    }
    return false;
  }

  /** Chooses siblings from the pool and decides what an empty result means (src/planner.cpp:1386-1443). */
  method ChooseSets(t: Terms, pool: seq<Candidate>, exhaustive: bool, limits: PlannerLimits) returns (plan: EdgePlan)
    requires t.Valid() && t.demand <= COST_CEILING && t.q.source in t.q.allowed
             && 2 * t.q.nodeCount < MaxFlow.UNREACHABLE
    requires PoolOk(t, pool) && Ordered(pool) && (exhaustive ==> Whole(t, pool))
    ensures plan == Denied(ProvenInfeasible) && limits.maxSetAlternatives >= 1 ==> NoFamily(t)
    ensures plan.Denied? ==> plan.kind != InvalidRequest
    ensures plan.Planned? ==> Represents(t, plan, limits.maxSetAlternatives)
    ensures exhaustive && Selections(t) < limits.maxCombinationSteps ==> !Inconclusive(plan)
    ensures OneWillDo(t, limits) && pool != [] ==> plan.Planned?
  {
    var best, setsExhaustive, accepted := SearchSets(t, pool, exhaustive, limits);
    if best != [] {
      return Planned(best, setsExhaustive, accepted);
    }
    var impossible := Certified(t);
    if impossible {
      return Denied(ProvenInfeasible);
    }
    if setsExhaustive {
      if limits.maxSetAlternatives >= 1 {
        NoAnswerNoFamily(t);
      }
      return Denied(ProvenInfeasible);
    }
    return Denied(SearchLimitReached);
  }

  lemma NoAnswerNoFamily(t: Terms)
    requires t.Valid() && forall s :: !IsAnswer(t, s)
    ensures NoFamily(t)
  {
    forall s: seq<Candidate>
      ensures !Family(t, s)
    {
      if Family(t, s) {
        BuiltFromOrdered(t, s);
        assert IsAnswer(t, BuildPathSet(t, s));
      }
    }
  }

  /**
    The whole analysis. A "proven infeasible" verdict is true whichever branch produced it, provided the endpoints
    differ (or two siblings are wanted, or the endpoint is ineligible); returned alternatives are answers, the first
    is unbeaten, and nothing is missing unless the cap dropped it. The verdict is conclusive whenever the work there
    is to do stays below the limits; and when it does not, one path that exists is still found while the search
    budget lasts. The block set is clear again afterwards.
   */
  method Analyse(st: SearchBudget, blocks: BlockSet, t: Terms, limits: PlannerLimits) returns (plan: EdgePlan)
    requires t.Valid() && t.demand <= COST_CEILING && 2 * t.q.nodeCount < MaxFlow.UNREACHABLE
    requires Fits(t.q, blocks) && Clear(blocks)
    modifies st, blocks
    ensures Fits(t.q, blocks) && Clear(blocks)
    ensures plan == Denied(ProvenInfeasible) && limits.maxSetAlternatives >= 1 && Honest(t) ==> NoFamily(t)
    ensures plan.Denied? ==> plan.kind != InvalidRequest
    ensures plan.Planned? ==> Represents(t, plan, limits.maxSetAlternatives)
    ensures old(st.enumerationSteps) <= st.enumerationSteps
            <= old(st.enumerationSteps) + Scans(t.q, Deepest(t.q))
    ensures OutOfReach(t.q) ==> plan == Denied(ProvenInfeasible)
    ensures Searchable(t, limits, st.enumerationBudget - old(st.enumerationSteps)) ==>
              !Inconclusive(plan) && (t.q.source == t.q.target ==> plan == Denied(ProvenInfeasible))
    ensures Paid(old(st.expansions), old(st.budgetExceeded), st.expansions, st.budgetExceeded, st.maxExpansions,
                 SampleBound(t))
    ensures OneWillDo(t, limits) && t.q.source != t.q.target ==> plan.Planned? || st.budgetExceeded
  {
    if t.q.source !in t.q.allowed || t.q.target !in t.q.allowed {
      IneligibleEndpoint(t);
      return Denied(ProvenInfeasible);
    }
    WithoutNothing(t.q);
    var reach := Reachability.MinHops(Without(t.q, blocks.Nodes(), blocks.Edges()));
    if reach.Unreachable? || reach.hops > t.q.hopLimit {
      NoCompliantPath(t);
      return Denied(ProvenInfeasible);
    }
    var paths, exhaustive := EnumerateFor(st, blocks, t, limits);
    var pool := BuildPool(st, blocks, t, paths, exhaustive, limits);
    if pool == [] {
      if !exhaustive {
        return Denied(SearchLimitReached);
      }
      if t.q.source == t.q.target {
        if t.wanted >= 2 {
          SameNodeOnePath(t);
        }
      } else {
        forall p
          ensures !t.q.Compliant(p)
        {
          assert !Present(pool, p);
        }
        NoCompliantPath(t);
      }
      return Denied(ProvenInfeasible);
    }
    plan := ChooseSets(t, pool, exhaustive, limits);
  }
}
