/**
  Requests so dear that every total saturates: the cheapest answers together lose to dearer ones with fewer conflicts.
 */
module SaturationWitness {
  import opened Saturating
  import opened Paths
  import opened Finite
  import opened Candidates
  import opened PathSets
  import opened Families
  import opened Requests
  import opened GlobalAssignment
  import opened SolveGlobal
  import opened EdgeAnalysis
  import opened Planner
  import opened PlanTotals
  import opened Routings
  import opened PlainRequests

  /** Three parallel links of almost the largest latency; the quickest has no known failure domain. */
  function Costly(pairs: nat): Sketch {
    Sketch(2, [PlainEdge(0, 1, 1, MAX_CAPACITY - 2, None), PlainEdge(0, 1, 1, MAX_CAPACITY - 1, Some(0)),
               PlainEdge(0, 1, 1, MAX_CAPACITY, Some(0))], pairs, 1, 2, Preferred, 1000, 0)
  }

  /** Cost of link i at the largest latency weight. */
  function Fee(i: nat): nat {
    1000 * (MAX_CAPACITY - 2 + i)
  }

  ghost predicate Parallel(t: Terms) {
    && t.Valid() && t.q.source == 0 && t.q.target == 1 && t.q.hopLimit == HOPS && t.q.maxCost == COST_CEILING
       && 0 in t.q.allowed
    && t.wanted == 2 && t.disjointness == Shared && t.diversity == Preferred && t.demand == 0
    && t.q.arcs == [Arc(0, 1, Fee(0)), Arc(0, 1, Fee(1)), Arc(0, 1, Fee(2))] && t.domain == [None, Some(0), Some(0)]
    && 0 in t.q.usable && 1 in t.q.usable && 2 in t.q.usable
  }

  lemma {:induction false} CostlyTerms(pairs: nat, i: nat)
    requires i < pairs
    ensures var r := Plain(Costly(pairs));
            r.Valid() && |r.logical| == pairs && r.Bound(i) && r.Bound(0) && TermsAt(r, i) == TermsAt(r, 0)
                && Parallel(TermsAt(r, i))
  {
    var k := Costly(pairs);
    CostlyValid(pairs);
    PlainTerms(k, i);
    PlainTerms(k, 0);
    ParallelShape(k, pairs, TermsAt(Plain(k), i));
  }

  lemma {:induction false} CostlyValid(pairs: nat)
    requires pairs > 0
    ensures Costly(pairs).Valid()
  {
  }

  lemma {:induction false} ParallelShape(k: Sketch, pairs: nat, t: Terms)
    requires k == Costly(pairs) && Shape(k, t)
    ensures Parallel(t)
  {
    assert ShapeAt(k, t, 0) && ShapeAt(k, t, 1) && ShapeAt(k, t, 2);
  }

  // ----- the answers -----

  /** Exactly the three links are paths. */
  lemma {:induction false} LinkComplies(t: Terms, i: nat)
    requires Parallel(t) && i < 3
    ensures t.q.Compliant([i]) && t.q.Cost([i]) == Fee(i)
  {
    assert [i][..0] == [] && t.q.Cost([]) == 0 && t.q.NodeAt(0, [i], 0) == 0;
  }

  lemma {:induction false} OnlyLinks(t: Terms, p: Path)
    requires Parallel(t) && t.q.Walk(0, p, 1)
    ensures |p| == 1 && p[0] < 3
  {
    assert t.q.NodeAt(0, p, 0) == 0 && p != [];
    if |p| > 1 {
      SecondLeaves(t.q, p);
      assert false;
    }
  }

  /** The second edge of a walk leaves the node the first one enters. */
  lemma SecondLeaves(q: Query, p: Path)
    requires q.Walk(q.source, p, q.target) && |p| > 1
    ensures p[0] < |q.arcs| && p[1] < |q.arcs| && q.arcs[p[1]].from == q.arcs[p[0]].to
  {
    assert q.NodeAt(q.source, p, 1) == q.arcs[p[0]].to;
  }

  ghost function Link(t: Terms, i: nat): Candidate
    requires Parallel(t) && i < 3
  {
    Materialise(t, [i])
  }

  lemma {:induction false} LinkFacts(t: Terms, i: nat)
    requires Parallel(t) && i < 3
    ensures Good(t, Link(t, i)) && Link(t, i).edges == [i] && Link(t, i).cost == Fee(i)
    ensures Link(t, i).signature == {} && Link(t, i).domainKnown == (i > 0)
  {
    LinkComplies(t, i);
    assert [i][..0] == [] && HopDomains(t, []) == [];
    assert HopDomains(t, [i]) == [] || HopDomains(t, [i]) == [0];
    assert [0][1..] == [];
  }

  lemma {:induction false} NoDemandNoLoad(t: Terms, p: Path, x: nat)
    requires x < |t.capacity| && t.demand == 0
    ensures PathLoad(t, p, x) == 0
    decreases |p|
  {
    if p != [] {
      NoDemandNoLoad(t, p[..|p| - 1], x);
    }
  }

  ghost function Two(t: Terms, i: nat, j: nat): seq<Candidate>
    requires Parallel(t) && i < j < 3
  {
    [Link(t, i), Link(t, j)]
  }

  lemma {:induction false} TwoIsFamily(t: Terms, i: nat, j: nat)
    requires Parallel(t) && i < j < 3
    ensures Family(t, Two(t, i, j))
  {
    LinkFacts(t, i);
    LinkFacts(t, j);
    var s := Two(t, i, j);
    assert s[..1] == [s[0]] && s[..1][..0] == [];
    forall x | 0 <= x < |t.spare|
      ensures Load(t, s, x) == 0
    {
      NoDemandNoLoad(t, s[0].edges, x);
      NoDemandNoLoad(t, s[1].edges, x);
      assert Load(t, [], x) == 0 && Load(t, s[..1], x) == 0;
    }
  }

  ghost function Pair(t: Terms, i: nat, j: nat): PathSet
    requires Parallel(t) && i < j < 3
  {
    LinkFacts(t, i);
    LinkFacts(t, j);
    BuildPathSet(t, Two(t, i, j))
  }

  lemma {:induction false} PairFacts(t: Terms, i: nat, j: nat)
    requires Parallel(t) && i < j < 3
    ensures var s := Pair(t, i, j);
            IsAnswer(t, s) && s.totalCost == Fee(i) + Fee(j) && s.conflicts == (if i == 0 then 1 else 0)
  {
    TwoIsFamily(t, i, j);
    var s := Two(t, i, j);
    BuiltFromOrdered(t, s);
    LinkFacts(t, i);
    LinkFacts(t, j);
    TwoTotals(s);
  }

  lemma {:induction false} TwoTotals(s: seq<Candidate>)
    requires |s| == 2 && s[0].cost + s[1].cost < COST_CEILING
    ensures TotalCost(s) == s[0].cost + s[1].cost && Conflicts(s) == if Independent(s[0], s[1]) then 0 else 1
  {
    var a := s[..1];
    assert a == [s[0]] && a[..0] == [];
    assert TotalCost(a) == s[0].cost && Conflicts([]) == 0 && ConflictsWith([], s[0]) == 0;
    assert ConflictsWith([], s[1]) == 0 && Conflicts(a) == 0;
    assert ConflictsWith(a, s[1]) == if Independent(s[0], s[1]) then 0 else 1;
  }

  lemma {:induction false} OnlyPairs(t: Terms, s: PathSet) returns (i: nat, j: nat)
    requires Parallel(t) && IsAnswer(t, s)
    ensures i < j < 3 && s == Pair(t, i, j)
  {
    assert Good(t, s.paths[0]) && Good(t, s.paths[1]);
    var p, q := s.paths[0].edges, s.paths[1].edges;
    OnlyLinks(t, p);
    OnlyLinks(t, q);
    i, j := p[0], q[0];
    assert p == [i] && q == [j];
    LinkFacts(t, i);
    LinkFacts(t, j);
    assert CandidateLess(s.paths[0], s.paths[1]);
    LinksInOrder(t, i, j);
    assert s.paths == Two(t, i, j);
  }

  lemma {:induction false} LinksInOrder(t: Terms, i: nat, j: nat)
    requires Parallel(t) && i < 3 && j < 3 && CandidateLess(Link(t, i), Link(t, j))
    ensures i < j
  {
    LinkFacts(t, i);
    LinkFacts(t, j);
    LexTotal([i], [i]);
  }

  /** Every other answer is dearer than the two quickest links. */
  ghost predicate Cheapest(t: Terms, a: PathSet) {
    t.Valid() && IsAnswer(t, a) && forall s {:trigger IsAnswer(t, s)} | IsAnswer(t, s) && s != a :: PathSetLess(a, s)
  }

  lemma {:induction false} QuickestIsCheapest(t: Terms)
    requires Parallel(t)
    ensures Cheapest(t, Pair(t, 0, 1))
  {
    var a := Pair(t, 0, 1);
    PairFacts(t, 0, 1);
    forall s | IsAnswer(t, s) && s != a
      ensures PathSetLess(a, s)
    {
      var i, j := OnlyPairs(t, s);
      OthersDearer(t, i, j);
    }
  }

  lemma {:induction false} OthersDearer(t: Terms, i: nat, j: nat)
    requires Parallel(t) && i < j < 3
    ensures (i, j) == (0, 1) || PathSetLess(Pair(t, 0, 1), Pair(t, i, j))
  {
    assert (i, j) == (0, 1) || Fee(0) + Fee(1) < Fee(i) + Fee(j);
    PairFacts(t, 0, 1);
    PairFacts(t, i, j);
    assert Pair(t, 0, 1).totalCost == Fee(0) + Fee(1) && Pair(t, i, j).totalCost == Fee(i) + Fee(j);
  }

  lemma {:induction false} PairUsesNothing(t: Terms, i: nat, j: nat, x: nat)
    requires Parallel(t) && i < j < 3
    ensures Amount(Pair(t, i, j).usage, x) == 0
  {
    PairFacts(t, i, j);
    var s := Pair(t, i, j);
    BuiltFromOrdered(t, s.paths);
    if x < |t.capacity| {
      if t.capacity[x] > 0 {
        AnswerAmount(t, s, x);
      } else {
        UnverifiedAmount(t, s, x);
      }
    } else {
      UsageEdges(t, s.paths);
      AmountAbsent(s.usage, x);
    }
  }

  // ----- the same answer everywhere -----

  ghost predicate Uniform(menu: Menu, a: PathSet) {
    forall l | 0 <= l < |menu| :: |menu[l]| > 0 && menu[l][0] == a
  }

  lemma {:induction false} UniformTally(menu: Menu, a: PathSet, n: nat, x: nat)
    requires Uniform(menu, a) && n <= |menu|
    ensures InMenu(menu, Fronts(n)) && Tally(menu, Fronts(n)).totalCost == Min(Times(n, a.totalCost), COST_CEILING)
    ensures Tally(menu, Fronts(n)).conflicts == Times(n, a.conflicts)
    ensures Committed(menu, Fronts(n), x) == Times(n, Amount(a.usage, x))
  {
    if n > 0 {
      UniformTally(menu, a, n - 1, x);
      assert Fronts(n)[..n - 1] == Fronts(n - 1);
      ClampAdd(Times(n - 1, a.totalCost), a.totalCost);
    }
  }

  lemma {:induction false} TimesIsProduct(n: nat, b: nat)
    ensures Times(n, b) == n * b
  {
    if n > 0 {
      TimesIsProduct(n - 1, b);
      assert (n - 1) * b + b == n * b;
    }
  }

  /** With 5000 pairs or more the total cost is the ceiling, whichever links they take. */
  lemma {:induction false} TotalSaturates(pairs: nat, cost: nat)
    requires pairs >= 5000 && cost >= 2 * Fee(0)
    ensures Times(pairs, cost) >= COST_CEILING
  {
    TimesIsProduct(pairs, cost);
    ProductGrows(cost, 5000, pairs);
  }

  lemma {:induction false} UniformScore(menu: Menu, spare: seq<nat>, t: Terms, i: nat, j: nat)
    requires Parallel(t) && i < j < 3 && Uniform(menu, Pair(t, i, j)) && |menu| >= 5000
    ensures Feasible(menu, spare, Fronts(|menu|)) && Tally(menu, Fronts(|menu|)).totalCost == COST_CEILING
    ensures Tally(menu, Fronts(|menu|)).conflicts == if i == 0 then |menu| else 0
  {
    var a := Pair(t, i, j);
    PairFacts(t, i, j);
    TotalSaturates(|menu|, a.totalCost);
    TimesIsProduct(|menu|, a.conflicts);
    UniformTally(menu, a, |menu|, 0);
    forall x | 0 <= x < |spare|
      ensures Committed(menu, Fronts(|menu|), x) <= spare[x]
    {
      UniformTally(menu, a, |menu|, x);
      PairUsesNothing(t, i, j, x);
      TimesIsProduct(|menu|, 0);
    }
  }

  // ----- the planner -----

  /** All pairs on the dearer links, without a conflict. */
  lemma {:induction false} DearerMapping(pairs: nat) returns (m: seq<PathSet>)
    requires pairs >= 5000
    ensures var r := Plain(Costly(pairs));
            r.Valid() && Mapping(r, m) && MappingScore(m).totalCost == COST_CEILING && MappingScore(m).conflicts == 0
  {
    var r := Plain(Costly(pairs));
    CostlyTerms(pairs, 0);
    var t := TermsAt(r, 0);
    PairFacts(t, 1, 2);
    m := seq(pairs, _ => Pair(t, 1, 2));
    forall i | 0 <= i < |m|
      ensures AnswerAt(r, m, i)
    {
      CostlyTerms(pairs, i);
    }
    UniformScore(Single(m), SpareOf(r), t, 1, 2);
  }

  lemma {:induction false} CheapestInFront(r: Request, limits: PlannerLimits, plans: seq<EdgePlan>, l: nat, a: PathSet)
    requires r.Valid() && AllPlanned(r, limits, plans) && AllTrue(FlagsOf(plans)) && l < |plans|
             && Cheapest(TermsAt(r, l), a)
    ensures |MenuOf(plans)[l]| > 0 && MenuOf(plans)[l][0] == a
  {
    assert PlanOk(r, limits, plans[l], l) && FlagsOf(plans)[l];
    assert plans[l].sets[0] in plans[l].sets;
  }

  /**
    The fronts of any complete analysis are the cheapest answers and fit together, yet a mapping with the same
    saturated total has fewer conflicts.
   */
  lemma {:induction false} SaturationBreaksFronts(pairs: nat, limits: PlannerLimits, plans: seq<EdgePlan>)
    requires pairs >= 5000 && Plain(Costly(pairs)).Valid() && AllPlanned(Plain(Costly(pairs)), limits, plans)
    requires AllTrue(FlagsOf(plans))
    ensures |plans| == pairs && Feasible(MenuOf(plans), SpareOf(Plain(Costly(pairs))), Fronts(pairs))
    ensures Tally(MenuOf(plans), Fronts(pairs)).totalCost == COST_CEILING
            && Tally(MenuOf(plans), Fronts(pairs)).conflicts == pairs
  {
    var r := Plain(Costly(pairs));
    CostlyTerms(pairs, 0);
    var t := TermsAt(r, 0);
    QuickestIsCheapest(t);
    forall l | 0 <= l < pairs
      ensures |MenuOf(plans)[l]| > 0 && MenuOf(plans)[l][0] == Pair(t, 0, 1)
    {
      CostlyTerms(pairs, l);
      CheapestInFront(r, limits, plans, l, Pair(t, 0, 1));
    }
    UniformScore(MenuOf(plans), SpareOf(r), t, 0, 1);
  }

  lemma {:induction false} ThreeAreFew(t: Terms, cap: nat)
    requires Parallel(t) && cap >= 3
    ensures FewAnswers(t, cap)
  {
    forall list | Injective<PathSet>(list) && (forall s | s in list :: IsAnswer(t, s))
      ensures |list| <= cap
    {
      assert forall k | 0 <= k < |list| :: list[k] in list;
      AtMostThree(t, list);
    }
  }

  lemma {:induction false} AtMostThree(t: Terms, list: seq<PathSet>)
    requires Parallel(t) && Injective(list) && forall k | 0 <= k < |list| :: IsAnswer(t, list[k])
    ensures |list| <= 3
  {
    var which := seq(|list|, k requires 0 <= k < |list| => LeftOut(t, list[k]));
    forall a, b | 0 <= a < b < |list|
      ensures which[a] != which[b]
    {
      LinkLeftOut(t, list[a]);
      LinkLeftOut(t, list[b]);
      if which[a] == which[b] {
        SameLeftOut(t, list[a], list[b], which[a]);
      }
    }
    DistinctBelow(which, 3);
  }

  /** The answer runs over the two links other than k. */
  ghost predicate LeavesOut(t: Terms, s: PathSet, k: nat)
    requires Parallel(t)
  {
    k < 3 && exists i: nat, j: nat | i < j < 3 && i + j + k == 3 :: s == Pair(t, i, j)
  }

  lemma {:induction false} SameLeftOut(t: Terms, s: PathSet, s': PathSet, k: nat)
    requires Parallel(t) && LeavesOut(t, s, k) && LeavesOut(t, s', k)
    ensures s == s'
  {
    var i: nat, j: nat :| i < j < 3 && i + j + k == 3 && s == Pair(t, i, j);
    var i': nat, j': nat :| i' < j' < 3 && i' + j' + k == 3 && s' == Pair(t, i', j');
    assert i == i' && j == j';
  }

  ghost function LeftOut(t: Terms, s: PathSet): (k: nat)
    requires Parallel(t)
    ensures k < 3
  {
    if LeavesOut(t, s, 0) then 0 else if LeavesOut(t, s, 1) then 1 else 2
  }

  lemma {:induction false} LinkLeftOut(t: Terms, s: PathSet)
    requires Parallel(t) && IsAnswer(t, s)
    ensures LeavesOut(t, s, LeftOut(t, s))
  {
    var i, j := OnlyPairs(t, s);
    assert LeavesOut(t, s, 3 - i - j);
  }

  lemma {:induction false} CostlyIsSettled(pairs: nat, limits: PlannerLimits)
    requires pairs >= 5000 && Plain(Costly(pairs)).Valid()
    requires limits.maxSetAlternatives >= 1
    ensures Settles(Plain(Costly(pairs)), limits)
  {
    var r := Plain(Costly(pairs));
    var m := DearerMapping(pairs);
    forall i | 0 <= i < |r.logical|
      ensures r.Bound(i) && TermsAt(r, i).q.source != TermsAt(r, i).q.target
    {
      CostlyTerms(pairs, i);
    }
    var plans := WholePlans(r, limits, m);
    SaturationBreaksFronts(pairs, limits, plans);
  }

  lemma {:induction false} CostlyIsKept(pairs: nat, limits: PlannerLimits, i: nat)
    requires i < pairs && limits.maxSetAlternatives >= 3
    ensures var r := Plain(Costly(pairs)); r.Valid() && |r.logical| == pairs && FewAt(r, limits, i)
    ensures var r := Plain(Costly(pairs)); r.Bound(i) && TermsAt(r, i).Valid() && Honest(TermsAt(r, i))
  {
    CostlyTerms(pairs, i);
    ThreeAreFew(TermsAt(Plain(Costly(pairs)), i), limits.maxSetAlternatives);
  }

  lemma {:induction false} CostlyIsServed(pairs: nat, limits: PlannerLimits, denials: seq<Denial>)
    requires pairs >= 5000 && limits.maxSetAlternatives >= 3 && Plain(Costly(pairs)).Valid()
    requires DenialsTrue(Plain(Costly(pairs)), limits, denials) && NoneGaveUp(denials)
    ensures denials == []
  {
    var r := Plain(Costly(pairs));
    var m := DearerMapping(pairs);
    forall i | 0 <= i < |r.logical|
      ensures FewAt(r, limits, i) && r.Bound(i) && Honest(TermsAt(r, i))
    {
      CostlyIsKept(pairs, limits, i);
    }
    if denials != [] {
      NoTrueDenial(r, limits, denials[0], m);
    }
  }

  /** Nothing true can be held against a request with a mapping when nothing was dropped. */
  lemma {:induction false} NoTrueDenial(r: Request, limits: PlannerLimits, d: Denial, m: seq<PathSet>)
    requires r.Valid() && Mapping(r, m) && NothingDropped(r, limits) && limits.maxSetAlternatives >= 1
    requires forall i | 0 <= i < |r.logical| :: r.Bound(i) && Honest(TermsAt(r, i))
    ensures d.kind != SearchLimitReached ==> !DenialTrue(r, limits, d)
  {
  }

  lemma {:induction false} ChosenIsBeaten(pairs: nat, limits: PlannerLimits, o: Outcome)
    requires pairs >= 5000 && Plain(Costly(pairs)).Valid() && o.Chosen? && o.optimal
    requires FromRetained(Plain(Costly(pairs)), limits, o)
    ensures o.score.totalCost == COST_CEILING && o.score.conflicts == pairs && !Unbeaten(Plain(Costly(pairs)), o.score)
  {
    var plans, c :| Picked(Plain(Costly(pairs)), limits, plans, c, o);
    SaturationBreaksFronts(pairs, limits, plans);
    var m := DearerMapping(pairs);
    assert Mapping(Plain(Costly(pairs)), m);
  }

  /** The planner calls its result optimal although a mapping of the same reported cost has no conflict at all. */
  method SaturationMisleads(pairs: nat, limits: PlannerLimits) returns (o: Outcome)
    requires pairs >= 5000 && Roomy(Plain(Costly(pairs)), limits) && limits.maxSetAlternatives >= 3
    ensures Plain(Costly(pairs)).Valid() && o.Chosen? && o.optimal && !Unbeaten(Plain(Costly(pairs)), o.score)
    ensures o.score.totalCost == COST_CEILING && o.score.conflicts == pairs
  {
    CostlyTerms(pairs, 0);
    CostlyIsSettled(pairs, limits);
    o := PlanCollective(Plain(Costly(pairs)), limits);
    if o.Refused? {
      CostlyIsServed(pairs, limits, o.denials);
    } else {
      ChosenIsBeaten(pairs, limits, o);
    }
  }
}
