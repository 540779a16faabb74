/** The planning entry point (src/planner.cpp:1783-1913, 2001) and what its verdicts mean for the request. */
module Planner {
  import opened Saturating
  import opened Paths
  import opened Finite
  import opened Candidates
  import opened PathSets
  import opened Families
  import opened Requests
  import opened GlobalAssignment
  import opened SolveGlobal
  import opened EdgeAnalysis
  import opened CandidatePool
  import opened EdgeWork
  import opened EnumeratePaths
  import ShortestPath
  import MaxFlow
  import SetEnumeration

  /** Which logical edge was refused (None: the request as a whole) and on what grounds. */
  datatype Denial = Denial(edge: Option<nat>, kind: DenialKind)

  datatype Outcome = Refused(denials: seq<Denial>) | Chosen(answers: seq<PathSet>, score: Score, optimal: bool,
      fronts: bool)

  /** The terms of logical edge i. */
  function TermsAt(r: Request, i: nat): Terms
    requires r.Valid() && i < |r.logical| && r.Bound(i)
  {
    TermsFor(r, r.bindings[r.logical[i].src], r.bindings[r.logical[i].dst])
  }

  /** Enumeration steps one logical edge can take at most, whatever its endpoints. */
  function RequestBound(r: Request): nat {
    DepthBound(|r.fabric.edges|, Min(r.policy.maxHops, |r.fabric.nodes|))
  }

  /** Expansions the searches of one logical edge can take. */
  function ExpansionBound(r: Request): nat {
    var n := |r.fabric.nodes|;
    Times(1 + Wanted(r) + (n + Times(Wanted(r), n)), Times(n, r.policy.maxHops + 1))
  }

  lemma TermsAtValid(r: Request, i: nat)
    requires r.Valid() && i < |r.logical| && r.Bound(i)
    ensures TermsAt(r, i).Valid() && TermsAt(r, i).demand <= COST_CEILING
    ensures 2 * TermsAt(r, i).q.nodeCount < MaxFlow.UNREACHABLE
    ensures TermsAt(r, i).q.nodeCount == |r.fabric.nodes| && |TermsAt(r, i).q.arcs| == |r.fabric.edges|
    ensures RunBound(TermsAt(r, i).q) == RequestBound(r) && SampleBound(TermsAt(r, i)) == ExpansionBound(r)
    ensures TermsAt(r, i).wanted == Wanted(r) && Carries(TermsAt(r, i))
  {
    TermsValid(r, r.bindings[r.logical[i].src], r.bindings[r.logical[i].dst]);
  }

  // ----- the declared problem for a whole request -----

  /** One answer per level, seen as a menu without choice. */
  ghost function Single(a: seq<PathSet>): Menu {
    seq(|a|, i requires 0 <= i < |a| => [a[i]])
  }

  ghost predicate AnswerAt(r: Request, a: seq<PathSet>, i: nat)
    requires r.Valid() && i < |a| == |r.logical|
  {
    r.Bound(i) && (TermsAtValid(r, i); IsAnswer(TermsAt(r, i), a[i]))
  }

  /** A mapping of the request: one admissible answer per logical edge, together inside every edge's spare capacity. */
  ghost predicate Mapping(r: Request, a: seq<PathSet>)
    requires r.Valid()
  {
    && |a| == |r.logical|
    && (forall i {:trigger AnswerAt(r, a, i)} | 0 <= i < |a| :: AnswerAt(r, a, i))
    && Feasible(Single(a), SpareOf(r), Fronts(|a|))
  }

  ghost function MappingScore(a: seq<PathSet>): Score {
    Tally(Single(a), Fronts(|a|))
  }

  /** No mapping of the request is better in total cost, conflicts or largest path cost. */
  ghost predicate Unbeaten(r: Request, score: Score)
    requires r.Valid()
  {
    forall a {:trigger Mapping(r, a)} | Mapping(r, a) :: NoWorse3(score, MappingScore(a))
  }

  // ----- assignments and menus -----

  /** a is what choice c picks from the menu. */
  ghost predicate Picks(menu: Menu, c: Choice, a: seq<PathSet>) {
    InMenu(menu, c) && |c| == |menu| == |a| && forall i | 0 <= i < |a| :: a[i] == menu[i][c[i]]
  }

  lemma {:induction false} PickedPrefix(menu: Menu, c: Choice, a: seq<PathSet>, n: nat)
    requires Picks(menu, c, a) && n <= |c|
    ensures InMenu(menu, c[..n]) && InMenu(Single(a), Fronts(n))
    ensures forall e :: Committed(menu, c[..n], e) == Committed(Single(a), Fronts(n), e)
    ensures Tally(menu, c[..n]) == Tally(Single(a), Fronts(n))
  {
    if n > 0 {
      PickedPrefix(menu, c, a, n - 1);
      assert c[..n][..n - 1] == c[..n - 1] && Fronts(n)[..n - 1] == Fronts(n - 1);
    }
  }

  lemma {:induction false} PickedSame(menu: Menu, spare: seq<nat>, c: Choice, a: seq<PathSet>)
    requires Picks(menu, c, a)
    ensures Feasible(menu, spare, c) <==> Feasible(Single(a), spare, Fronts(|a|))
    ensures InMenu(Single(a), Fronts(|a|)) && Tally(menu, c) == MappingScore(a)
  {
    PickedPrefix(menu, c, a, |c|);
    assert c[..|c|] == c;
  }

  /** If every level's answer is on the menu, the mapping is one of the menu's assignments. */
  lemma FindChoice(menu: Menu, a: seq<PathSet>) returns (c: Choice)
    requires |menu| == |a| && forall i | 0 <= i < |a| :: a[i] in menu[i]
    ensures Picks(menu, c, a)
  {
    c := [];
    while |c| < |a|
      invariant |c| <= |a| && forall i | 0 <= i < |c| :: c[i] < |menu[i]| && a[i] == menu[i][c[i]]
    {
      var l := |c|;
      var k :| 0 <= k < |menu[l]| && menu[l][k] == a[l];
      c := c + [k];
    }
  }

  // ----- analysing every logical edge -----

  /** What the per-edge plans establish. */
  ghost predicate PlanOk(r: Request, limits: PlannerLimits, plan: EdgePlan, i: nat)
    requires r.Valid() && i < |r.logical|
  {
    if !r.Bound(i) then plan == Denied(InvalidRequest)
    else
      TermsAtValid(r, i);
      match plan
      case Denied(kind) =>
        kind != InvalidRequest &&
        (kind == ProvenInfeasible && limits.maxSetAlternatives >= 1 && Honest(TermsAt(r, i)) ==>
            NoFamily(TermsAt(r, i)))
      case Planned(_, _, _) => Represents(TermsAt(r, i), plan, limits.maxSetAlternatives)
  }

  // ----- limits that never interfere -----

  /** Edges scanned by the complete enumeration of one logical edge. */
  ghost function ScansAt(r: Request, i: nat): nat
    requires r.Valid() && i < |r.logical|
  {
    if r.Bound(i) then TermsAtValid(r, i); Scans(TermsAt(r, i).q, Deepest(TermsAt(r, i).q)) else 0
  }

  ghost function ScansUpTo(r: Request, n: nat): nat
    requires r.Valid() && n <= |r.logical|
  {
    if n == 0 then 0 else ScansUpTo(r, n - 1) + ScansAt(r, n - 1)
  }

  /** The work of analysing logical edge i stays below the limits when `left` scans are left of the common budget. */
  ghost predicate RoomFor(r: Request, limits: PlannerLimits, i: nat, left: int)
    requires r.Valid() && i < |r.logical|
  {
    r.Bound(i) ==> (TermsAtValid(r, i); Searchable(TermsAt(r, i), limits, left))
  }

  /** The work of analysing every logical edge stays below the limits. */
  ghost predicate Roomy(r: Request, limits: PlannerLimits)
    requires r.Valid()
  {
    forall i {:trigger ScansAt(r, i)} | 0 <= i < |r.logical| ::
      RoomFor(r, limits, i, Max(1, limits.maxTotalEnumerationSteps) - ScansUpTo(r, i))
  }

  lemma {:induction false} RoomLeft(r: Request, limits: PlannerLimits, i: nat, spent: nat)
    requires r.Valid() && i < |r.logical| && spent <= ScansUpTo(r, i)
    ensures Roomy(r, limits) ==> RoomFor(r, limits, i, Max(1, limits.maxTotalEnumerationSteps) - spent)
  {
    if Roomy(r, limits) && r.Bound(i) {
      var budget := Max(1, limits.maxTotalEnumerationSteps);
      assert ScansAt(r, i) >= 0;
      TermsAtValid(r, i);
      SearchableGrows(TermsAt(r, i), limits, budget - ScansUpTo(r, i), budget - spent);
    }
  }

  /** What a complete analysis retains for logical edge i. */
  ghost function BestAt(r: Request, limits: PlannerLimits, i: nat): seq<PathSet>
    requires r.Valid() && i < |r.logical|
  {
    if !r.Bound(i) then []
    else
      TermsAtValid(r, i);
      var t := TermsAt(r, i);
      if t.q.source in t.q.allowed then BestSets(t, limits.maxSetAlternatives) else []
  }

  ghost function BestMenu(r: Request, limits: PlannerLimits): Menu
    requires r.Valid()
  {
    seq(|r.logical|, i requires 0 <= i < |r.logical| => BestAt(r, limits, i))
  }

  /** The best answers fit together, or the tree of all choices is no larger than the limit on its search. */
  ghost predicate Settles(r: Request, limits: PlannerLimits)
    requires r.Valid()
  {
    Feasible(BestMenu(r, limits), SpareOf(r), Fronts(|r.logical|))
    || Work(BestMenu(r, limits), SpareOf(r), []) <= limits.maxGlobalNodes
  }

  /** The work there is to do for the whole request stays below the limits. */
  ghost predicate Generous(r: Request, limits: PlannerLimits)
    requires r.Valid()
  {
    Roomy(r, limits) && Settles(r, limits)
  }

  /** Limits above explicit bounds computed from the size of the request alone. */
  predicate Lavish(r: Request, limits: PlannerLimits) {
    && Ample(limits, RequestBound(r)) && Times(|r.logical|, RequestBound(r)) < Max(1, limits.maxTotalEnumerationSteps)
    && WorkBound(|r.logical|, limits.maxSetAlternatives) <= limits.maxGlobalNodes
  }

  lemma {:induction false} ScansUpToBounded(r: Request, n: nat)
    requires r.Valid() && n <= |r.logical|
    ensures ScansUpTo(r, n) <= Times(n, RequestBound(r))
  {
    if n > 0 {
      ScansUpToBounded(r, n - 1);
      if r.Bound(n - 1) {
        TermsAtValid(r, n - 1);
        ScansBounded(TermsAt(r, n - 1).q, Deepest(TermsAt(r, n - 1).q));
      }
    }
  }

  lemma {:induction false} LavishAt(r: Request, limits: PlannerLimits, i: nat)
    requires r.Valid() && i < |r.logical| && Lavish(r, limits)
    ensures RoomFor(r, limits, i, Max(1, limits.maxTotalEnumerationSteps) - ScansUpTo(r, i))
  {
    ScansUpToBounded(r, i);
    assert Times(i + 1, RequestBound(r)) == Times(i, RequestBound(r)) + RequestBound(r);
    TimesGrow(i + 1, |r.logical|, RequestBound(r));
    if r.Bound(i) {
      TermsAtValid(r, i);
      AmpleIsEnough(TermsAt(r, i), limits, Max(1, limits.maxTotalEnumerationSteps) - ScansUpTo(r, i));
    }
  }

  lemma {:induction false} BestMenuCapped(r: Request, limits: PlannerLimits)
    requires r.Valid()
    ensures Capped(BestMenu(r, limits), limits.maxSetAlternatives)
  {
    forall l | 0 <= l < |r.logical|
      ensures |BestAt(r, limits, l)| <= limits.maxSetAlternatives
    {
    }
  }

  lemma {:induction false} LavishSettles(r: Request, limits: PlannerLimits)
    requires r.Valid() && Lavish(r, limits)
    ensures Settles(r, limits)
  {
    BestMenuCapped(r, limits);
    WholeTreeBounded(BestMenu(r, limits), SpareOf(r), limits.maxSetAlternatives, limits.maxGlobalNodes);
  }

  /** Such limits are never reached. */
  lemma {:induction false} LavishIsGenerous(r: Request, limits: PlannerLimits)
    requires r.Valid() && Lavish(r, limits)
    ensures Generous(r, limits)
  {
    LavishSettles(r, limits);
    forall i | 0 <= i < |r.logical|
      ensures RoomFor(r, limits, i, Max(1, limits.maxTotalEnumerationSteps) - ScansUpTo(r, i))
    {
      LavishAt(r, limits, i);
    }
  }

  // ----- requests that are served whatever the limits on enumeration -----

  /** Logical edge i asks for one path, and there is one. */
  ghost predicate ServableAt(r: Request, limits: PlannerLimits, i: nat)
    requires r.Valid() && i < |r.logical|
  {
    r.Bound(i) && (TermsAtValid(r, i);
                   OneWillDo(TermsAt(r, i), limits) && TermsAt(r, i).q.source != TermsAt(r, i).q.target)
  }

  /** So does every logical edge, and the budget for expansions covers every search. */
  ghost predicate Servable(r: Request, limits: PlannerLimits)
    requires r.Valid()
  {
    && (forall i {:trigger ServableAt(r, limits, i)} | 0 <= i < |r.logical| :: ServableAt(r, limits, i))
    && Times(|r.logical|, ExpansionBound(r)) < Max(1, r.policy.maxExpansions)
  }

  /** Every verified edge has room for one share of every logical edge. */
  predicate Uncontended(r: Request) {
    forall e | 0 <= e < |r.fabric.edges| && r.fabric.edges[e].capacity > 0 ::
      Times(|r.logical|, PerPathDemand(r)) <= Spare(r.fabric.edges[e])
  }

  /** No denial is for want of search. */
  predicate NoneGaveUp(denials: seq<Denial>) {
    forall i | 0 <= i < |denials| :: denials[i].kind != SearchLimitReached
  }

  predicate NoneInconclusive(plans: seq<EdgePlan>) {
    forall i | 0 <= i < |plans| :: !Inconclusive(plans[i])
  }

  /** The planner committed itself: it refused for a reason other than its limits, or claims optimality. */
  predicate Decided(o: Outcome) {
    match o
    case Refused(denials) => NoneGaveUp(denials)
    case Chosen(_, _, optimal, _) => optimal
  }

  /** A proven denial of one logical edge rules out every mapping of the request. */
  lemma EdgeDenialIsFinal(r: Request, i: nat, a: seq<PathSet>)
    requires r.Valid() && i < |r.logical| && r.Bound(i)
    requires TermsAt(r, i).Valid() && NoFamily(TermsAt(r, i))
    ensures !Mapping(r, a)
  {
    ghost var served := |a| == |r.logical| && AnswerAt(r, a, i);
  }

  /** Every logical edge has alternatives. */
  ghost predicate AllPlanned(r: Request, limits: PlannerLimits, plans: seq<EdgePlan>)
    requires r.Valid()
  {
    |plans| == |r.logical| && PlansOk(r, limits, plans) && forall i | 0 <= i < |plans| ::
        plans[i].Planned? && r.Bound(i)
  }

  ghost predicate PlansOk(r: Request, limits: PlannerLimits, plans: seq<EdgePlan>)
    requires r.Valid()
  {
    |plans| <= |r.logical| && forall i {:trigger PlanOk(r, limits, plans[i], i)} | 0 <= i < |plans| ::
        PlanOk(r, limits, plans[i], i)
  }

  lemma PlansSnoc(r: Request, limits: PlannerLimits, plans: seq<EdgePlan>, plan: EdgePlan)
    requires r.Valid() && |plans| < |r.logical| && PlansOk(r, limits, plans) && PlanOk(r, limits, plan, |plans|)
    ensures PlansOk(r, limits, plans + [plan])
  {
    var more := plans + [plan];
    forall i | 0 <= i < |more|
      ensures PlanOk(r, limits, more[i], i)
    {
      assert i < |plans| ==> PlanOk(r, limits, plans[i], i);
    }
  }

  function MenuOf(plans: seq<EdgePlan>): Menu
    requires forall i | 0 <= i < |plans| :: plans[i].Planned?
  {
    seq(|plans|, i requires 0 <= i < |plans| => plans[i].sets)
  }

  function FlagsOf(plans: seq<EdgePlan>): seq<bool>
    requires forall i | 0 <= i < |plans| :: plans[i].Planned?
  {
    seq(|plans|, i requires 0 <= i < |plans| => plans[i].exhaustive)
  }

  lemma MenuIsOk(r: Request, limits: PlannerLimits, plans: seq<EdgePlan>)
    requires r.Valid() && AllPlanned(r, limits, plans)
    ensures MenuOk(MenuOf(plans), |r.fabric.edges|) && FrontsBest(MenuOf(plans))
    ensures InMenu(MenuOf(plans), Fronts(|plans|))
  {
    var menu: Menu := MenuOf(plans);
    forall l, i | 0 <= l < |menu| && 0 <= i < |menu[l]|
      ensures TableOk(menu[l][i].usage, |r.fabric.edges|) && !PathSetLess(menu[l][i], menu[l][0])
    {
      assert PlanOk(r, limits, plans[l], l);
      TermsAtValid(r, l);
      assert menu[l][i] in plans[l].sets;
      SetEnumeration.BuiltUsage(TermsAt(r, l), menu[l][i].paths);
    }
    forall l | 0 <= l < |plans|
      ensures |menu[l]| > 0
    {
      assert PlanOk(r, limits, plans[l], l);
    }
  }

  /** A feasible choice from the menu is a mapping of the request. */
  lemma {:induction false} ChoiceIsMapping(r: Request, limits: PlannerLimits, plans: seq<EdgePlan>, c: Choice,
      a: seq<PathSet>)
    requires r.Valid() && AllPlanned(r, limits, plans) && Picks(MenuOf(plans), c, a)
    requires Feasible(MenuOf(plans), SpareOf(r), c)
    ensures Mapping(r, a) && MappingScore(a) == Tally(MenuOf(plans), c)
  {
    PickedSame(MenuOf(plans), SpareOf(r), c, a);
    forall i | 0 <= i < |a|
      ensures AnswerAt(r, a, i)
    {
      assert PlanOk(r, limits, plans[i], i);
      TermsAtValid(r, i);
      assert a[i] in plans[i].sets;
    }
  }

  ghost predicate NothingDropped(r: Request, limits: PlannerLimits)
    requires r.Valid()
  {
    forall i {:trigger FewAt(r, limits, i)} | 0 <= i < |r.logical| :: FewAt(r, limits, i)
  }

  /** Logical edge i has no more answers than are retained. */
  ghost predicate FewAt(r: Request, limits: PlannerLimits, i: nat)
    requires r.Valid() && i < |r.logical|
  {
    r.Bound(i) ==> (TermsAtValid(r, i); FewAnswers(TermsAt(r, i), limits.maxSetAlternatives))
  }

  lemma MappingOnMenu(r: Request, limits: PlannerLimits, plans: seq<EdgePlan>, a: seq<PathSet>) returns (c: Choice)
    requires r.Valid() && AllPlanned(r, limits, plans) && AllTrue(FlagsOf(plans)) && NothingDropped(r, limits)
             && Mapping(r, a)
    ensures Picks(MenuOf(plans), c, a) && Feasible(MenuOf(plans), SpareOf(r), c)
  {
    forall i | 0 <= i < |a|
      ensures a[i] in MenuOf(plans)[i]
    {
      assert AnswerAt(r, a, i) && PlanOk(r, limits, plans[i], i) && FlagsOf(plans)[i] && FewAt(r, limits, i);
    }
    c := FindChoice(MenuOf(plans), a);
    PickedSame(MenuOf(plans), SpareOf(r), c, a);
  }

  /** The front of each level next to the answer of some mapping. */
  ghost function Pairs(menu: Menu, a: seq<PathSet>): Menu
    requires |a| == |menu| && forall i | 0 <= i < |menu| :: |menu[i]| > 0
  {
    seq(|a|, i requires 0 <= i < |a| => [menu[i][0], a[i]])
  }

  lemma PairsPick(menu: Menu, a: seq<PathSet>, ones: Choice) returns (firsts: seq<PathSet>)
    requires |a| == |menu| == |ones| && (forall i | 0 <= i < |menu| :: |menu[i]| > 0 && ones[i] == 1)
    ensures Picks(Pairs(menu, a), ones, a)
    ensures Picks(Pairs(menu, a), Fronts(|a|), firsts) && Picks(menu, Fronts(|a|), firsts)
  {
    firsts := seq(|a|, i requires 0 <= i < |a| => menu[i][0]);
  }

  lemma {:induction false} FrontsBeatAnswers(menu: Menu, a: seq<PathSet>)
    requires |a| == |menu| && (forall i | 0 <= i < |menu| :: |menu[i]| > 0) && InMenu(menu, Fronts(|menu|))
    requires FrontsBest(Pairs(menu, a)) && Tally(menu, Fronts(|menu|)).totalCost < COST_CEILING
    ensures NoWorse3(Tally(menu, Fronts(|menu|)), MappingScore(a))
  {
    var pairs := Pairs(menu, a);
    var ones := seq(|a|, _ => 1);
    var firsts := PairsPick(menu, a, ones);
    PickedSame(pairs, [], ones, a);
    PickedSame(pairs, [], Fronts(|a|), firsts);
    PickedSame(menu, [], Fronts(|a|), firsts);
    FrontsOptimal(pairs, ones);
  }

  /** The fronts beat every mapping, whether or not its answers were retained. */
  lemma FrontsBeatMapping(r: Request, limits: PlannerLimits, plans: seq<EdgePlan>, a: seq<PathSet>)
    requires r.Valid() && AllPlanned(r, limits, plans) && AllTrue(FlagsOf(plans)) && Mapping(r, a)
    requires InMenu(MenuOf(plans), Fronts(|plans|)) && Tally(MenuOf(plans), Fronts(|plans|)).totalCost < COST_CEILING
    ensures NoWorse3(Tally(MenuOf(plans), Fronts(|plans|)), MappingScore(a))
  {
    var menu: Menu := MenuOf(plans);
    forall l | 0 <= l < |menu|
      ensures |menu[l]| > 0 && !PathSetLess(a[l], menu[l][0]) && !PathSetLess(menu[l][0], menu[l][0])
    {
      assert AnswerAt(r, a, l) && PlanOk(r, limits, plans[l], l) && FlagsOf(plans)[l];
      assert menu[l][0] in plans[l].sets;
    }
    FrontsBeatAnswers(menu, a);
  }

  lemma {:induction false} BestBeatsMapping(r: Request, limits: PlannerLimits, plans: seq<EdgePlan>, best: Choice,
      a: seq<PathSet>)
    requires r.Valid() && AllPlanned(r, limits, plans) && AllTrue(FlagsOf(plans)) && NothingDropped(r, limits)
             && Mapping(r, a)
    requires FirstBest(MenuOf(plans), SpareOf(r), All(MenuOf(plans), SpareOf(r), []), best)
    requires Feasible(MenuOf(plans), SpareOf(r), best)
    ensures NoWorse3(Tally(MenuOf(plans), best), MappingScore(a))
  {
    var menu, spare := MenuOf(plans), SpareOf(r);
    var c := MappingOnMenu(r, limits, plans, a);
    PickedSame(menu, spare, c, a);
    AllExact(menu, spare, [], c);
    var all := All(menu, spare, []);
    var j :| 0 <= j < |all| && all[j] == c;
    assert !Better(ScoreOf(menu, spare, all[j]), ScoreOf(menu, spare, best));
  }

  /** What a denial claims about the request. */
  ghost predicate DenialTrue(r: Request, limits: PlannerLimits, d: Denial)
    requires r.Valid()
  {
    match d.edge
    case Some(i) =>
      && i < |r.logical|
      && (d.kind == InvalidRequest ==> !r.Bound(i))
      && (d.kind == ProvenInfeasible ==> r.Bound(i))
      && (d.kind == ProvenInfeasible && limits.maxSetAlternatives >= 1
          && (TermsAtValid(r, i); Honest(TermsAt(r, i))) ==>
            (TermsAtValid(r, i); NoFamily(TermsAt(r, i))) && forall a :: !Mapping(r, a))
    case None =>
      d.kind != InvalidRequest && (d.kind == ProvenInfeasible && NothingDropped(r, limits) ==>
          forall a :: !Mapping(r, a))
  }

  ghost predicate DenialsTrue(r: Request, limits: PlannerLimits, denials: seq<Denial>)
    requires r.Valid()
  {
    forall i {:trigger DenialTrue(r, limits, denials[i])} | 0 <= i < |denials| :: DenialTrue(r, limits, denials[i])
  }

  lemma DenialsSnoc(r: Request, limits: PlannerLimits, denials: seq<Denial>, d: Denial)
    requires r.Valid() && DenialsTrue(r, limits, denials) && DenialTrue(r, limits, d)
    ensures DenialsTrue(r, limits, denials + [d])
  {
    var more := denials + [d];
    forall i | 0 <= i < |more|
      ensures DenialTrue(r, limits, more[i])
    {
      assert i < |denials| ==> DenialTrue(r, limits, denials[i]);
    }
  }

  lemma EdgeDenialTrue(r: Request, limits: PlannerLimits, i: nat, kind: DenialKind)
    requires r.Valid() && i < |r.logical| && PlanOk(r, limits, Denied(kind), i)
    ensures DenialTrue(r, limits, Denial(Some(i), kind))
  {
    if kind == ProvenInfeasible {
      TermsAtValid(r, i);
      if limits.maxSetAlternatives >= 1 && Honest(TermsAt(r, i)) {
        forall a
          ensures !Mapping(r, a)
        {
          EdgeDenialIsFinal(r, i, a);
        }
      }
    }
  }

  /** What has been established after some of the logical edges of a request that may be roomy or servable. */
  ghost predicate Gathered(r: Request, limits: PlannerLimits, plans: seq<EdgePlan>, denials: seq<Denial>, roomy: bool,
      servable: bool)
    requires r.Valid()
  {
    && PlansOk(r, limits, plans) && DenialsTrue(r, limits, denials)
    && (denials == [] ==> forall k | 0 <= k < |plans| :: plans[k].Planned? && r.Bound(k))
    && (roomy ==> NoneInconclusive(plans) && NoneGaveUp(denials))
    && (servable ==> denials == [])
    && denials == DenialsOf(plans)
  }

  function Noted(denials: seq<Denial>, i: nat, plan: EdgePlan): seq<Denial> {
    if plan.Denied? then denials + [Denial(Some(i), plan.kind)] else denials
  }

  /** One denial for every logical edge that was refused, in order. */
  function DenialsOf(plans: seq<EdgePlan>): seq<Denial> {
    if plans == [] then [] else Noted(DenialsOf(plans[..|plans| - 1]), |plans| - 1, plans[|plans| - 1])
  }

  lemma {:induction false} DenialsOfSnoc(plans: seq<EdgePlan>, plan: EdgePlan)
    ensures DenialsOf(plans + [plan]) == Noted(DenialsOf(plans), |plans|, plan)
  {
    assert (plans + [plan])[..|plans|] == plans;
  }

  /** Logical edge i is unbound or cannot be served even alone. */
  ghost predicate Unserved(r: Request, i: nat)
    requires r.Valid() && i < |r.logical|
  {
    r.Bound(i) ==> (TermsAtValid(r, i); NoFamily(TermsAt(r, i)))
  }

  predicate Names(denials: seq<Denial>, i: nat) {
    exists k | 0 <= k < |denials| :: denials[k].edge == Some(i)
  }

  lemma {:induction false} RefusedIsNamed(plans: seq<EdgePlan>, i: nat)
    requires i < |plans| && plans[i].Denied?
    ensures Names(DenialsOf(plans), i)
    decreases |plans|
  {
    var init, last := plans[..|plans| - 1], plans[|plans| - 1];
    var before := DenialsOf(init);
    if i < |plans| - 1 {
      RefusedIsNamed(init, i);
      var k :| 0 <= k < |before| && before[k].edge == Some(i);
      assert Noted(before, |plans| - 1, last)[k].edge == Some(i);
    } else {
      assert Noted(before, i, last)[|before|].edge == Some(i);
    }
  }

  lemma {:induction false} UnservedIsNamed(r: Request, limits: PlannerLimits, plans: seq<EdgePlan>, i: nat)
    requires r.Valid() && PlansOk(r, limits, plans) && i < |plans| && Unserved(r, i)
    ensures Names(DenialsOf(plans), i)
  {
    PlannedIsServed(r, limits, plans, i);
    RefusedIsNamed(plans, i);
  }

  lemma {:induction false} PlannedIsServed(r: Request, limits: PlannerLimits, plans: seq<EdgePlan>, i: nat)
    requires r.Valid() && PlansOk(r, limits, plans) && i < |plans|
    ensures plans[i].Planned? ==> !Unserved(r, i)
  {
    assert PlanOk(r, limits, plans[i], i);
    if r.Bound(i) && plans[i].Planned? {
      TermsAtValid(r, i);
      assert IsAnswer(TermsAt(r, i), plans[i].sets[0]);
    }
  }

  lemma {:induction false} GatheredSnoc(r: Request, limits: PlannerLimits, plans: seq<EdgePlan>, denials: seq<Denial>,
      plan: EdgePlan, roomy: bool, servable: bool)
    requires r.Valid() && |plans| < |r.logical| && Gathered(r, limits, plans, denials, roomy, servable)
             && PlanOk(r, limits, plan, |plans|)
    requires (roomy ==> !Inconclusive(plan)) && (servable ==> plan.Planned?)
    ensures Gathered(r, limits, plans + [plan], Noted(denials, |plans|, plan), roomy, servable)
  {
    PlansSnoc(r, limits, plans, plan);
    DenialsOfSnoc(plans, plan);
    NotedTrue(r, limits, denials, |plans|, plan);
    NotedVerdicts(plans, denials, plan);
    PlannedIsBound(r, limits, plan, |plans|);
  }

  lemma PlannedIsBound(r: Request, limits: PlannerLimits, plan: EdgePlan, i: nat)
    requires r.Valid() && i < |r.logical| && PlanOk(r, limits, plan, i)
    ensures plan.Planned? ==> r.Bound(i)
  {
  }

  lemma NotedVerdicts(plans: seq<EdgePlan>, denials: seq<Denial>, plan: EdgePlan)
    ensures NoneInconclusive(plans) && !Inconclusive(plan) ==> NoneInconclusive(plans + [plan])
    ensures NoneGaveUp(denials) && !Inconclusive(plan) ==> NoneGaveUp(Noted(denials, |plans|, plan))
    ensures Noted(denials, |plans|, plan) == [] <==> denials == [] && plan.Planned?
  {
  }

  lemma NotedTrue(r: Request, limits: PlannerLimits, denials: seq<Denial>, i: nat, plan: EdgePlan)
    requires r.Valid() && i < |r.logical| && DenialsTrue(r, limits, denials) && PlanOk(r, limits, plan, i)
    ensures DenialsTrue(r, limits, Noted(denials, i, plan))
  {
    if plan.Denied? {
      EdgeDenialTrue(r, limits, i, plan.kind);
      DenialsSnoc(r, limits, denials, Denial(Some(i), plan.kind));
    }
  }

  /** What the common counters say after the first i logical edges. */
  ghost predicate Accounted(r: Request, limits: PlannerLimits, i: nat, st: ShortestPath.SearchBudget)
    requires r.Valid() && i <= |r.logical|
    reads st
  {
    && st.enumerationSteps <= ScansUpTo(r, i) && st.enumerationBudget == Max(1, limits.maxTotalEnumerationSteps)
    && st.maxExpansions == Max(1, r.policy.maxExpansions)
    && Paid(0, false, st.expansions, st.budgetExceeded, st.maxExpansions, Times(i, ExpansionBound(r)))
  }

  ghost predicate Sized(r: Request, blocks: BlockSet)
    reads blocks
  {
    blocks.Valid() && |blocks.nodeStamp| == |r.fabric.nodes| && |blocks.edgeStamp| == |r.fabric.edges| && Clear(blocks)
  }

  /** Analyses logical edge i; the counters move by no more than its own work. */
  method AnalyseEdge(r: Request, limits: PlannerLimits, i: nat, st: ShortestPath.SearchBudget, blocks: BlockSet)
      returns (plan: EdgePlan)
    requires r.Valid() && i < |r.logical|
    requires Sized(r, blocks)
    modifies st, blocks
    ensures Sized(r, blocks)
    ensures PlanOk(r, limits, plan, i)
    ensures old(st.enumerationSteps) <= st.enumerationSteps <= old(st.enumerationSteps) + ScansAt(r, i)
    ensures RoomFor(r, limits, i, st.enumerationBudget - old(st.enumerationSteps)) ==> !Inconclusive(plan)
    ensures Paid(old(st.expansions), old(st.budgetExceeded), st.expansions, st.budgetExceeded, st.maxExpansions,
                 ExpansionBound(r))
    ensures ServableAt(r, limits, i) ==> plan.Planned? || st.budgetExceeded
  {
    if !r.Bound(i) {
      return Denied(InvalidRequest);
    }
    TermsAtValid(r, i);
    plan := Analyse(st, blocks, TermsAt(r, i), limits);
  }

  /** Analyses the next logical edge on the common counters. */
  method AnalyseNext(r: Request, limits: PlannerLimits, i: nat, st: ShortestPath.SearchBudget, blocks: BlockSet)
      returns (plan: EdgePlan)
    requires r.Valid() && i < |r.logical| && Sized(r, blocks) && Accounted(r, limits, i, st)
    modifies st, blocks
    ensures Sized(r, blocks) && Accounted(r, limits, i + 1, st) && PlanOk(r, limits, plan, i)
    ensures (Roomy(r, limits) ==> !Inconclusive(plan)) && (Servable(r, limits) ==> plan.Planned?)
  {
    RoomLeft(r, limits, i, st.enumerationSteps);
    TimesGrow(i + 1, |r.logical|, ExpansionBound(r));
    plan := AnalyseEdge(r, limits, i, st, blocks);
    assert Servable(r, limits) ==> ServableAt(r, limits, i);
  }

  /** Adds the plan of the next logical edge, or its denial. */
  method AnalyseMore(r: Request, limits: PlannerLimits, st: ShortestPath.SearchBudget, blocks: BlockSet,
      plans0: seq<EdgePlan>, denials0: seq<Denial>, ghost roomy: bool, ghost servable: bool)
    returns (plans: seq<EdgePlan>, denials: seq<Denial>)
    requires r.Valid() && |plans0| < |r.logical| && Sized(r, blocks) && Accounted(r, limits, |plans0|, st)
    requires Gathered(r, limits, plans0, denials0, roomy, servable)
    requires (roomy ==> Roomy(r, limits)) && (servable ==> Servable(r, limits))
    modifies st, blocks
    ensures |plans| == |plans0| + 1 && Sized(r, blocks) && Accounted(r, limits, |plans|, st)
    ensures Gathered(r, limits, plans, denials, roomy, servable)
    ensures denials == Noted(denials0, |plans0|, plans[|plans0|])
  {
    var plan := AnalyseNext(r, limits, |plans0|, st, blocks);
    GatheredSnoc(r, limits, plans0, denials0, plan, roomy, servable);
    plans, denials := plans0 + [plan], Noted(denials0, |plans0|, plan);
  }

  /** Analyses the logical edges in order, collecting denials (src/planner.cpp:1852-1884). */
  method AnalyseAll(r: Request, limits: PlannerLimits) returns (plans: seq<EdgePlan>, denials: seq<Denial>)
    requires r.Valid()
    ensures Gathered(r, limits, plans, denials, Roomy(r, limits), Servable(r, limits))
    ensures denials == [] ==> |plans| == |r.logical|
    ensures if limits.collectAllDenials then |plans| == |r.logical| else |denials| <= 1
  {
    var st := new ShortestPath.SearchBudget(Max(1, r.policy.maxExpansions), Max(1, limits.maxTotalEnumerationSteps));
    var blocks := new BlockSet(|r.fabric.nodes|, |r.fabric.edges|);
    plans, denials := AnalyseEach(r, limits, st, blocks, Roomy(r, limits), Servable(r, limits));
  }

  /** The loop over the logical edges. */
  method AnalyseEach(r: Request, limits: PlannerLimits, st: ShortestPath.SearchBudget, blocks: BlockSet,
      ghost roomy: bool, ghost servable: bool)
    returns (plans: seq<EdgePlan>, denials: seq<Denial>)
    requires r.Valid() && Sized(r, blocks) && Accounted(r, limits, 0, st)
    requires (roomy ==> Roomy(r, limits)) && (servable ==> Servable(r, limits))
    modifies st, blocks
    ensures Gathered(r, limits, plans, denials, roomy, servable) && (denials == [] ==> |plans| == |r.logical|)
    ensures if limits.collectAllDenials then |plans| == |r.logical| else |denials| <= 1
  {
    plans, denials := [], [];
    for i := 0 to |r.logical|
      invariant Sized(r, blocks) && Accounted(r, limits, i, st)
      invariant |plans| == i && Gathered(r, limits, plans, denials, roomy, servable)
      invariant limits.collectAllDenials || denials == []
    {
      plans, denials := AnalyseMore(r, limits, st, blocks, plans, denials, roomy, servable);
      if plans[i].Denied? && !limits.collectAllDenials {
        return;
      }
    }
  }

  // ----- requests whose cost cannot reach the ceiling -----

  /** No mapping of the request can saturate: a bound on its cost that is known before planning. */
  predicate Modest(r: Request) {
    Times(|r.logical|, Times(Wanted(r), r.policy.maxPathCost)) < COST_CEILING
  }

  lemma {:induction false} TotalCostBound(s: seq<Candidate>, most: nat)
    requires forall i | 0 <= i < |s| :: s[i].cost <= most
    ensures TotalCost(s) <= Times(|s|, most)
    decreases |s|
  {
    if s != [] {
      TotalCostBound(s[..|s| - 1], most);
    }
  }

  lemma {:induction false} AnswerCostBound(r: Request, a: seq<PathSet>, i: nat)
    requires r.Valid() && i < |a| == |r.logical| && AnswerAt(r, a, i)
    ensures a[i].totalCost <= Times(Wanted(r), r.policy.maxPathCost)
  {
    TermsAtValid(r, i);
    var t := TermsAt(r, i);
    BuiltFromOrdered(t, a[i].paths);
    forall k | 0 <= k < |a[i].paths|
      ensures a[i].paths[k].cost <= r.policy.maxPathCost
    {
      assert Good(t, a[i].paths[k]);
    }
    TotalCostBound(a[i].paths, r.policy.maxPathCost);
  }

  lemma {:induction false} TallyBound(a: seq<PathSet>, n: nat, most: nat)
    requires n <= |a| && forall i | 0 <= i < |a| :: a[i].totalCost <= most
    ensures InMenu(Single(a), Fronts(n)) && Tally(Single(a), Fronts(n)).totalCost <= Times(n, most)
  {
    if n > 0 {
      TallyBound(a, n - 1, most);
      assert Fronts(n)[..n - 1] == Fronts(n - 1);
    }
  }

  /** The score of a mapping of a modest request is below the ceiling. */
  lemma {:induction false} ModestCost(r: Request, a: seq<PathSet>)
    requires r.Valid() && Mapping(r, a) && Modest(r)
    ensures MappingScore(a).totalCost < COST_CEILING
  {
    forall i | 0 <= i < |a|
      ensures a[i].totalCost <= Times(Wanted(r), r.policy.maxPathCost)
    {
      assert AnswerAt(r, a, i);
      AnswerCostBound(r, a, i);
    }
    TallyBound(a, |a|, Times(Wanted(r), r.policy.maxPathCost));
  }

  // ----- a decision procedure -----

  /** Nothing stands between the planner's verdict and the truth about the request. */
  ghost predicate Decidable(r: Request, limits: PlannerLimits)
    requires r.Valid()
  {
    && Generous(r, limits) && NothingDropped(r, limits) && limits.maxSetAlternatives >= 1
    && forall i | 0 <= i < |r.logical| :: r.Bound(i) && (TermsAtValid(r, i); Honest(TermsAt(r, i)))
  }

  lemma {:induction false} RefusalIsFinal(r: Request, limits: PlannerLimits, denials: seq<Denial>)
    requires r.Valid() && Decidable(r, limits) && denials != [] && DenialsTrue(r, limits, denials)
             && NoneGaveUp(denials)
    ensures forall a :: !Mapping(r, a)
  {
    assert DenialTrue(r, limits, denials[0]) && denials[0].kind != SearchLimitReached;
    if denials[0].edge.Some? {
      assert r.Bound(denials[0].edge.value);
    }
  }

  /** A refusal names every logical edge that cannot be served even alone; otherwise there is none. */
  ghost predicate AllNamed(r: Request, o: Outcome)
    requires r.Valid()
  {
    forall i {:trigger Unserved(r, i)} | 0 <= i < |r.logical| && Unserved(r, i) :: o.Refused? && Names(o.denials, i)
  }

  lemma {:induction false} NothingUnnamed(r: Request, limits: PlannerLimits, plans: seq<EdgePlan>)
    requires r.Valid() && PlansOk(r, limits, plans)
    ensures forall i {:trigger Unserved(r, i)} | 0 <= i < |plans| && Unserved(r, i) :: Names(DenialsOf(plans), i)
  {
    forall i | 0 <= i < |plans| && Unserved(r, i)
      ensures Names(DenialsOf(plans), i)
    {
      UnservedIsNamed(r, limits, plans, i);
    }
  }

  /**
    Planning one request. Every denial is true of the request, a chosen result is a mapping, and `optimal` means that
    no mapping is better in total cost, conflicts or largest path cost.
   */
  method PlanCollective(r: Request, limits: PlannerLimits) returns (o: Outcome)
    ensures !r.Valid() ==> o == Refused([Denial(None, InvalidRequest)])
    ensures r.Valid() && o.Refused? ==> o.denials != [] && DenialsTrue(r, limits, o.denials)
    ensures r.Valid() && limits.collectAllDenials ==> AllNamed(r, o)
    ensures o.Refused? && !limits.collectAllDenials ==> |o.denials| == 1
    ensures o.Chosen? ==> r.Valid() && Mapping(r, o.answers) && FromRetained(r, limits, o)
    ensures o.Chosen? ==> o.score.(headroom := COST_CEILING) == MappingScore(o.answers)
    ensures o.Chosen? && o.optimal && (if o.fronts then o.score.totalCost < COST_CEILING
            else NothingDropped(r, limits)) ==>
              Unbeaten(r, o.score)
    ensures o.Chosen? && o.optimal && NothingDropped(r, limits) && Modest(r) ==> Unbeaten(r, o.score)
    ensures r.Valid() && Generous(r, limits) ==> Decided(o)
    ensures r.Valid() && Servable(r, limits) && o.Refused? ==>
            forall i | 0 <= i < |o.denials| :: o.denials[i].edge == None
    ensures r.Valid() && Servable(r, limits) && Uncontended(r) ==> o.Chosen?
    ensures r.Valid() && Decidable(r, limits) ==> (o.Chosen? <==> exists a :: Mapping(r, a))
  {
    if !r.Valid() {
      return Refused([Denial(None, InvalidRequest)]);
    }
    var plans, denials := AnalyseAll(r, limits);
    NothingUnnamed(r, limits, plans);
    if denials != [] {
      o := Refused(denials);
    } else {
      o := ChooseGlobally(r, limits, plans);
    }
    if Decidable(r, limits) && o.Refused? {
      RefusalIsFinal(r, limits, o.denials);
    }
    if o.Chosen? && Modest(r) {
      ModestCost(r, o.answers);
    }
  }

  /**
    The answers were picked from retained alternatives that fit together, all of them complete if `optimal` is claimed;
    fronts that fit win.
   */
  ghost predicate FromRetained(r: Request, limits: PlannerLimits, o: Outcome)
    requires r.Valid() && o.Chosen?
  {
    exists plans, c {:trigger Picked(r, limits, plans, c, o)} :: Picked(r, limits, plans, c, o)
  }

  ghost predicate Picked(r: Request, limits: PlannerLimits, plans: seq<EdgePlan>, c: Choice, o: Outcome)
    requires r.Valid() && o.Chosen?
  {
    && AllPlanned(r, limits, plans) && Picks(MenuOf(plans), c, o.answers) && Feasible(MenuOf(plans), SpareOf(r), c)
    && (o.optimal ==> AllTrue(FlagsOf(plans)))
    && MenuOk(MenuOf(plans), |SpareOf(r)|) && o.score == ScoreOf(MenuOf(plans), SpareOf(r), c)
    && (Feasible(MenuOf(plans), SpareOf(r), Fronts(|plans|)) ==> c == Fronts(|plans|))
  }

  /** What the global solver establishes about the alternatives. */
  ghost predicate Solved(r: Request, limits: PlannerLimits, plans: seq<EdgePlan>, g: GlobalResult)
    requires r.Valid() && AllPlanned(r, limits, plans)
  {
    var menu, spare := MenuOf(plans), SpareOf(r);
    && MenuOk(menu, |spare|)
    && (g.found ==> Feasible(menu, spare, g.choice) && g.score == ScoreOf(menu, spare, g.choice))
    && (Feasible(menu, spare, Fronts(|plans|)) ==>
          g.found && g.choice == Fronts(|plans|) && (AllTrue(FlagsOf(plans)) ==> g.exhaustive))
    && (g.found && g.exhaustive ==>
          AllTrue(FlagsOf(plans)) && (g.choice == Fronts(|plans|)
              || FirstBest(menu, spare, All(menu, spare, []), g.choice)))
    && (!g.found && g.exhaustive ==> forall c :: !Feasible(menu, spare, c))
    && (AllTrue(FlagsOf(plans)) && !g.exhaustive ==> limits.maxGlobalNodes < Work(menu, spare, []))
  }

  method SolveRequest(r: Request, limits: PlannerLimits, plans: seq<EdgePlan>) returns (g: GlobalResult)
    requires r.Valid() && AllPlanned(r, limits, plans)
    ensures Solved(r, limits, plans, g)
  {
    var menu, spare := MenuOf(plans), SpareOf(r);
    MenuIsOk(r, limits, plans);
    var remaining := new nat[|spare|](i requires 0 <= i < |spare| => spare[i]);
    assert remaining[..] == spare;
    g := Solve(menu, FlagsOf(plans), remaining, limits.maxGlobalNodes);
  }

  method ChooseGlobally(r: Request, limits: PlannerLimits, plans: seq<EdgePlan>) returns (o: Outcome)
    requires r.Valid() && AllPlanned(r, limits, plans)
    ensures o.Refused? ==> |o.denials| == 1 && DenialsTrue(r, limits, o.denials)
    ensures o.Chosen? ==> Mapping(r, o.answers) && FromRetained(r, limits, o)
    ensures o.Chosen? ==> o.score.(headroom := COST_CEILING) == MappingScore(o.answers)
    ensures o.Chosen? && o.optimal && (if o.fronts then o.score.totalCost < COST_CEILING
            else NothingDropped(r, limits)) ==>
              Unbeaten(r, o.score)
    ensures NoneInconclusive(plans) && Settles(r, limits) ==> Decided(o)
    ensures o.Refused? ==> forall i | 0 <= i < |o.denials| :: o.denials[i].edge == None
    ensures Servable(r, limits) && Uncontended(r) ==> o.Chosen?
  {
    SearchFits(r, limits, plans);
    if Servable(r, limits) && Uncontended(r) {
      FrontsFit(r, limits, plans);
    }
    var g := SolveRequest(r, limits, plans);
    if g.found {
      o := Adopt(r, limits, plans, g);
    } else {
      o := Decline(r, limits, plans, g);
    }
  }

  /** No assignment was found (src/planner.cpp:1891-1913). */
  method Decline(r: Request, limits: PlannerLimits, plans: seq<EdgePlan>, g: GlobalResult) returns (o: Outcome)
    requires r.Valid() && AllPlanned(r, limits, plans) && Solved(r, limits, plans, g) && !g.found
    ensures o.Refused? && |o.denials| == 1 && DenialsTrue(r, limits, o.denials)
    ensures forall i | 0 <= i < |o.denials| :: o.denials[i].edge == None
    ensures g.exhaustive && AllTrue(FlagsOf(plans)) ==> Decided(o)
  {
    var kind := SearchLimitReached;
    if g.exhaustive && AllTrue(FlagsOf(plans)) {
      GlobalDenialTrue(r, limits, plans);
      kind := ProvenInfeasible;
    }
    DenialsSnoc(r, limits, [], Denial(None, kind));
    o := Refused([] + [Denial(None, kind)]);
  }

  /** The chosen assignment, with the claim that goes with it. */
  method Adopt(r: Request, limits: PlannerLimits, plans: seq<EdgePlan>, g: GlobalResult) returns (o: Outcome)
    requires r.Valid() && AllPlanned(r, limits, plans) && Solved(r, limits, plans, g) && g.found
    ensures o.Chosen? && Mapping(r, o.answers) && o.optimal == g.exhaustive && FromRetained(r, limits, o)
    ensures o.score.(headroom := COST_CEILING) == MappingScore(o.answers)
    ensures o.optimal && (if o.fronts then o.score.totalCost < COST_CEILING else NothingDropped(r, limits)) ==>
            Unbeaten(r, o.score)
  {
    var menu := MenuOf(plans);
    var answers := seq(|plans|, i requires 0 <= i < |plans| => menu[i][g.choice[i]]);
    ChoiceIsMapping(r, limits, plans, g.choice, answers);
    TallyHeadroom(menu, g.choice);
    o := Chosen(answers, g.score, g.exhaustive, g.choice == Fronts(|plans|));
    assert Picked(r, limits, plans, g.choice, o);
    if o.optimal && (if o.fronts then o.score.totalCost < COST_CEILING else NothingDropped(r, limits)) {
      OptimalClaim(r, limits, plans, g.choice, g.score);
    }
  }

  /** A complete analysis leaves the global search the best alternatives of every logical edge. */
  lemma {:induction false} SearchFits(r: Request, limits: PlannerLimits, plans: seq<EdgePlan>)
    requires r.Valid() && AllPlanned(r, limits, plans)
    ensures NoneInconclusive(plans) ==> AllTrue(FlagsOf(plans))
    ensures AllTrue(FlagsOf(plans)) ==> MenuOf(plans) == BestMenu(r, limits)
  {
    if AllTrue(FlagsOf(plans)) {
      forall i | 0 <= i < |plans|
        ensures plans[i].sets == BestAt(r, limits, i)
      {
        assert PlanOk(r, limits, plans[i], i) && FlagsOf(plans)[i];
      }
    }
  }

  /** What complete analyses of all logical edges would find for a request that has a mapping. */
  lemma {:induction false} WholePlans(r: Request, limits: PlannerLimits, a: seq<PathSet>) returns (plans: seq<EdgePlan>)
    requires r.Valid() && Mapping(r, a) && limits.maxSetAlternatives >= 1
    requires forall i | 0 <= i < |r.logical| :: r.Bound(i) && TermsAt(r, i).q.source != TermsAt(r, i).q.target
    ensures AllPlanned(r, limits, plans) && AllTrue(FlagsOf(plans)) && MenuOf(plans) == BestMenu(r, limits)
  {
    plans := [];
    while |plans| < |a|
      invariant |plans| <= |a| && PlansOk(r, limits, plans)
      invariant forall i | 0 <= i < |plans| :: plans[i].Planned? && plans[i].exhaustive
    {
      var i := |plans|;
      assert AnswerAt(r, a, i);
      TermsAtValid(r, i);
      var plan := WholePlan(TermsAt(r, i), a[i], limits.maxSetAlternatives);
      PlansSnoc(r, limits, plans, plan);
      plans := plans + [plan];
    }
    SearchFits(r, limits, plans);
  }

  lemma {:induction false} FrontAmount(r: Request, limits: PlannerLimits, plans: seq<EdgePlan>, i: nat, x: nat)
    requires r.Valid() && AllPlanned(r, limits, plans) && Wanted(r) == 1 && i < |plans| && x < |r.fabric.edges|
    ensures |plans[i].sets| > 0
    ensures Amount(plans[i].sets[0].usage, x) <= if r.fabric.edges[x].capacity > 0 then PerPathDemand(r) else 0
  {
    assert PlanOk(r, limits, plans[i], i) && plans[i].sets[0] in plans[i].sets;
    TermsAtValid(r, i);
    OneAmount(TermsAt(r, i), plans[i].sets[0], x);
  }

  /** One path for every logical edge takes no more of an edge than one share each. */
  lemma {:induction false} SharesCommitted(r: Request, limits: PlannerLimits, plans: seq<EdgePlan>, n: nat, x: nat)
    requires r.Valid() && AllPlanned(r, limits, plans) && Wanted(r) == 1 && n <= |plans| && x < |r.fabric.edges|
    ensures InMenu(MenuOf(plans), Fronts(n))
    ensures Committed(MenuOf(plans), Fronts(n), x)
            <= if r.fabric.edges[x].capacity > 0 then Times(n, PerPathDemand(r)) else 0
  {
    if n > 0 {
      SharesCommitted(r, limits, plans, n - 1, x);
      assert Fronts(n)[..n - 1] == Fronts(n - 1);
      FrontAmount(r, limits, plans, n - 1, x);
    }
  }

  lemma {:induction false} FrontsFit(r: Request, limits: PlannerLimits, plans: seq<EdgePlan>)
    requires r.Valid() && AllPlanned(r, limits, plans) && Servable(r, limits) && Uncontended(r)
    ensures Feasible(MenuOf(plans), SpareOf(r), Fronts(|plans|))
  {
    if |plans| > 0 {
      assert ServableAt(r, limits, 0);
      TermsAtValid(r, 0);
    }
    MenuIsOk(r, limits, plans);
    forall x | 0 <= x < |SpareOf(r)|
      ensures Committed(MenuOf(plans), Fronts(|plans|), x) <= SpareOf(r)[x]
    {
      if |plans| > 0 {
        SharesCommitted(r, limits, plans, |plans|, x);
      }
    }
  }

  lemma GlobalDenialTrue(r: Request, limits: PlannerLimits, plans: seq<EdgePlan>)
    requires r.Valid() && AllPlanned(r, limits, plans) && AllTrue(FlagsOf(plans))
    requires forall c :: !Feasible(MenuOf(plans), SpareOf(r), c)
    ensures DenialTrue(r, limits, Denial(None, ProvenInfeasible))
  {
    if NothingDropped(r, limits) {
      forall a
        ensures !Mapping(r, a)
      {
        if Mapping(r, a) {
          var c := MappingOnMenu(r, limits, plans, a);
        }
      }
    }
  }

  /** The claim behind `optimal`, for either path of the solver. */
  lemma {:induction false} OptimalClaim(r: Request, limits: PlannerLimits, plans: seq<EdgePlan>, c: Choice,
      score: Score)
    requires r.Valid() && AllPlanned(r, limits, plans) && AllTrue(FlagsOf(plans))
             && Feasible(MenuOf(plans), SpareOf(r), c)
    requires c == Fronts(|plans|) || FirstBest(MenuOf(plans), SpareOf(r), All(MenuOf(plans), SpareOf(r), []), c)
    requires score.(headroom := COST_CEILING) == Tally(MenuOf(plans), c)
    requires if c == Fronts(|plans|) then score.totalCost < COST_CEILING else NothingDropped(r, limits)
    ensures Unbeaten(r, score)
  {
    forall a | Mapping(r, a)
      ensures NoWorse3(score, MappingScore(a))
    {
      if c == Fronts(|plans|) {
        FrontsBeatMapping(r, limits, plans, a);
      } else {
        BestBeatsMapping(r, limits, plans, c, a);
      }
    }
  }

  lemma {:induction false} TallyHeadroom(menu: Menu, c: Choice)
    requires InMenu(menu, c)
    ensures Tally(menu, c).headroom == COST_CEILING
    decreases |c|
  {
    if c != [] {
      TallyHeadroom(menu, c[..|c| - 1]);
    }
  }
}
