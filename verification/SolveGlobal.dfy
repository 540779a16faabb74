/** The two paths of the global solver and what their results mean (src/planner.cpp:1489-1656). */
module SolveGlobal {
  import opened Saturating
  import opened PathSets
  import opened GlobalAssignment
  import opened GlobalSearch

  datatype GlobalResult = GlobalResult(found: bool, exhaustive: bool, nodes: nat, choice: Choice, score: Score)

  /** The first alternative of every level. */
  function Fronts(levels: nat): Choice {
    seq(levels, _ => 0)
  }

  // ----- comparison on the levels the fast path respects -----

  /** (total cost, conflicts, largest path cost) in lexicographic order. */
  predicate NoWorse3(a: Score, b: Score) {
    a.totalCost < b.totalCost ||
    (a.totalCost == b.totalCost && (a.conflicts < b.conflicts ||
      (a.conflicts == b.conflicts && a.maxPathCost <= b.maxPathCost)))
  }

  /** The front of each level is not beaten by its other alternatives. */
  ghost predicate FrontsBest(menu: Menu) {
    forall l, i | 0 <= l < |menu| && 0 <= i < |menu[l]| :: !PathSetLess(menu[l][i], menu[l][0])
  }

  /** Cost sum before clamping. */
  ghost function RawCost(menu: Menu, choice: Choice): nat
    requires InMenu(menu, choice)
  {
    if choice == [] then 0
    else var l := |choice| - 1; RawCost(menu, choice[..l]) + menu[l][choice[l]].totalCost
  }

  lemma {:induction false} TallyClamps(menu: Menu, choice: Choice)
    requires InMenu(menu, choice)
    ensures Tally(menu, choice).totalCost == Min(RawCost(menu, choice), COST_CEILING)
    decreases |choice|
  {
    if choice != [] {
      var l := |choice| - 1;
      TallyClamps(menu, choice[..l]);
      ClampAdd(RawCost(menu, choice[..l]), menu[l][choice[l]].totalCost);
    }
  }

  lemma {:induction false} FrontsDominate(menu: Menu, c: Choice, n: nat)
    requires FrontsBest(menu) && InMenu(menu, c) && n <= |c| && InMenu(menu, Fronts(|c|))
    ensures InMenu(menu, c[..n]) && InMenu(menu, Fronts(n))
    ensures var f, o := Tally(menu, Fronts(n)), Tally(menu, c[..n]);
            NoWorse3(f.(totalCost := RawCost(menu, Fronts(n))), o.(totalCost := RawCost(menu, c[..n])))
  {
    if n > 0 {
      FrontsDominate(menu, c, n - 1);
      assert Fronts(n)[..n - 1] == Fronts(n - 1) && c[..n][..n - 1] == c[..n - 1];
      assert !PathSetLess(menu[n - 1][c[n - 1]], menu[n - 1][0]);
    }
  }

  /** Below the ceiling, taking every front is optimal in cost, conflicts and largest path cost. */
  lemma {:induction false} FrontsOptimal(menu: Menu, c: Choice)
    requires FrontsBest(menu) && InMenu(menu, c) && |c| == |menu| && InMenu(menu, Fronts(|menu|))
    requires Tally(menu, Fronts(|menu|)).totalCost < COST_CEILING
    ensures NoWorse3(Tally(menu, Fronts(|menu|)), Tally(menu, c))
  {
    FrontsDominate(menu, c, |c|);
    assert c[..|c|] == c;
    TallyClamps(menu, c);
    TallyClamps(menu, Fronts(|menu|));
    ClampedOrder(RawCost(menu, Fronts(|menu|)), RawCost(menu, c));
  }

  lemma ClampedOrder(a: nat, b: nat)
    requires Min(a, COST_CEILING) < COST_CEILING && a <= b
    ensures Min(a, COST_CEILING) <= Min(b, COST_CEILING)
    ensures Min(a, COST_CEILING) == Min(b, COST_CEILING) ==> a == b
  {
  }

  /** Whenever the fronts fit, the fast path and the exhaustive search agree on those three levels. */
  lemma {:induction false} FastAgreesWithSearch(menu: Menu, spare: seq<nat>, best: Choice)
    requires MenuOk(menu, |spare|) && FrontsBest(menu) && Feasible(menu, spare, Fronts(|menu|))
    requires Tally(menu, Fronts(|menu|)).totalCost < COST_CEILING
    requires FirstBest(menu, spare, All(menu, spare, []), best)
    ensures Feasible(menu, spare, best)
    ensures var f, b := Tally(menu, Fronts(|menu|)), Tally(menu, best);
            f.totalCost == b.totalCost && f.conflicts == b.conflicts && f.maxPathCost == b.maxPathCost
  {
    AllExact(menu, spare, [], Fronts(|menu|));
    AllExact(menu, spare, [], best);
    FrontsOptimal(menu, best);
    var all := All(menu, spare, []);
    var j :| 0 <= j < |all| && all[j] == Fronts(|menu|);
    assert !Better(ScoreOf(menu, spare, all[j]), ScoreOf(menu, spare, best));
  }

  // ----- the solver -----

  /** The trial of src/planner.cpp:1502-1518: every front in turn against a copy of the capacity vector. */
  method TryFronts(menu: Menu, trial: array<nat>) returns (fits: bool)
    requires MenuOk(menu, trial.Length)
    modifies trial
    ensures fits <==> Feasible(menu, old(trial[..]), Fronts(|menu|))
    ensures fits ==> trial[..] == Left(menu, old(trial[..]), Fronts(|menu|))
  {
    ghost var spare := trial[..];
    for l := 0 to |menu|
      invariant InMenu(menu, Fronts(l)) && Affordable(menu, spare, Fronts(l))
                && Holds(menu, spare, Fronts(l), trial[..])
    {
      if |menu[l]| == 0 {
        return false;
      }
      assert TableOk(menu[l][0].usage, trial.Length);
      assert Fronts(l + 1) == Fronts(l) + [0];
      FitsIsAffordable(menu, spare, Fronts(l), 0, trial[..]);
      var ok := Fits(menu[l][0].usage, trial);
      if !ok {
        FrontPrefix(menu, spare, l + 1);
        return false;
      }
      forall e | 0 <= e < |spare|
        ensures Committed(menu, Fronts(l + 1), e) == Committed(menu, Fronts(l), e) + Amount(menu[l][0].usage, e)
      {
        CommittedSnoc(menu, Fronts(l), 0, e);
      }
      Apply(menu[l][0].usage, trial);
    }
    assert trial[..] == Left(menu, spare, Fronts(|menu|));
    return true;
  }

  lemma FrontPrefix(menu: Menu, spare: seq<nat>, n: nat)
    requires n <= |menu| && InMenu(menu, Fronts(n)) && !Affordable(menu, spare, Fronts(n))
    ensures !Feasible(menu, spare, Fronts(|menu|))
  {
    assert Fronts(|menu|)[..n] == Fronts(n);
    if Feasible(menu, spare, Fronts(|menu|)) {
      AffordablePrefix(menu, spare, Fronts(|menu|), n);
    }
  }

  predicate AllTrue(flags: seq<bool>) {
    forall l | 0 <= l < |flags| :: flags[l]
  }

  /**
    The global solver. A found result is a feasible assignment with its true score. When it reports `exhaustive`,
    a missing result means that no assignment over the alternatives is feasible, and a found one is either the
    fronts (if they fit together) or the first best of all feasible assignments.
   */
  method Solve(menu: Menu, setsExhaustive: seq<bool>, remaining: array<nat>, budget: nat) returns (r: GlobalResult)
    requires MenuOk(menu, remaining.Length) && |setsExhaustive| == |menu|
    modifies remaining
    ensures menu == [] ==> r.found && r.exhaustive && r.choice == []
    ensures menu != [] && r.found ==> Feasible(menu, old(remaining[..]), r.choice)
                                      && r.score == ScoreOf(menu, old(remaining[..]), r.choice)
    ensures menu != [] && r.found && r.exhaustive ==> AllTrue(setsExhaustive)
    ensures menu != [] && r.found && r.exhaustive ==>
              r.choice == Fronts(|menu|) || FirstBest(menu, old(remaining[..]), All(menu, old(remaining[..]), []),
                  r.choice)
    ensures Feasible(menu, old(remaining[..]), Fronts(|menu|)) && menu != [] ==>
              r.found && r.choice == Fronts(|menu|) && r.nodes == 0 && r.exhaustive == AllTrue(setsExhaustive)
    ensures !r.found && r.exhaustive ==> forall c :: !Feasible(menu, old(remaining[..]), c)
    ensures r.nodes <= budget
    ensures AllTrue(setsExhaustive) && !r.exhaustive ==> budget < Work(menu, old(remaining[..]), [])
  {
    ghost var spare := remaining[..];
    if |menu| == 0 {
      return GlobalResult(true, true, 0, [], Score(0, 0, 0, COST_CEILING));
    }
    var trial := new nat[remaining.Length](i requires 0 <= i < remaining.Length reads remaining => remaining[i]);
    assert trial[..] == spare;
    var fits := TryFronts(menu, trial);
    if fits {
      var choice := Fronts(|menu|);
      var score := Tally(menu, choice).(headroom := SlackAll(menu, choice, trial[..]));
      return GlobalResult(true, AllTrue(setsExhaustive), 0, choice, score);
    }
    var best, nodes, limited := Explore(menu, remaining, budget);
    if best.NoBest? {
      if !limited {
        forall c
          ensures !Feasible(menu, spare, c)
        {
          AllExact(menu, spare, [], c);
        }
      }
      return GlobalResult(false, !limited, nodes, [], Score(0, 0, 0, COST_CEILING));
    }
    return GlobalResult(true, !limited && AllTrue(setsExhaustive), nodes, best.choice, best.score);
  }
}
