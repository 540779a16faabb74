/** The capacity-coherent choice of one alternative per logical edge (src/planner.cpp:1437-1656). */
module GlobalAssignment {
  import opened Saturating
  import opened Finite
  import opened PathSets
  import opened Candidates

  /** The retained alternatives of every logical edge. */
  type Menu = seq<seq<PathSet>>

  /** Index of the chosen alternative per logical edge. */
  type Choice = seq<nat>

  /** Tables are well formed and name edges of the fabric. */
  ghost predicate MenuOk(menu: Menu, edges: nat) {
    forall l, i | 0 <= l < |menu| && 0 <= i < |menu[l]| :: TableOk(menu[l][i].usage, edges)
  }

  ghost predicate TableOk(u: seq<Use>, edges: nat) {
    UsageOk(u) && forall k | 0 <= k < |u| :: u[k].edge < edges
  }

  ghost predicate InMenu(menu: Menu, choice: Choice) {
    |choice| <= |menu| && forall l | 0 <= l < |choice| :: choice[l] < |menu[l]|
  }

  /** What a partial choice commits on an edge. */
  ghost function Committed(menu: Menu, choice: Choice, e: nat): nat
    requires InMenu(menu, choice)
  {
    if choice == [] then 0
    else
      var l := |choice| - 1;
      Committed(menu, choice[..l], e) + Amount(menu[l][choice[l]].usage, e)
  }

  /** No physical edge is committed beyond its spare capacity. */
  ghost predicate Affordable(menu: Menu, spare: seq<nat>, choice: Choice)
    requires InMenu(menu, choice)
  {
    forall e | 0 <= e < |spare| :: Committed(menu, choice, e) <= spare[e]
  }

  /** A full assignment that fits the fabric. */
  ghost predicate Feasible(menu: Menu, spare: seq<nat>, choice: Choice) {
    InMenu(menu, choice) && |choice| == |menu| && Affordable(menu, spare, choice)
  }

  // ----- the search tree, in the order it is explored -----

  ghost function All(menu: Menu, spare: seq<nat>, prefix: Choice): seq<Choice>
    requires InMenu(menu, prefix)
    decreases |menu| - |prefix|, 1, 0
  {
    if |prefix| == |menu| then [prefix] else From(menu, spare, prefix, 0)
  }

  ghost function From(menu: Menu, spare: seq<nat>, prefix: Choice, i: nat): seq<Choice>
    requires InMenu(menu, prefix) && |prefix| < |menu| && i <= |menu[|prefix|]|
    decreases |menu| - |prefix|, 0, |menu[|prefix|]| - i
  {
    if i == |menu[|prefix|]| then []
    else
      (if Affordable(menu, spare, prefix + [i]) then All(menu, spare, prefix + [i]) else [])
      + From(menu, spare, prefix, i + 1)
  }

  /** Alternatives tested below a prefix. */
  ghost function Work(menu: Menu, spare: seq<nat>, prefix: Choice): nat
    requires InMenu(menu, prefix)
    decreases |menu| - |prefix|, 1, 0
  {
    if |prefix| == |menu| then 0 else WorkFrom(menu, spare, prefix, 0)
  }

  ghost function WorkFrom(menu: Menu, spare: seq<nat>, prefix: Choice, i: nat): nat
    requires InMenu(menu, prefix) && |prefix| < |menu| && i <= |menu[|prefix|]|
    decreases |menu| - |prefix|, 0, |menu[|prefix|]| - i
  {
    if i == |menu[|prefix|]| then 0
    else 1 + (if Affordable(menu, spare, prefix + [i]) then Work(menu, spare, prefix + [i]) else 0)
           + WorkFrom(menu, spare, prefix, i + 1)
  }

  // ----- how much work the search can take -----

  function WorkBound(levels: nat, cap: nat): nat {
    if levels == 0 then 0 else Visits(cap, WorkBound(levels - 1, cap))
  }

  ghost predicate Capped(menu: Menu, cap: nat) {
    forall l | 0 <= l < |menu| :: |menu[l]| <= cap
  }

  /** The search tree is bounded by the number of levels and of alternatives per level. */
  lemma {:induction false} WorkBounded(menu: Menu, spare: seq<nat>, prefix: Choice, cap: nat)
    requires InMenu(menu, prefix) && Capped(menu, cap)
    ensures Work(menu, spare, prefix) <= WorkBound(|menu| - |prefix|, cap)
    decreases |menu| - |prefix|, 1, 0
  {
    if |prefix| < |menu| {
      WorkFromBounded(menu, spare, prefix, 0, cap);
      VisitsGrow(|menu[|prefix|]|, cap, WorkBound(|menu| - |prefix| - 1, cap), WorkBound(|menu| - |prefix| - 1, cap));
    }
  }

  lemma {:induction false} WholeTreeBounded(menu: Menu, spare: seq<nat>, cap: nat, nodes: nat)
    requires Capped(menu, cap) && WorkBound(|menu|, cap) <= nodes
    ensures Work(menu, spare, []) <= nodes
  {
    WorkBounded(menu, spare, [], cap);
  }

  lemma {:induction false} WorkFromBounded(menu: Menu, spare: seq<nat>, prefix: Choice, i: nat, cap: nat)
    requires InMenu(menu, prefix) && Capped(menu, cap) && |prefix| < |menu| && i <= |menu[|prefix|]|
    ensures WorkFrom(menu, spare, prefix, i) <= Visits(|menu[|prefix|]| - i, WorkBound(|menu| - |prefix| - 1, cap))
    decreases |menu| - |prefix|, 0, |menu[|prefix|]| - i
  {
    if i < |menu[|prefix|]| {
      WorkFromBounded(menu, spare, prefix, i + 1, cap);
      if Affordable(menu, spare, prefix + [i]) {
        WorkBounded(menu, spare, prefix + [i], cap);
      }
    }
  }

  lemma {:induction false} CommittedSnoc(menu: Menu, prefix: Choice, i: nat, e: nat)
    requires InMenu(menu, prefix + [i])
    ensures InMenu(menu, prefix)
    ensures Committed(menu, prefix + [i], e) == Committed(menu, prefix, e) + Amount(menu[|prefix|][i].usage, e)
  {
    assert (prefix + [i])[..|prefix|] == prefix;
    forall l | 0 <= l < |prefix|
      ensures prefix[l] < |menu[l]|
    {
      assert (prefix + [i])[l] == prefix[l];
    }
  }

  lemma {:induction false} AffordablePrefix(menu: Menu, spare: seq<nat>, choice: Choice, n: nat)
    requires InMenu(menu, choice) && n <= |choice| && Affordable(menu, spare, choice)
    ensures InMenu(menu, choice[..n]) && Affordable(menu, spare, choice[..n])
    decreases |choice| - n
  {
    if n < |choice| {
      AffordablePrefix(menu, spare, choice, n + 1);
      assert choice[..n + 1] == choice[..n] + [choice[n]];
      forall e | 0 <= e < |spare|
        ensures Committed(menu, choice[..n], e) <= spare[e]
      {
        CommittedSnoc(menu, choice[..n], choice[n], e);
        assert Committed(menu, choice[..n + 1], e) <= spare[e];
      }
    } else {
      assert choice[..n] == choice;
    }
  }

  /** The tree below a prefix holds exactly the feasible assignments that extend it. */
  lemma {:induction false} AllExact(menu: Menu, spare: seq<nat>, prefix: Choice, c: Choice)
    requires InMenu(menu, prefix) && Affordable(menu, spare, prefix)
    ensures c in All(menu, spare, prefix) <==> Feasible(menu, spare, c) && prefix <= c
    decreases |menu| - |prefix|, 1, 0
  {
    if |prefix| < |menu| {
      FromExact(menu, spare, prefix, 0, c);
      if Feasible(menu, spare, c) && prefix <= c {
        assert c[|prefix|] < |menu[|prefix|]|;
      }
    } else if prefix <= c && |c| == |menu| {
      assert c == prefix;
    }
  }

  lemma {:induction false} FromExact(menu: Menu, spare: seq<nat>, prefix: Choice, i: nat, c: Choice)
    requires InMenu(menu, prefix) && Affordable(menu, spare, prefix) && |prefix| < |menu| && i <= |menu[|prefix|]|
    ensures c in From(menu, spare, prefix, i) <==>
            Feasible(menu, spare, c) && prefix <= c && i <= c[|prefix|]
    decreases |menu| - |prefix|, 0, |menu[|prefix|]| - i
  {
    if i < |menu[|prefix|]| {
      FromExact(menu, spare, prefix, i + 1, c);
      var next := prefix + [i];
      if Affordable(menu, spare, next) {
        AllExact(menu, spare, next, c);
        assert prefix <= c && |c| == |menu| && c[|prefix|] == i ==> next <= c;
      } else if Feasible(menu, spare, c) && prefix <= c && c[|prefix|] == i {
        assert c[..|prefix| + 1] == next;
        AffordablePrefix(menu, spare, c, |prefix| + 1);
      }
    }
  }

  lemma {:induction false} LexSplit(a: Choice, b: Choice, n: nat)
    requires n < |a| && n < |b| && a[..n] == b[..n] && a[n] < b[n]
    ensures LexLess(a, b)
  {
    if n > 0 {
      assert a[0] == a[..n][0] && b[0] == b[..n][0];
      assert a[1..][..n - 1] == a[..n][1..] && b[1..][..n - 1] == b[..n][1..];
      LexSplit(a[1..], b[1..], n - 1);
    }
  }

  ghost predicate Increasing(s: seq<Choice>) {
    forall i, j | 0 <= i < j < |s| :: LexLess(s[i], s[j])
  }

  lemma IncreasingConcat(a: seq<Choice>, b: seq<Choice>, n: nat)
    requires Increasing(a) && Increasing(b)
    requires forall x, y | x in a && y in b :: n < |x| && n < |y| && x[..n] == y[..n] && x[n] < y[n]
    ensures Increasing(a + b)
  {
    forall i, j | 0 <= i < j < |a + b|
      ensures LexLess((a + b)[i], (a + b)[j])
    {
      if i < |a| <= j {
        LexSplit(a[i], b[j - |a|], n);
      }
    }
  }

  /** Assignments are explored in lexicographic order, hence each once. */
  lemma {:induction false} AllIncreasing(menu: Menu, spare: seq<nat>, prefix: Choice)
    requires InMenu(menu, prefix) && Affordable(menu, spare, prefix)
    ensures Increasing(All(menu, spare, prefix))
    decreases |menu| - |prefix|, 1, 0
  {
    if |prefix| < |menu| {
      FromIncreasing(menu, spare, prefix, 0);
    }
  }

  lemma {:induction false} FromIncreasing(menu: Menu, spare: seq<nat>, prefix: Choice, i: nat)
    requires InMenu(menu, prefix) && Affordable(menu, spare, prefix) && |prefix| < |menu| && i <= |menu[|prefix|]|
    ensures Increasing(From(menu, spare, prefix, i))
    decreases |menu| - |prefix|, 0, |menu[|prefix|]| - i
  {
    if i < |menu[|prefix|]| {
      FromIncreasing(menu, spare, prefix, i + 1);
      var next := prefix + [i];
      if Affordable(menu, spare, next) {
        AllIncreasing(menu, spare, next);
        BranchIncreases(menu, spare, prefix, i);
      } else {
        assert From(menu, spare, prefix, i) == From(menu, spare, prefix, i + 1);
      }
    }
  }

  lemma {:induction false} BranchIncreases(menu: Menu, spare: seq<nat>, prefix: Choice, i: nat)
    requires InMenu(menu, prefix) && Affordable(menu, spare, prefix) && |prefix| < |menu| && i < |menu[|prefix|]|
    requires InMenu(menu, prefix + [i]) && Affordable(menu, spare, prefix + [i])
    requires Increasing(All(menu, spare, prefix + [i])) && Increasing(From(menu, spare, prefix, i + 1))
    ensures Increasing(All(menu, spare, prefix + [i]) + From(menu, spare, prefix, i + 1))
  {
    BranchesApart(menu, spare, prefix, i);
    IncreasingConcat(All(menu, spare, prefix + [i]), From(menu, spare, prefix, i + 1), |prefix|);
  }

  /** Everything below one alternative precedes everything below the later ones. */
  lemma {:induction false} BranchesApart(menu: Menu, spare: seq<nat>, prefix: Choice, i: nat)
    requires InMenu(menu, prefix) && Affordable(menu, spare, prefix) && |prefix| < |menu| && i < |menu[|prefix|]|
    requires InMenu(menu, prefix + [i]) && Affordable(menu, spare, prefix + [i])
    ensures forall x, y | x in All(menu, spare, prefix + [i]) && y in From(menu, spare, prefix, i + 1) ::
              |prefix| < |x| && |prefix| < |y| && x[..|prefix|] == y[..|prefix|] && x[|prefix|] < y[|prefix|]
  {
    var next := prefix + [i];
    forall x, y | x in All(menu, spare, next) && y in From(menu, spare, prefix, i + 1)
      ensures |prefix| < |x| && |prefix| < |y| && x[..|prefix|] == y[..|prefix|] && x[|prefix|] < y[|prefix|]
    {
      AllExact(menu, spare, next, x);
      FromExact(menu, spare, prefix, i + 1, y);
      assert x[..|prefix|] == next[..|prefix|] == prefix;
      assert x[|prefix|] == next[|prefix|];
    }
  }

  // ----- the objective -----

  datatype Score = Score(totalCost: nat, conflicts: nat, maxPathCost: nat, headroom: nat)

  /** Cost, conflicts and largest path cost accumulated over the levels of a choice. */
  function Tally(menu: Menu, choice: Choice): Score
    requires InMenu(menu, choice)
  {
    if choice == [] then Score(0, 0, 0, COST_CEILING)
    else
      var l := |choice| - 1;
      var before := Tally(menu, choice[..l]);
      var s := menu[l][choice[l]];
      before.(totalCost := SatAdd(before.totalCost, s.totalCost), conflicts := before.conflicts + s.conflicts,
              maxPathCost := Max(before.maxPathCost, s.maxPathCost))
  }

  /** Smallest remaining capacity over the edges a table touches. */
  function Slack(u: seq<Use>, remaining: seq<nat>): nat
    requires forall k | 0 <= k < |u| :: u[k].edge < |remaining|
  {
    if u == [] then COST_CEILING else Min(Slack(u[..|u| - 1], remaining), remaining[u[|u| - 1].edge])
  }

  function SlackAll(menu: Menu, choice: Choice, remaining: seq<nat>): nat
    requires InMenu(menu, choice) && MenuOk(menu, |remaining|)
  {
    if choice == [] then COST_CEILING
    else
      var l := |choice| - 1;
      assert TableOk(menu[l][choice[l]].usage, |remaining|);
      Min(SlackAll(menu, choice[..l], remaining), Slack(menu[l][choice[l]].usage, remaining))
  }

  /** Capacity left after a choice. */
  ghost function Left(menu: Menu, spare: seq<nat>, choice: Choice): (left: seq<nat>)
    requires InMenu(menu, choice) && Affordable(menu, spare, choice)
    ensures |left| == |spare| && forall e | 0 <= e < |spare| :: left[e] == spare[e] - Committed(menu, choice, e)
  {
    seq(|spare|, e requires 0 <= e < |spare| => spare[e] - Committed(menu, choice, e))
  }

  ghost function ScoreOf(menu: Menu, spare: seq<nat>, choice: Choice): Score
    requires MenuOk(menu, |spare|) && Feasible(menu, spare, choice)
  {
    Tally(menu, choice).(headroom := SlackAll(menu, choice, Left(menu, spare, choice)))
  }

  /** global_better: strictly better at the first level that differs. */
  predicate Better(a: Score, b: Score) {
    if a.totalCost != b.totalCost then a.totalCost < b.totalCost
    else if a.conflicts != b.conflicts then a.conflicts < b.conflicts
    else if a.maxPathCost != b.maxPathCost then a.maxPathCost < b.maxPathCost
    else a.headroom > b.headroom
  }

  /** `best` is the first among the best of the listed assignments. */
  ghost predicate FirstBest(menu: Menu, spare: seq<nat>, list: seq<Choice>, best: Choice) {
    MenuOk(menu, |spare|) && (forall c | c in list :: Feasible(menu, spare, c)) &&
    exists k :: 0 <= k < |list| && list[k] == best
      && (forall j | 0 <= j < |list| :: !Better(ScoreOf(menu, spare, list[j]), ScoreOf(menu, spare, best)))
      && (forall j | 0 <= j < k :: Better(ScoreOf(menu, spare, best), ScoreOf(menu, spare, list[j])))
  }

  lemma FirstBestSnoc(menu: Menu, spare: seq<nat>, list: seq<Choice>, best: Choice, c: Choice)
    requires MenuOk(menu, |spare|) && Feasible(menu, spare, c) && FirstBest(menu, spare, list, best)
    ensures Better(ScoreOf(menu, spare, c), ScoreOf(menu, spare, best)) ==> FirstBest(menu, spare, list + [c], c)
    ensures !Better(ScoreOf(menu, spare, c), ScoreOf(menu, spare, best)) ==> FirstBest(menu, spare, list + [c], best)
  {
    var more := list + [c];
    var k :| 0 <= k < |list| && list[k] == best
             && (forall j | 0 <= j < |list| :: !Better(ScoreOf(menu, spare, list[j]), ScoreOf(menu, spare, best)))
             && (forall j | 0 <= j < k :: Better(ScoreOf(menu, spare, best), ScoreOf(menu, spare, list[j])));
    if Better(ScoreOf(menu, spare, c), ScoreOf(menu, spare, best)) {
      assert more[|list|] == c;
      forall j | 0 <= j < |list|
        ensures Better(ScoreOf(menu, spare, c), ScoreOf(menu, spare, more[j]))
      {
        assert !Better(ScoreOf(menu, spare, list[j]), ScoreOf(menu, spare, best));
      }
    } else {
      assert more[k] == best;
    }
  }
}
