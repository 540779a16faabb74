/** The exploration loop of src/planner.cpp:1549-1656. */
module GlobalSearch {
  import opened PathSets
  import opened GlobalAssignment
  import opened Finite

  // ----- capacity bookkeeping on the shared vector -----

  lemma {:induction false} AmountTake(u: seq<Use>, i: nat, x: nat)
    requires UsageOk(u) && i < |u|
    ensures Amount(u[..i + 1], x) == if u[i].edge == x then u[i].amount else Amount(u[..i], x)
  {
    if i > 0 && u[0].edge != x {
      assert u[..i + 1][1..] == u[1..][..i] && u[..i][1..] == u[1..][..i - 1];
      AmountTake(u[1..], i - 1, x);
    }
  }

  lemma {:induction false} AmountBeyond(u: seq<Use>, i: nat, x: nat)
    requires UsageOk(u) && i <= |u| && forall k | 0 <= k < i :: u[k].edge != x
    ensures Amount(u[..i], x) == 0
  {
    AmountAbsent(u[..i], x);
  }

  method Fits(u: seq<Use>, remaining: array<nat>) returns (ok: bool)
    requires TableOk(u, remaining.Length)
    ensures ok <==> forall e | 0 <= e < remaining.Length :: Amount(u, e) <= remaining[e]
  {
    for k := 0 to |u|
      invariant forall j | 0 <= j < k :: u[j].amount <= remaining[u[j].edge]
    {
      if u[k].amount > remaining[u[k].edge] {
        AmountAt(u, k);
        return false;
      }
    }
    forall e | 0 <= e < remaining.Length
      ensures Amount(u, e) <= remaining[e]
    {
      if k :| 0 <= k < |u| && u[k].edge == e {
        AmountAt(u, k);
      } else {
        AmountAbsent(u, e);
      }
    }
    return true;
  }

  method Apply(u: seq<Use>, remaining: array<nat>)
    requires TableOk(u, remaining.Length)
    requires forall e | 0 <= e < remaining.Length :: Amount(u, e) <= remaining[e]
    modifies remaining
    ensures forall e | 0 <= e < remaining.Length :: remaining[e] == old(remaining[e]) - Amount(u, e)
  {
    for k := 0 to |u|
      invariant forall e | 0 <= e < remaining.Length :: remaining[e] == old(remaining[e]) - Amount(u[..k], e)
    {
      var edge := u[k].edge;
      AmountAt(u, k);
      AmountBeyond(u, k, edge);
      forall e | 0 <= e < remaining.Length
        ensures Amount(u[..k + 1], e) == if edge == e then u[k].amount else Amount(u[..k], e)
      {
        AmountTake(u, k, e);
      }
      remaining[edge] := remaining[edge] - u[k].amount;
    }
    assert u[..|u|] == u;
  }

  method Unapply(u: seq<Use>, remaining: array<nat>)
    requires TableOk(u, remaining.Length)
    modifies remaining
    ensures forall e | 0 <= e < remaining.Length :: remaining[e] == old(remaining[e]) + Amount(u, e)
  {
    for k := 0 to |u|
      invariant forall e | 0 <= e < remaining.Length :: remaining[e] == old(remaining[e]) + Amount(u[..k], e)
    {
      var edge := u[k].edge;
      AmountBeyond(u, k, edge);
      forall e | 0 <= e < remaining.Length
        ensures Amount(u[..k + 1], e) == if edge == e then u[k].amount else Amount(u[..k], e)
      {
        AmountTake(u, k, e);
      }
      remaining[edge] := remaining[edge] + u[k].amount;
    }
    assert u[..|u|] == u;
  }

  // ----- position in the search tree -----

  /** Where the exploration stands: levels below `level` are applied, `started` levels resume after their choice. */
  datatype Position = Position(level: int, choice: Choice, started: seq<bool>)

  ghost predicate PosOk(menu: Menu, spare: seq<nat>, p: Position) {
    && |p.choice| == |p.started| == |menu| && -1 <= p.level <= |menu|
    && (forall l | 0 <= l < |menu| && l < p.level :: p.started[l])
    && (forall l | 0 <= l < |menu| && p.started[l] :: l <= p.level && p.choice[l] < |menu[l]|)
    && (p.level >= 0 ==> Affordable(menu, spare, Applied(menu, p)))
  }

  /** The choices currently applied. */
  ghost function Applied(menu: Menu, p: Position): (c: Choice)
    requires |p.choice| == |p.started| == |menu| && 0 <= p.level <= |menu|
    requires forall l | 0 <= l < |menu| && l < p.level :: p.started[l]
    requires forall l | 0 <= l < |menu| && p.started[l] :: l <= p.level && p.choice[l] < |menu[l]|
    ensures InMenu(menu, c) && |c| == p.level
  {
    p.choice[..p.level]
  }

  function Start(p: Position): nat
    requires 0 <= p.level < |p.choice| == |p.started|
  {
    if p.started[p.level] then p.choice[p.level] + 1 else 0
  }

  /** Assignments still to come after the current level is exhausted. */
  ghost function Pending(menu: Menu, spare: seq<nat>, c: Choice): seq<Choice>
    requires InMenu(menu, c)
  {
    if c == [] then []
    else var l := |c| - 1; From(menu, spare, c[..l], c[l] + 1) + Pending(menu, spare, c[..l])
  }

  ghost function PendingWork(menu: Menu, spare: seq<nat>, c: Choice): nat
    requires InMenu(menu, c)
  {
    if c == [] then 0
    else var l := |c| - 1; WorkFrom(menu, spare, c[..l], c[l] + 1) + PendingWork(menu, spare, c[..l])
  }

  ghost function Rest(menu: Menu, spare: seq<nat>, p: Position): seq<Choice>
    requires PosOk(menu, spare, p)
  {
    if p.level < 0 then []
    else if p.level == |menu| then [p.choice] + Pending(menu, spare, p.choice)
    else From(menu, spare, Applied(menu, p), Start(p)) + Pending(menu, spare, Applied(menu, p))
  }

  ghost function RestWork(menu: Menu, spare: seq<nat>, p: Position): nat
    requires PosOk(menu, spare, p)
  {
    if p.level < 0 then 0
    else if p.level == |menu| then PendingWork(menu, spare, p.choice)
    else WorkFrom(menu, spare, Applied(menu, p), Start(p)) + PendingWork(menu, spare, Applied(menu, p))
  }

  /** Stepping back from an exhausted or completed level resumes the level below it. */
  function Back(p: Position): Position
    requires 0 <= p.level <= |p.started|
  {
    Position(p.level - 1, p.choice, if p.level < |p.started| then p.started[p.level := false] else p.started)
  }

  lemma BackOk(menu: Menu, spare: seq<nat>, p: Position)
    requires PosOk(menu, spare, p) && 0 <= p.level
    ensures PosOk(menu, spare, Back(p))
  {
    var b := Back(p);
    if b.level >= 0 {
      assert Applied(menu, b) == Applied(menu, p)[..b.level];
      AffordablePrefix(menu, spare, Applied(menu, p), b.level);
    }
  }

  lemma {:induction false} BackRest(menu: Menu, spare: seq<nat>, p: Position)
    requires PosOk(menu, spare, p) && 0 <= p.level && PosOk(menu, spare, Back(p))
    ensures Rest(menu, spare, Back(p)) == Pending(menu, spare, Applied(menu, p))
    ensures RestWork(menu, spare, Back(p)) == PendingWork(menu, spare, Applied(menu, p))
  {
    var b := Back(p);
    if p.level > 0 {
      assert Applied(menu, b) == Applied(menu, p)[..p.level - 1];
      assert Start(b) == p.choice[p.level - 1] + 1;
    }
  }

  /** Taking alternative i at the current level descends one level. */
  function Down(p: Position, i: nat): Position
    requires 0 <= p.level < |p.choice| == |p.started|
  {
    Position(p.level + 1, p.choice[p.level := i], p.started[p.level := true])
  }

  lemma DownOk(menu: Menu, spare: seq<nat>, p: Position, i: nat)
    requires PosOk(menu, spare, p) && 0 <= p.level < |menu| && i < |menu[p.level]|
    requires InMenu(menu, Applied(menu, p) + [i]) && Affordable(menu, spare, Applied(menu, p) + [i])
    ensures PosOk(menu, spare, Down(p, i)) && Applied(menu, Down(p, i)) == Applied(menu, p) + [i]
  {
    var d := Down(p, i);
    assert d.choice[..d.level] == Applied(menu, p) + [i];
  }

  lemma {:induction false} PendingSnoc(menu: Menu, spare: seq<nat>, c: Choice, i: nat)
    requires InMenu(menu, c) && InMenu(menu, c + [i])
    ensures Pending(menu, spare, c + [i]) == From(menu, spare, c, i + 1) + Pending(menu, spare, c)
    ensures PendingWork(menu, spare, c + [i]) == WorkFrom(menu, spare, c, i + 1) + PendingWork(menu, spare, c)
  {
    assert (c + [i])[..|c|] == c;
  }

  lemma {:induction false} DownRest(menu: Menu, spare: seq<nat>, p: Position, i: nat)
    requires PosOk(menu, spare, p) && 0 <= p.level < |menu| && i < |menu[p.level]|
    requires InMenu(menu, Applied(menu, p) + [i])
    requires PosOk(menu, spare, Down(p, i)) && Applied(menu, Down(p, i)) == Applied(menu, p) + [i]
    ensures var c := Applied(menu, p);
            Rest(menu, spare, Down(p, i)) ==
              All(menu, spare, c + [i]) + (From(menu, spare, c, i + 1) + Pending(menu, spare, c))
    ensures var c := Applied(menu, p);
            RestWork(menu, spare, Down(p, i)) ==
              Work(menu, spare, c + [i]) + WorkFrom(menu, spare, c, i + 1) + PendingWork(menu, spare, c)
  {
    PendingSnoc(menu, spare, Applied(menu, p), i);
    var d := Down(p, i);
    if d.level == |menu| {
      assert d.choice == d.choice[..d.level];
    }
  }

  // ----- the loop -----

  /** The shared vector holds what the applied choices leave. */
  ghost predicate Holds(menu: Menu, spare: seq<nat>, c: Choice, remaining: seq<nat>)
    requires InMenu(menu, c)
  {
    |remaining| == |spare| && forall e | 0 <= e < |spare| :: remaining[e] + Committed(menu, c, e) == spare[e]
  }

  lemma FitsIsAffordable(menu: Menu, spare: seq<nat>, c: Choice, i: nat, remaining: seq<nat>)
    requires InMenu(menu, c) && |c| < |menu| && i < |menu[|c|]| && Holds(menu, spare, c, remaining)
    ensures InMenu(menu, c + [i])
    ensures (forall e | 0 <= e < |remaining| :: Amount(menu[|c|][i].usage, e) <= remaining[e]) <==>
            Affordable(menu, spare, c + [i])
  {
    assert InMenu(menu, c + [i]);
    forall e | 0 <= e < |spare|
      ensures Committed(menu, c + [i], e) == Committed(menu, c, e) + Amount(menu[|c|][i].usage, e)
    {
      CommittedSnoc(menu, c, i, e);
    }
  }

  lemma FromStep(menu: Menu, spare: seq<nat>, c: Choice, i: nat)
    requires InMenu(menu, c) && |c| < |menu| && i < |menu[|c|]| && InMenu(menu, c + [i])
    ensures Affordable(menu, spare, c + [i]) ==>
              From(menu, spare, c, i) == All(menu, spare, c + [i]) + From(menu, spare, c, i + 1)
    ensures Affordable(menu, spare, c + [i]) ==>
              WorkFrom(menu, spare, c, i) == 1 + Work(menu, spare, c + [i]) + WorkFrom(menu, spare, c, i + 1)
    ensures !Affordable(menu, spare, c + [i]) ==> From(menu, spare, c, i) == From(menu, spare, c, i + 1)
    ensures !Affordable(menu, spare, c + [i]) ==> WorkFrom(menu, spare, c, i) == 1 + WorkFrom(menu, spare, c, i + 1)
  {
  }

  /** Scans the alternatives of one level from `start` (src/planner.cpp:1604-1621). */
  method NextFit(menu: Menu, ghost spare: seq<nat>, ghost c: Choice, level: nat, start: nat, remaining: array<nat>,
                 nodes0: nat, budget: nat)
    returns (index: nat, nodes: nat, limited: bool)
    requires MenuOk(menu, remaining.Length) && InMenu(menu, c) && |c| == level < |menu| && start <= |menu[level]|
    requires Holds(menu, spare, c, remaining[..]) && nodes0 <= budget
    ensures start <= index <= |menu[level]| && nodes0 <= nodes <= budget
    ensures limited ==> nodes == budget && nodes < nodes0 + WorkFrom(menu, spare, c, start)
    ensures !limited && index < |menu[level]| ==>
              && InMenu(menu, c + [index]) && Affordable(menu, spare, c + [index])
              && From(menu, spare, c, start) == All(menu, spare, c + [index]) + From(menu, spare, c, index + 1)
              && nodes0 + WorkFrom(menu, spare, c, start) ==
                 nodes + Work(menu, spare, c + [index]) + WorkFrom(menu, spare, c, index + 1)
              && nodes > nodes0
    ensures !limited && index == |menu[level]| ==>
              From(menu, spare, c, start) == [] && nodes == nodes0 + WorkFrom(menu, spare, c, start)
  {
    index, nodes, limited := start, nodes0, false;
    while index < |menu[level]|
      invariant start <= index <= |menu[level]| && nodes0 <= nodes <= budget && !limited
      invariant From(menu, spare, c, start) == From(menu, spare, c, index)
      invariant nodes0 + WorkFrom(menu, spare, c, start) == nodes + WorkFrom(menu, spare, c, index)
    {
      if nodes >= budget {
        limited := true;
        return;
      }
      nodes := nodes + 1;
      assert TableOk(menu[level][index].usage, remaining.Length);
      var ok := Fits(menu[level][index].usage, remaining);
      FitsIsAffordable(menu, spare, c, index, remaining[..]);
      FromStep(menu, spare, c, index);
      if ok {
        return;
      }
      index := index + 1;
    }
  }

  datatype Best = NoBest | Best(choice: Choice, score: Score)

  /** The best candidate so far is the first best of the assignments visited so far. */
  ghost predicate BestOk(menu: Menu, spare: seq<nat>, visited: seq<Choice>, best: Best) {
    && MenuOk(menu, |spare|)
    && (best.NoBest? <==> visited == [])
    && (best.Best? ==> FirstBest(menu, spare, visited, best.choice) && Feasible(menu, spare, best.choice)
                       && best.score == ScoreOf(menu, spare, best.choice))
  }

  lemma BestSnoc(menu: Menu, spare: seq<nat>, visited: seq<Choice>, best: Best, c: Choice)
    requires MenuOk(menu, |spare|) && BestOk(menu, spare, visited, best) && Feasible(menu, spare, c)
    ensures best.NoBest? || Better(ScoreOf(menu, spare, c), best.score) ==>
              BestOk(menu, spare, visited + [c], Best(c, ScoreOf(menu, spare, c)))
    ensures best.Best? && !Better(ScoreOf(menu, spare, c), best.score) ==> BestOk(menu, spare, visited + [c], best)
  {
    if best.Best? {
      FirstBestSnoc(menu, spare, visited, best.choice, c);
    } else {
      assert ([c])[0] == c && visited + [c] == [c];
      assert FirstBest(menu, spare, [c], c);
    }
  }

  /** Undoes the choice of the level stepped back to. */
  method StepBack(menu: Menu, ghost spare: seq<nat>, p: Position, remaining: array<nat>) returns (b: Position)
    requires MenuOk(menu, remaining.Length) && PosOk(menu, spare, p) && 0 <= p.level
    requires Holds(menu, spare, Applied(menu, p), remaining[..])
    modifies remaining
    ensures b == Back(p) && PosOk(menu, spare, b)
    ensures b.level >= 0 ==> Holds(menu, spare, Applied(menu, b), remaining[..])
    ensures b.level < 0 ==> remaining[..] == spare
  {
    b := Back(p);
    BackOk(menu, spare, p);
    if b.level >= 0 {
      ghost var c := Applied(menu, b);
      assert Applied(menu, p) == c + [p.choice[b.level]];
      forall e | 0 <= e < |spare|
        ensures Committed(menu, Applied(menu, p), e) ==
                Committed(menu, c, e) + Amount(menu[b.level][p.choice[b.level]].usage, e)
      {
        CommittedSnoc(menu, c, p.choice[b.level], e);
      }
      assert TableOk(menu[b.level][p.choice[b.level]].usage, remaining.Length);
      Unapply(menu[b.level][p.choice[b.level]].usage, remaining);
    } else {
      assert Applied(menu, p) == [];
    }
  }

  /** A completed assignment: score it, keep it if strictly better, step back (src/planner.cpp:1577-1601). */
  method Record(menu: Menu, ghost spare: seq<nat>, p: Position, remaining: array<nat>, best0: Best,
      ghost visited: seq<Choice>)
    returns (best: Best)
    requires MenuOk(menu, remaining.Length) && PosOk(menu, spare, p) && p.level == |menu|
    requires Holds(menu, spare, Applied(menu, p), remaining[..]) && BestOk(menu, spare, visited, best0)
    ensures BestOk(menu, spare, visited + [p.choice], best)
  {
    assert p.choice == Applied(menu, p);
    assert remaining[..] == Left(menu, spare, p.choice);
    var score := Tally(menu, p.choice).(headroom := SlackAll(menu, p.choice, remaining[..]));
    assert score == ScoreOf(menu, spare, p.choice);
    BestSnoc(menu, spare, visited, best0, p.choice);
    best := if best0.NoBest? || Better(score, best0.score) then Best(p.choice, score) else best0;
  }

  /** The shared vector agrees with the position: what the applied levels leave, or the start once finished. */
  ghost predicate Held(menu: Menu, spare: seq<nat>, p: Position, remaining: seq<nat>)
    requires PosOk(menu, spare, p)
  {
    if p.level >= 0 then Holds(menu, spare, Applied(menu, p), remaining) else remaining == spare
  }

  /** What was visited and what is still to come make up the whole tree, and so does the work. */
  ghost predicate Tracks(menu: Menu, spare: seq<nat>, p: Position, visited: seq<Choice>, nodes: nat)
    requires PosOk(menu, spare, p)
  {
    && visited + Rest(menu, spare, p) == All(menu, spare, [])
    && nodes + RestWork(menu, spare, p) == Work(menu, spare, [])
  }

  lemma {:induction false} TrackDown(menu: Menu, spare: seq<nat>, p: Position, visited: seq<Choice>, nodes0: nat,
      i: nat, nodes: nat)
    requires PosOk(menu, spare, p) && 0 <= p.level < |menu| && i < |menu[p.level]|
             && Tracks(menu, spare, p, visited, nodes0)
    requires InMenu(menu, Applied(menu, p) + [i]) && Affordable(menu, spare, Applied(menu, p) + [i])
    requires Start(p) <= |menu[p.level]|
    requires var c := Applied(menu, p);
             From(menu, spare, c, Start(p)) == All(menu, spare, c + [i]) + From(menu, spare, c, i + 1) &&
             nodes0 + WorkFrom(menu, spare, c, Start(p)) ==
               nodes + Work(menu, spare, c + [i]) + WorkFrom(menu, spare, c, i + 1)
    ensures PosOk(menu, spare, Down(p, i)) && Tracks(menu, spare, Down(p, i), visited, nodes)
  {
    var c := Applied(menu, p);
    DownOk(menu, spare, p, i);
    DownRest(menu, spare, p, i);
    Assoc(All(menu, spare, c + [i]), From(menu, spare, c, i + 1), Pending(menu, spare, c));
  }

  lemma {:induction false} TrackBack(menu: Menu, spare: seq<nat>, p: Position, visited: seq<Choice>, nodes0: nat,
      nodes: nat)
    requires PosOk(menu, spare, p) && 0 <= p.level < |menu| && Tracks(menu, spare, p, visited, nodes0)
    requires From(menu, spare, Applied(menu, p), Start(p)) == []
    requires nodes == nodes0 + WorkFrom(menu, spare, Applied(menu, p), Start(p))
    requires PosOk(menu, spare, Back(p))
    ensures Tracks(menu, spare, Back(p), visited, nodes)
  {
    BackRest(menu, spare, p);
    assert Rest(menu, spare, p) == Rest(menu, spare, Back(p));
  }

  lemma TrackLeaf(menu: Menu, spare: seq<nat>, p: Position, visited: seq<Choice>, nodes: nat)
    requires PosOk(menu, spare, p) && p.level == |menu| > 0 && Tracks(menu, spare, p, visited, nodes)
    requires PosOk(menu, spare, Back(p))
    ensures Tracks(menu, spare, Back(p), visited + [p.choice], nodes)
  {
    BackRest(menu, spare, p);
    assert p.choice == Applied(menu, p);
    Assoc(visited, [p.choice], Rest(menu, spare, Back(p)));
  }

  /** Applies alternative i of the current level. */
  method StepDown(menu: Menu, ghost spare: seq<nat>, p: Position, i: nat, remaining: array<nat>) returns (d: Position)
    requires MenuOk(menu, remaining.Length) && PosOk(menu, spare, p) && 0 <= p.level < |menu| && i < |menu[p.level]|
    requires Holds(menu, spare, Applied(menu, p), remaining[..])
    requires InMenu(menu, Applied(menu, p) + [i]) && Affordable(menu, spare, Applied(menu, p) + [i])
    modifies remaining
    ensures d == Down(p, i) && PosOk(menu, spare, d) && Held(menu, spare, d, remaining[..])
  {
    ghost var c := Applied(menu, p);
    var u := menu[p.level][i].usage;
    assert TableOk(u, remaining.Length);
    FitsIsAffordable(menu, spare, c, i, remaining[..]);
    forall e | 0 <= e < |spare|
      ensures Committed(menu, c + [i], e) == Committed(menu, c, e) + Amount(u, e)
    {
      CommittedSnoc(menu, c, i, e);
    }
    Apply(u, remaining);
    d := Down(p, i);
    DownOk(menu, spare, p, i);
  }

  /** One turn at a level that is not complete (src/planner.cpp:1602-1634). */
  method Turn(menu: Menu, ghost spare: seq<nat>, p: Position, remaining: array<nat>, ghost visited: seq<Choice>,
              nodes0: nat, budget: nat)
    returns (p': Position, nodes: nat, limited: bool)
    requires MenuOk(menu, remaining.Length) && PosOk(menu, spare, p) && 0 <= p.level < |menu| && nodes0 <= budget
    requires Holds(menu, spare, Applied(menu, p), remaining[..]) && Tracks(menu, spare, p, visited, nodes0)
    modifies remaining
    ensures nodes0 <= nodes <= budget
    ensures limited ==> budget < Work(menu, spare, [])
    ensures !limited ==> PosOk(menu, spare, p') && Held(menu, spare, p', remaining[..])
    ensures !limited ==> Tracks(menu, spare, p', visited, nodes) && (nodes > nodes0 || p'.level < p.level)
  {
    var level: nat := p.level;
    var index;
    index, nodes, limited := NextFit(menu, spare, Applied(menu, p), level, Start(p), remaining, nodes0, budget);
    p' := p;
    if limited {
      return;
    }
    if index < |menu[level]| {
      TrackDown(menu, spare, p, visited, nodes0, index, nodes);
      p' := StepDown(menu, spare, p, index, remaining);
    } else {
      p' := StepBack(menu, spare, p, remaining);
      TrackBack(menu, spare, p, visited, nodes0, nodes);
    }
  }

  /**
    Unless the budget is smaller than the number of alternatives in the pruned tree, every feasible assignment is
    visited once, in lexicographic order, the first best is returned and the capacity vector is restored. The loop
    terminates without reference to the budget.
   */
  method Explore(menu: Menu, remaining: array<nat>, budget: nat) returns (best: Best, nodes: nat, limited: bool)
    requires |menu| > 0 && MenuOk(menu, remaining.Length)
    modifies remaining
    ensures limited <==> budget < Work(menu, old(remaining[..]), [])
    ensures nodes <= budget && (!limited ==> nodes == Work(menu, old(remaining[..]), []))
    ensures !limited ==> remaining[..] == old(remaining[..])
    ensures !limited ==> BestOk(menu, old(remaining[..]), All(menu, old(remaining[..]), []), best)
    ensures best.Best? ==> Feasible(menu, old(remaining[..]), best.choice)
                           && best.score == ScoreOf(menu, old(remaining[..]), best.choice)
  {
    ghost var spare := remaining[..];
    var p := Position(0, seq(|menu|, _ => 0), seq(|menu|, _ => false));
    best, nodes, limited := NoBest, 0, false;
    ghost var visited: seq<Choice> := [];
    InitialPosition(menu, spare);
    while p.level >= 0
      invariant PosOk(menu, spare, p) && Held(menu, spare, p, remaining[..]) && nodes <= budget
      invariant Tracks(menu, spare, p, visited, nodes) && BestOk(menu, spare, visited, best)
      decreases Work(menu, spare, []) - nodes, p.level
    {
      if p.level == |menu| {
        best := Record(menu, spare, p, remaining, best, visited);
        ghost var before := p;
        p := StepBack(menu, spare, p, remaining);
        TrackLeaf(menu, spare, before, visited, nodes);
        visited := visited + [before.choice];
      } else {
        p, nodes, limited := Turn(menu, spare, p, remaining, visited, nodes, budget);
        if limited {
          return;
        }
      }
    }
    assert visited == All(menu, spare, []);
  }

  lemma InitialPosition(menu: Menu, spare: seq<nat>)
    requires |menu| > 0
    ensures var p := Position(0, seq(|menu|, _ => 0), seq(|menu|, _ => false));
            PosOk(menu, spare, p) && Held(menu, spare, p, spare) && Tracks(menu, spare, p, [], 0)
  {
    var p := Position(0, seq(|menu|, _ => 0), seq(|menu|, _ => false));
    assert Applied(menu, p) == [];
  }
}
