/** Iterative-deepening enumeration of simple paths (src/planner.cpp:412-512). */
module EnumeratePaths {
  import opened Saturating
  import opened Paths
  import opened ShortestPath
  import opened Finite

  /**
    What one depth-limited sweep records when nothing stops it: the extensions of `prefix`, which ends at `node`,
    by exactly `remaining` further hops, in the order the edges are scanned.
   */
  ghost function Sweep(q: Query, prefix: Path, node: nat, remaining: nat, visited: set<nat>): seq<Path>
    requires q.Valid() && q.InRange(prefix)
    decreases remaining, 2, 0
  {
    if remaining == 0 then [] else SweepArcs(q, prefix, q.Out(node), remaining, visited)
  }

  ghost function SweepArcs(q: Query, prefix: Path, out: seq<nat>, remaining: nat, visited: set<nat>): seq<Path>
    requires q.Valid() && q.InRange(prefix) && q.InRange(out) && remaining > 0
    decreases remaining, 1, |out|
  {
    if out == [] then []
    else Branch(q, prefix, out[0], remaining, visited) + SweepArcs(q, prefix, out[1..], remaining, visited)
  }

  /** The paths recorded below one outgoing edge. */
  ghost function Branch(q: Query, prefix: Path, e: nat, remaining: nat, visited: set<nat>): seq<Path>
    requires q.Valid() && q.InRange(prefix) && e < |q.arcs| && remaining > 0
    decreases remaining, 0, 0
  {
    var next := q.arcs[e].to;
    if !Enters(q, prefix, e, visited) then []
    else if next == q.target then (if remaining == 1 then [prefix + [e]] else [])
    else Sweep(q, prefix + [e], next, remaining - 1, visited + {next})
  }

  /** The filters applied before an edge is followed. */
  ghost predicate Enters(q: Query, prefix: Path, e: nat, visited: set<nat>)
    requires q.Valid() && q.InRange(prefix) && e < |q.arcs|
  {
    e in q.usable && q.arcs[e].to !in visited && SatAdd(q.Cost(prefix), q.arcs[e].cost) <= q.maxCost
  }

  /** Independent description of the extensions a sweep must find. */
  ghost predicate Extension(q: Query, prefix: Path, node: nat, remaining: nat, visited: set<nat>, p: Path)
    requires q.Valid() && q.InRange(prefix)
  {
    && |p| == |prefix| + remaining && p[..|prefix|] == prefix
    && Tail(q, node, visited, p[|prefix|..])
    && q.Cost(p) <= q.maxCost
  }

  /** A simple walk from node to the target that avoids every visited node after its start. */
  ghost predicate Tail(q: Query, node: nat, visited: set<nat>, s: Path)
    requires q.Valid()
  {
    && q.Walk(node, s, q.target) && q.Simple(node, s)
    && forall i | 1 <= i <= |s| :: q.NodeAt(node, s, i) !in visited
  }

  lemma TailCons(q: Query, node: nat, visited: set<nat>, s: Path)
    requires q.Valid() && node in visited && s != [] && s[0] < |q.arcs|
    ensures Tail(q, node, visited, s) <==>
            s[0] in q.usable && q.arcs[s[0]].from == node && q.arcs[s[0]].to !in visited &&
            Tail(q, q.arcs[s[0]].to, visited + {q.arcs[s[0]].to}, s[1..])
  {
    var next := q.arcs[s[0]].to;
    if Tail(q, node, visited, s) {
      TailDrop(q, node, visited, s);
    }
    if s[0] in q.usable && q.arcs[s[0]].from == node && next !in visited && Tail(q, next, visited + {next}, s[1..]) {
      TailPush(q, node, visited, s[0], s[1..]);
      assert [s[0]] + s[1..] == s;
    }
  }

  lemma TailDrop(q: Query, node: nat, visited: set<nat>, s: Path)
    requires q.Valid() && s != [] && Tail(q, node, visited, s)
    ensures s[0] in q.usable && q.arcs[s[0]].from == node && q.arcs[s[0]].to !in visited
    ensures Tail(q, q.arcs[s[0]].to, visited + {q.arcs[s[0]].to}, s[1..])
  {
    var next := q.arcs[s[0]].to;
    assert q.arcs[s[0]].from == q.NodeAt(node, s, 0);
    assert q.NodeAt(node, s, 1) == next;
    WalkSuffix(q, node, s, q.target, 1);
    forall i, j | 0 <= i < j <= |s| - 1
      ensures q.NodeAt(next, s[1..], i) != q.NodeAt(next, s[1..], j)
    {
      assert q.NodeAt(node, s, 1 + i) != q.NodeAt(node, s, 1 + j);
    }
    forall i | 1 <= i <= |s| - 1
      ensures q.NodeAt(next, s[1..], i) !in visited + {next}
    {
      assert q.NodeAt(node, s, 1) != q.NodeAt(node, s, 1 + i);
    }
  }

  lemma TailPush(q: Query, node: nat, visited: set<nat>, e: nat, s: Path)
    requires q.Valid() && node in visited && e in q.usable && q.arcs[e].from == node && q.arcs[e].to !in visited
    requires Tail(q, q.arcs[e].to, visited + {q.arcs[e].to}, s)
    ensures Tail(q, node, visited, [e] + s)
  {
    var next := q.arcs[e].to;
    WalkConcat(q, node, [e], next, s, q.target);
    forall i | 1 <= i <= |s| + 1
      ensures q.NodeAt(node, [e] + s, i) == q.NodeAt(next, s, i - 1)
      ensures q.NodeAt(node, [e] + s, i) !in visited
    {
      NodeAtConcat(q, node, [e], s, i);
    }
    forall i, j | 0 <= i < j <= |s| + 1
      ensures q.NodeAt(node, [e] + s, i) != q.NodeAt(node, [e] + s, j)
    {
      if i > 0 {
        assert q.NodeAt(next, s, i - 1) != q.NodeAt(next, s, j - 1);
      }
    }
  }

  lemma ExtensionCons(q: Query, prefix: Path, node: nat, remaining: nat, visited: set<nat>, p: Path, e: nat)
    requires q.Valid() && q.InRange(prefix) && node in visited && remaining > 0
    requires e < |q.arcs| && q.arcs[e].from == node
    ensures Extension(q, prefix, node, remaining, visited, p) && p[|prefix|] == e <==>
            Enters(q, prefix, e, visited) && q.InRange(prefix + [e]) &&
            Extension(q, prefix + [e], q.arcs[e].to, remaining - 1, visited + {q.arcs[e].to}, p)
  {
    var n := |prefix|;
    if |p| == n + remaining && p[..n] == prefix && p[n] == e {
      assert p[..n + 1] == prefix + [e];
      assert p[n..][1..] == p[n + 1..];
      TailCons(q, node, visited, p[n..]);
      CostSnoc(q, prefix, e);
      if q.InRange(p) {
        assert p == (prefix + [e]) + p[n + 1..];
        CostOfPrefix(q, prefix + [e], p[n + 1..]);
      }
    }
    if |p| == n + remaining && p[..n + 1] == prefix + [e] {
      assert p[..n] == (prefix + [e])[..n] == prefix;
      assert p[n] == (prefix + [e])[n];
    }
  }

  lemma {:induction false} SweepArcsMember(q: Query, prefix: Path, out: seq<nat>, remaining: nat, visited: set<nat>,
      p: Path)
    requires q.Valid() && q.InRange(prefix) && q.InRange(out) && remaining > 0
    ensures p in SweepArcs(q, prefix, out, remaining, visited) <==>
            exists k :: 0 <= k < |out| && p in Branch(q, prefix, out[k], remaining, visited)
    decreases |out|
  {
    if out != [] {
      SweepArcsMember(q, prefix, out[1..], remaining, visited, p);
      if p in SweepArcs(q, prefix, out[1..], remaining, visited) {
        var k :| 0 <= k < |out[1..]| && p in Branch(q, prefix, out[1..][k], remaining, visited);
        assert p in Branch(q, prefix, out[k + 1], remaining, visited);
      }
      if k :| 0 <= k < |out| && p in Branch(q, prefix, out[k], remaining, visited) {
        if k > 0 {
          assert p in Branch(q, prefix, out[1..][k - 1], remaining, visited);
        }
      }
    }
  }

  /** A completed sweep finds exactly the extensions: nothing is missed and nothing else is recorded. */
  lemma {:induction false} SweepExact(q: Query, prefix: Path, node: nat, remaining: nat, visited: set<nat>, p: Path)
    requires q.Valid() && q.InRange(prefix) && node in visited && node != q.target
    ensures p in Sweep(q, prefix, node, remaining, visited) <==> Extension(q, prefix, node, remaining, visited, p)
    decreases remaining, 1
  {
    if remaining > 0 {
      var out := q.Out(node);
      SweepArcsMember(q, prefix, out, remaining, visited, p);
      forall k | 0 <= k < |out|
        ensures p in Branch(q, prefix, out[k], remaining, visited) <==>
                Extension(q, prefix, node, remaining, visited, p) && p[|prefix|] == out[k]
      {
        BranchExact(q, prefix, node, out[k], remaining, visited, p);
      }
      if Extension(q, prefix, node, remaining, visited, p) {
        var s := p[|prefix|..];
        assert s[0] in q.usable && q.arcs[s[0]].from == q.NodeAt(node, s, 0);
        OutComplete(q, node, 0, p[|prefix|]);
      }
    }
  }

  lemma {:induction false} BranchExact(q: Query, prefix: Path, node: nat, e: nat, remaining: nat, visited: set<nat>,
      p: Path)
    requires q.Valid() && q.InRange(prefix) && node in visited && remaining > 0
    requires e < |q.arcs| && q.arcs[e].from == node
    ensures p in Branch(q, prefix, e, remaining, visited) <==>
            Extension(q, prefix, node, remaining, visited, p) && p[|prefix|] == e
    decreases remaining, 0
  {
    var next := q.arcs[e].to;
    ExtensionCons(q, prefix, node, remaining, visited, p, e);
    if Enters(q, prefix, e, visited) {
      assert q.InRange(prefix + [e]);
      if next == q.target {
        AtTarget(q, prefix + [e], remaining - 1, visited + {next}, p);
        CostSnoc(q, prefix, e);
      } else {
        SweepExact(q, prefix + [e], next, remaining - 1, visited + {next}, p);
      }
    }
  }

  /** Once at the target only the empty extension is simple: a path never passes through its own endpoint. */
  lemma {:induction false} AtTarget(q: Query, prefix: Path, remaining: nat, visited: set<nat>, p: Path)
    requires q.Valid() && q.InRange(prefix)
    ensures Extension(q, prefix, q.target, remaining, visited, p) <==>
            remaining == 0 && p == prefix && q.Cost(p) <= q.maxCost
  {
    var s := if |p| >= |prefix| then p[|prefix|..] else [];
    if remaining == 0 && p == prefix {
      assert s == [];
    }
    if Extension(q, prefix, q.target, remaining, visited, p) {
      assert p == p[..|prefix|] + s;
      assert q.NodeAt(q.target, s, 0) == q.target;
    }
  }

  lemma DistinctConcat(a: seq<Path>, b: seq<Path>)
    requires Injective(a) && Injective(b)
    requires forall p | p in a :: p !in b
    ensures Injective(a + b)
  {
    forall i, j | 0 <= i < j < |a + b|
      ensures (a + b)[i] != (a + b)[j]
    {
      if i < |a| <= j {
        assert a[i] in a && b[j - |a|] in b;
      }
    }
  }

  /** No path is recorded twice. */
  lemma {:induction false} SweepDistinct(q: Query, prefix: Path, node: nat, remaining: nat, visited: set<nat>)
    requires q.Valid() && q.InRange(prefix) && node in visited
    ensures Injective(Sweep(q, prefix, node, remaining, visited))
    decreases remaining, 1, 0
  {
    if remaining > 0 {
      OutIncreasing(q, node, 0);
      SweepArcsDistinct(q, prefix, node, q.Out(node), remaining, visited);
    }
  }

  lemma {:induction false} SweepArcsDistinct(q: Query, prefix: Path, node: nat, out: seq<nat>, remaining: nat,
      visited: set<nat>)
    requires q.Valid() && q.InRange(prefix) && node in visited && remaining > 0
    requires q.InRange(out) && forall k | 0 <= k < |out| :: q.arcs[out[k]].from == node
    requires forall k, l | 0 <= k < l < |out| :: out[k] < out[l]
    ensures Injective(SweepArcs(q, prefix, out, remaining, visited))
    decreases remaining, 0, |out|
  {
    if out != [] {
      var first := Branch(q, prefix, out[0], remaining, visited);
      var rest := SweepArcs(q, prefix, out[1..], remaining, visited);
      var next := q.arcs[out[0]].to;
      if Enters(q, prefix, out[0], visited) && next != q.target {
        SweepDistinct(q, prefix + [out[0]], next, remaining - 1, visited + {next});
      }
      SweepArcsDistinct(q, prefix, node, out[1..], remaining, visited);
      forall p | p in first
        ensures p !in rest
      {
        SweepArcsMember(q, prefix, out[1..], remaining, visited, p);
        BranchExact(q, prefix, node, out[0], remaining, visited, p);
        forall k | 0 <= k < |out[1..]|
          ensures p !in Branch(q, prefix, out[1..][k], remaining, visited)
        {
          BranchExact(q, prefix, node, out[1..][k], remaining, visited, p);
        }
      }
      DistinctConcat(first, rest);
    }
  }

  /** The completed sweeps of depth 1..depth, in order. */
  ghost function Deepening(q: Query, depth: nat): seq<Path>
    requires q.Valid()
  {
    if depth == 0 then [] else Deepening(q, depth - 1) + Sweep(q, [], q.source, depth, {q.source})
  }

  lemma {:induction false} DeepeningExact(q: Query, depth: nat, p: Path)
    requires q.Valid() && q.source != q.target
    ensures p in Deepening(q, depth) <==>
            q.Walk(q.source, p, q.target) && q.Simple(q.source, p) && q.Cost(p) <= q.maxCost && |p| <= depth
  {
    if depth > 0 {
      DeepeningExact(q, depth - 1, p);
      SweepExact(q, [], q.source, depth, {q.source}, p);
      assert p[0..] == p;
      if q.Walk(q.source, p, q.target) && q.Simple(q.source, p) {
        forall i | 1 <= i <= |p|
          ensures q.NodeAt(q.source, p, i) !in {q.source}
        {
          assert q.NodeAt(q.source, p, 0) != q.NodeAt(q.source, p, i);
        }
      }
    }
  }

  lemma {:induction false} DeepeningDistinct(q: Query, depth: nat)
    requires q.Valid() && q.source != q.target
    ensures Injective(Deepening(q, depth))
  {
    if depth > 0 {
      DeepeningDistinct(q, depth - 1);
      SweepDistinct(q, [], q.source, depth, {q.source});
      forall p | p in Deepening(q, depth - 1)
        ensures p !in Sweep(q, [], q.source, depth, {q.source})
      {
        DeepeningExact(q, depth - 1, p);
        SweepExact(q, [], q.source, depth, {q.source}, p);
      }
      DistinctConcat(Deepening(q, depth - 1), Sweep(q, [], q.source, depth, {q.source}));
    }
  }

  /** A simple path has fewer hops than there are nodes, so deepening past the node count finds nothing. */
  lemma SimpleIsShort(q: Query, p: Path)
    requires q.Valid() && q.Walk(q.source, p, q.target) && q.Simple(q.source, p)
    ensures |p| < q.nodeCount
  {
    DistinctBelow(seq(|p| + 1, i requires 0 <= i <= |p| => q.NodeAt(q.source, p, i)), q.nodeCount);
  }

  // ----- how much work an enumeration takes -----

  /** Edges scanned by one sweep that nothing stops. */
  ghost function SweepScans(q: Query, prefix: Path, node: nat, remaining: nat, visited: set<nat>): nat
    requires q.Valid() && q.InRange(prefix)
    decreases remaining, 2, 0
  {
    if remaining == 0 then 0 else ArcScans(q, prefix, q.Out(node), remaining, visited)
  }

  ghost function ArcScans(q: Query, prefix: Path, out: seq<nat>, remaining: nat, visited: set<nat>): nat
    requires q.Valid() && q.InRange(prefix) && q.InRange(out) && remaining > 0
    decreases remaining, 1, |out|
  {
    if out == [] then 0
    else BranchScans(q, prefix, out[0], remaining, visited) + ArcScans(q, prefix, out[1..], remaining, visited)
  }

  /** One scan for the edge itself, and those below it when it is followed. */
  ghost function BranchScans(q: Query, prefix: Path, e: nat, remaining: nat, visited: set<nat>): nat
    requires q.Valid() && q.InRange(prefix) && e < |q.arcs| && remaining > 0
    decreases remaining, 0, 0
  {
    var next := q.arcs[e].to;
    if !Enters(q, prefix, e, visited) || next == q.target then 1
    else 1 + SweepScans(q, prefix + [e], next, remaining - 1, visited + {next})
  }

  /** Edges scanned by all sweeps up to a depth. */
  ghost function Scans(q: Query, depth: nat): nat
    requires q.Valid()
  {
    if depth == 0 then 0 else Scans(q, depth - 1) + SweepScans(q, [], q.source, depth, {q.source})
  }

  /** The depth at which the enumeration ends. */
  function Deepest(q: Query): nat {
    Min(q.hopLimit, q.nodeCount)
  }

  /**
    The whole enumeration stays under its bounds, `left` scans being left of the budget of the request. Without hops
    there is nothing to enumerate.
   */
  ghost predicate Enumerable(q: Query, maxPaths: nat, maxSteps: nat, left: int)
    requires q.Valid()
  {
    Deepest(q) == 0 ||
    (Scans(q, Deepest(q)) < maxSteps && Scans(q, Deepest(q)) < left && |Deepening(q, Deepest(q))| <= maxPaths)
  }

  lemma {:induction false} DeepeningGrows(q: Query, n: nat, m: nat)
    requires q.Valid() && n <= m
    ensures Scans(q, n) <= Scans(q, m) && |Deepening(q, n)| <= |Deepening(q, m)|
  {
    if n < m {
      DeepeningGrows(q, n, m - 1);
    }
  }

  // ----- bounds on that work that need no enumeration -----

  /** Steps of one sweep in a fabric of the given number of edges. */
  function StepBound(edges: nat, remaining: nat): nat {
    if remaining == 0 then 0 else Visits(edges, StepBound(edges, remaining - 1))
  }

  /** Steps of all sweeps up to a depth. */
  function DepthBound(edges: nat, depth: nat): nat {
    if depth == 0 then 0 else DepthBound(edges, depth - 1) + StepBound(edges, depth)
  }

  /** A bound on the whole enumeration that depends only on the size of the question. */
  function RunBound(q: Query): nat {
    DepthBound(|q.arcs|, Deepest(q))
  }

  /** A sweep records no more paths than it scans edges, and scans no more than the bound. */
  lemma {:induction false} SweepBounded(q: Query, prefix: Path, node: nat, remaining: nat, visited: set<nat>)
    requires q.Valid() && q.InRange(prefix)
    ensures |Sweep(q, prefix, node, remaining, visited)| <= SweepScans(q, prefix, node, remaining, visited)
    ensures SweepScans(q, prefix, node, remaining, visited) <= StepBound(|q.arcs|, remaining)
    decreases remaining, 1, 0
  {
    if remaining > 0 {
      ArcsBounded(q, prefix, q.Out(node), remaining, visited);
      VisitsGrow(|q.Out(node)|, |q.arcs|, StepBound(|q.arcs|, remaining - 1), StepBound(|q.arcs|, remaining - 1));
    }
  }

  lemma {:induction false} ArcsBounded(q: Query, prefix: Path, out: seq<nat>, remaining: nat, visited: set<nat>)
    requires q.Valid() && q.InRange(prefix) && q.InRange(out) && remaining > 0
    ensures |SweepArcs(q, prefix, out, remaining, visited)| <= ArcScans(q, prefix, out, remaining, visited)
    ensures ArcScans(q, prefix, out, remaining, visited) <= Visits(|out|, StepBound(|q.arcs|, remaining - 1))
    decreases remaining, 0, |out|
  {
    if out != [] {
      var next := q.arcs[out[0]].to;
      if Enters(q, prefix, out[0], visited) && next != q.target {
        SweepBounded(q, prefix + [out[0]], next, remaining - 1, visited + {next});
      }
      ArcsBounded(q, prefix, out[1..], remaining, visited);
    }
  }

  lemma {:induction false} ScansBounded(q: Query, depth: nat)
    requires q.Valid()
    ensures |Deepening(q, depth)| <= Scans(q, depth) <= DepthBound(|q.arcs|, depth)
  {
    if depth > 0 {
      ScansBounded(q, depth - 1);
      SweepBounded(q, [], q.source, depth, {q.source});
    }
  }

  /** Bounds above the worst case are never reached. */
  lemma EnumerableWithin(q: Query, maxPaths: nat, maxSteps: nat, left: int)
    requires q.Valid() && RunBound(q) < maxSteps && RunBound(q) < left && RunBound(q) <= maxPaths
    ensures Enumerable(q, maxPaths, maxSteps, left)
  {
    ScansBounded(q, Deepest(q));
  }

  /** Counters before and after: both count the same scans, no more than all of them, and all unless stopped. */
  ghost predicate Paced(steps: nat, spent: nat, steps': nat, spent': nat, scans: nat, complete: bool) {
    steps <= steps' <= steps + scans && spent' - spent == steps' - steps && (complete ==> steps' == steps + scans)
  }

  /** The output record of the enumeration (src/planner.cpp:420-425) with its two scratch vectors. */
  class Enumeration {
    var paths: seq<Path>
    var steps: nat
    var stepLimited: bool
    var exhaustive: bool
    var visited: seq<bool>
    var current: Path

    constructor ()
      ensures paths == [] && steps == 0 && !stepLimited && !exhaustive
    {
      paths, steps, stepLimited, exhaustive := [], 0, false, false;
      visited, current := [], [];
    }

    /** One of the declared bounds has been reached; all of them only ever grow towards their limit. */
    ghost predicate Stopped(st: SearchBudget, maxPaths: nat, maxSteps: nat)
      reads this`steps, this`paths, st`enumerationSteps
    {
      steps >= maxSteps || |paths| > maxPaths || st.enumerationSteps >= st.enumerationBudget
    }

    /** The body of the scan for one outgoing edge, after the bound checks (src/planner.cpp:451-484). */
    method FollowEdge(st: SearchBudget, q: Query, node: nat, e: nat, remaining: nat, cost: nat, maxPaths: nat,
        maxSteps: nat)
      requires q.Valid() && q.InRange(current) && |visited| == q.nodeCount && node < q.nodeCount && remaining > 0
      requires e < |q.arcs| && q.arcs[e].from == node && cost == q.Cost(current)
      modifies this`paths, this`steps, this`stepLimited, this`visited, this`current
      modifies st`enumerationSteps, st`enumerationExhausted
      ensures visited == old(visited) && current == old(current)
      ensures Grown(old(paths), Branch(q, current, e, remaining, Marked(visited)), paths,
              !Stopped(st, maxPaths, maxSteps))
      ensures stepLimited ==> old(stepLimited) || st.enumerationSteps >= st.enumerationBudget
      ensures Paced(old(steps), old(st.enumerationSteps), steps, st.enumerationSteps,
                    BranchScans(q, current, e, remaining, Marked(visited)), !Stopped(st, maxPaths, maxSteps))
      decreases remaining, 0, 1
    {
      st.enumerationSteps := st.enumerationSteps + 1;
      steps := steps + 1;
      var next := q.arcs[e].to;
      var nextCost := SatAdd(cost, q.arcs[e].cost);
      if next == node || e !in q.usable || visited[next] || nextCost > q.maxCost {
        return;
      }
      CostSnoc(q, current, e);
      if next == q.target {
        if remaining == 1 {
          paths := paths + [current + [e]];
        }
        return;
      }
      if remaining == 1 {
        return;
      }
      Descend(st, q, next, e, remaining, nextCost, maxPaths, maxSteps);
    }

    /** Push the edge, sweep below it, pop it again (src/planner.cpp:479-484). */
    method Descend(st: SearchBudget, q: Query, next: nat, e: nat, remaining: nat, nextCost: nat, maxPaths: nat,
        maxSteps: nat)
      requires q.Valid() && q.InRange(current) && |visited| == q.nodeCount && remaining > 1 && e < |q.arcs|
      requires next == q.arcs[e].to && !visited[next] && q.InRange(current + [e]) && nextCost == q.Cost(current + [e])
      modifies this`paths, this`steps, this`stepLimited, this`visited, this`current
      modifies st`enumerationSteps, st`enumerationExhausted
      ensures visited == old(visited) && current == old(current)
      ensures Grown(old(paths), Sweep(q, current + [e], next, remaining - 1, Marked(visited) + {next}), paths,
                    !Stopped(st, maxPaths, maxSteps))
      ensures stepLimited ==> old(stepLimited) || st.enumerationSteps >= st.enumerationBudget
      ensures Paced(old(steps), old(st.enumerationSteps), steps, st.enumerationSteps,
                    SweepScans(q, current + [e], next, remaining - 1, Marked(visited) + {next}),
                    !Stopped(st, maxPaths, maxSteps))
      decreases remaining, 0, 0
    {
      MarkedUpdate(visited, next);
      UndoMark(visited, next);
      UndoPush(current, e);
      current := current + [e];
      visited := visited[next := true];
      EnumerateDepth(st, q, next, remaining - 1, nextCost, maxPaths, maxSteps);
      visited := visited[next := false];
      current := current[..|current| - 1];
    }

    /**
      One depth-limited sweep (src/planner.cpp:431-486). Unless a bound was reached it appends exactly the
      specified sweep; otherwise it appends a prefix of it. The scratch vectors are restored either way.
     */
    method EnumerateDepth(st: SearchBudget, q: Query, node: nat, remaining: nat, cost: nat, maxPaths: nat,
        maxSteps: nat)
      requires q.Valid() && q.InRange(current) && |visited| == q.nodeCount && node < q.nodeCount
      requires cost == q.Cost(current)
      modifies this`paths, this`steps, this`stepLimited, this`visited, this`current
      modifies st`enumerationSteps, st`enumerationExhausted
      ensures visited == old(visited) && current == old(current)
      ensures Grown(old(paths), Sweep(q, current, node, remaining, Marked(visited)), paths,
              !Stopped(st, maxPaths, maxSteps))
      ensures stepLimited ==> old(stepLimited) || st.enumerationSteps >= st.enumerationBudget
      ensures Paced(old(steps), old(st.enumerationSteps), steps, st.enumerationSteps,
                    SweepScans(q, current, node, remaining, Marked(visited)), !Stopped(st, maxPaths, maxSteps))
      decreases remaining, 1
    {
      if remaining == 0 {
        return;
      }
      var out := q.Out(node);
      ghost var done: seq<Path> := [];
      ghost var scanned: nat := 0;
      ghost var all := SweepArcs(q, current, out, remaining, Marked(visited));
      assert out[0..] == out;
      for i := 0 to |out|
        invariant visited == old(visited) && current == old(current)
        invariant done + SweepArcs(q, current, out[i..], remaining, Marked(visited)) == all
        invariant Grown(old(paths), done, paths, !Stopped(st, maxPaths, maxSteps))
        invariant stepLimited ==> old(stepLimited) || st.enumerationSteps >= st.enumerationBudget
        invariant scanned + ArcScans(q, current, out[i..], remaining, Marked(visited))
                  == SweepScans(q, current, node, remaining, Marked(visited))
        invariant Paced(old(steps), old(st.enumerationSteps), steps, st.enumerationSteps, scanned,
                        !Stopped(st, maxPaths, maxSteps))
      {
        if steps >= maxSteps || |paths| > maxPaths {
          GrownWiden(old(paths), done, SweepArcs(q, current, out[i..], remaining, Marked(visited)), paths);
          return;
        }
        if st.enumerationSteps >= st.enumerationBudget {
          GrownWiden(old(paths), done, SweepArcs(q, current, out[i..], remaining, Marked(visited)), paths);
          st.enumerationExhausted := true;
          stepLimited := true;
          return;
        }
        ghost var branch := Branch(q, current, out[i], remaining, Marked(visited));
        ghost var before := paths;
        SweepArcsStep(q, current, out, i, remaining, Marked(visited));
        FollowEdge(st, q, node, out[i], remaining, cost, maxPaths, maxSteps);
        GrownStep(old(paths), done, before, branch, paths, !Stopped(st, maxPaths, maxSteps));
        Assoc(done, branch, SweepArcs(q, current, out[i + 1..], remaining, Marked(visited)));
        done := done + branch;
        scanned := scanned + BranchScans(q, current, out[i], remaining, Marked(visited));
      }
      assert out[|out|..] == [];
    }

    /**
      Enumeration by increasing hop count (src/planner.cpp:492-512). It reports `exhaustive` exactly when the work of
      all sweeps stays under the bounds. Then, for distinct endpoints, the list holds every compliant path exactly
      once and nothing else; when it stops early the list still holds only compliant paths, each once.
     */
    method Run(st: SearchBudget, q: Query, maxPaths: nat, maxSteps: nat)
      requires q.Valid() && q.source in q.allowed && paths == [] && !stepLimited && !exhaustive && steps == 0
      modifies this, st`enumerationSteps, st`enumerationExhausted
      ensures q.source != q.target ==> Injective(paths) && forall p | p in paths :: q.Compliant(p)
      ensures q.source != q.target && exhaustive ==> forall p | q.Compliant(p) :: p in paths
      ensures q.source == q.target ==> paths == []
      ensures exhaustive ==> !stepLimited && |paths| <= maxPaths
      ensures steps == st.enumerationSteps - old(st.enumerationSteps) <= Scans(q, Deepest(q))
      ensures exhaustive <==> Enumerable(q, maxPaths, maxSteps, st.enumerationBudget - old(st.enumerationSteps))
      ensures exhaustive ==> paths == Deepening(q, Deepest(q)) && steps == Scans(q, Deepest(q))
    {
      current := [];
      var deepest := Deepest(q);
      var limit := 1;
      ghost var done: seq<Path> := [];
      while limit <= deepest
        invariant 1 <= limit <= deepest + 1
        invariant paths == done == Deepening(q, limit - 1) && !exhaustive && !stepLimited
        invariant limit > 1 ==> !Stopped(st, maxPaths, maxSteps)
        invariant Paced(0, old(st.enumerationSteps), steps, st.enumerationSteps, Scans(q, limit - 1), true)
      {
        visited := seq(q.nodeCount, v => v == q.source);
        current := [];
        assert Marked(visited) == {q.source};
        EnumerateDepth(st, q, q.source, limit, 0, maxPaths, maxSteps);
        DeepeningGrows(q, limit, deepest);
        if steps >= maxSteps || |paths| > maxPaths || st.enumerationSteps >= st.enumerationBudget {
          stepLimited := stepLimited || steps >= maxSteps || st.enumerationSteps >= st.enumerationBudget;
          PartialEnumeration(q, limit, paths);
          return;
        }
        done := paths;
        limit := limit + 1;
      }
      exhaustive := true;
      PartialEnumeration(q, deepest, paths);
      if q.source != q.target {
        FullEnumeration(q, deepest);
      }
    }
  }

  /** Any prefix of the deepening sequence holds compliant paths only, each once. */
  lemma {:induction false} PartialEnumeration(q: Query, depth: nat, paths: seq<Path>)
    requires q.Valid() && q.source in q.allowed && depth <= q.hopLimit && paths <= Deepening(q, depth)
    ensures q.source != q.target ==> Injective(paths) && forall p | p in paths :: q.Compliant(p)
    ensures q.source == q.target ==> paths == []
  {
    if q.source != q.target {
      DeepeningDistinct(q, depth);
      forall p | p in paths
        ensures q.Compliant(p)
      {
        DeepeningExact(q, depth, p);
      }
    } else {
      DeepeningSameEndpoint(q, depth);
    }
  }

  lemma {:induction false} FullEnumeration(q: Query, depth: nat)
    requires q.Valid() && q.source != q.target && depth == Min(q.hopLimit, q.nodeCount)
    ensures forall p | q.Compliant(p) :: p in Deepening(q, depth)
  {
    forall p | q.Compliant(p)
      ensures p in Deepening(q, depth)
    {
      SimpleIsShort(q, p);
      DeepeningExact(q, depth, p);
    }
  }

  /** With both participants on one node the target is marked before the first step, so nothing is ever recorded. */
  lemma {:induction false} SweepNever(q: Query, prefix: Path, node: nat, remaining: nat, visited: set<nat>)
    requires q.Valid() && q.InRange(prefix) && q.target in visited
    ensures Sweep(q, prefix, node, remaining, visited) == []
    decreases remaining, 1, 0
  {
    if remaining > 0 {
      SweepArcsNever(q, prefix, q.Out(node), remaining, visited);
    }
  }

  lemma {:induction false} SweepArcsNever(q: Query, prefix: Path, out: seq<nat>, remaining: nat, visited: set<nat>)
    requires q.Valid() && q.InRange(prefix) && q.InRange(out) && remaining > 0 && q.target in visited
    ensures SweepArcs(q, prefix, out, remaining, visited) == []
    decreases remaining, 0, |out|
  {
    if out != [] {
      var next := q.arcs[out[0]].to;
      if Enters(q, prefix, out[0], visited) {
        SweepNever(q, prefix + [out[0]], next, remaining - 1, visited + {next});
      }
      SweepArcsNever(q, prefix, out[1..], remaining, visited);
    }
  }

  lemma {:induction false} DeepeningSameEndpoint(q: Query, depth: nat)
    requires q.Valid() && q.source == q.target
    ensures Deepening(q, depth) == []
  {
    if depth > 0 {
      DeepeningSameEndpoint(q, depth - 1);
      SweepNever(q, [], q.source, depth, {q.source});
    }
  }

  lemma UndoMark(visited: seq<bool>, v: nat)
    requires v < |visited| && !visited[v]
    ensures visited[v := true][v := false] == visited
  {
  }

  lemma MarkedUpdate(visited: seq<bool>, v: nat)
    requires v < |visited|
    ensures Marked(visited[v := true]) == Marked(visited) + {v}
  {
  }

  lemma UndoPush(p: Path, e: nat)
    ensures (p + [e])[..|p + [e]| - 1] == p
  {
  }

  lemma {:induction false} SweepArcsStep(q: Query, prefix: Path, out: seq<nat>, i: nat, remaining: nat,
      visited: set<nat>)
    requires q.Valid() && q.InRange(prefix) && q.InRange(out) && remaining > 0 && i < |out|
    ensures SweepArcs(q, prefix, out[i..], remaining, visited) ==
            Branch(q, prefix, out[i], remaining, visited) + SweepArcs(q, prefix, out[i + 1..], remaining, visited)
    ensures ArcScans(q, prefix, out[i..], remaining, visited) ==
            BranchScans(q, prefix, out[i], remaining, visited) + ArcScans(q, prefix, out[i + 1..], remaining, visited)
  {
    assert out[i..][1..] == out[i + 1..];
  }

  /** The nodes a visited vector marks. */
  ghost function Marked(visited: seq<bool>): set<nat> {
    set v | 0 <= v < |visited| && visited[v]
  }
}
