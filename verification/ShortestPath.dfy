/** The hop-limited best-first search of src/planner.cpp:314-410. */
module ShortestPath {
  import opened Saturating
  import opened Paths
  import opened Finite

  /** Work counters shared by every search of one request (src/planner.cpp:150-173). */
  class SearchBudget {
    const maxExpansions: nat
    const enumerationBudget: nat
    var expansions: nat
    var enumerationSteps: nat
    var budgetExceeded: bool
    var enumerationExhausted: bool

    constructor (maxExpansions: nat, enumerationBudget: nat)
      ensures this.maxExpansions == maxExpansions && this.enumerationBudget == enumerationBudget
      ensures expansions == 0 && enumerationSteps == 0 && !budgetExceeded && !enumerationExhausted
    {
      this.maxExpansions := maxExpansions;
      this.enumerationBudget := enumerationBudget;
      expansions, enumerationSteps := 0, 0;
      budgetExceeded, enumerationExhausted := false, false;
    }
  }

  datatype Label = Label(cost: nat, hops: nat, node: nat)

  /** The state space is (node, hops). */
  datatype Key = Key(node: nat, hops: nat)

  /** How a key was last improved: from which key, over which edge. */
  datatype Step = Step(from: Key, edge: nat)

  datatype SearchOutcome = Found(cost: nat, edges: Path) | NotFound | BudgetExceeded

  /** The priority order of the frontier: (cost, hops, node). */
  predicate LabelLeq(a: Label, b: Label) {
    a.cost < b.cost || (a.cost == b.cost && (a.hops < b.hops || (a.hops == b.hops && a.node <= b.node)))
  }

  predicate IsTop(frontier: set<Label>, l: Label) {
    l in frontier && forall m | m in frontier :: LabelLeq(l, m)
  }

  lemma {:induction false} TopExists(frontier: set<Label>)
    requires frontier != {}
    ensures exists l :: IsTop(frontier, l)
    decreases |frontier|
  {
    var l :| l in frontier;
    var rest := frontier - {l};
    if rest == {} {
      assert frontier == {l};
      assert IsTop(frontier, l);
    } else {
      TopExists(rest);
      var m :| IsTop(rest, m);
      assert forall x | x in frontier :: x == l || x in rest;
      assert IsTop(frontier, if LabelLeq(l, m) then l else m);
    }
  }

  /** The distance of k is the cost of a recorded walk of exactly that many hops. */
  ghost predicate ReachedAt(q: Query, dist: map<Key, nat>, walks: map<Key, Path>, k: Key)
    requires k in dist && k in walks
  {
    && q.Walk(q.source, walks[k], k.node) && |walks[k]| == k.hops <= q.hopLimit
    && q.Cost(walks[k]) == dist[k] <= q.maxCost
  }

  ghost predicate Reached(q: Query, dist: map<Key, nat>, walks: map<Key, Path>) {
    && dist.Keys == walks.Keys
    && Key(q.source, 0) in dist && walks[Key(q.source, 0)] == []
    && forall k {:trigger ReachedAt(q, dist, walks, k)} | k in dist :: ReachedAt(q, dist, walks, k)
  }

  /** One step back along `prev` shortens the recorded walk by its last edge and lands on a settled key. */
  ghost predicate LinkedAt(prev: map<Key, Step>, walks: map<Key, Path>, settled: set<Key>, k: Key)
    requires k in walks
  {
    && k in prev && prev[k].from in settled && prev[k].from in walks && prev[k].from.hops + 1 == k.hops
    && walks[k] == walks[prev[k].from] + [prev[k].edge]
  }

  ghost predicate Linked(q: Query, prev: map<Key, Step>, walks: map<Key, Path>, settled: set<Key>) {
    forall k {:trigger LinkedAt(prev, walks, settled, k)} | k in walks && k != Key(q.source, 0) ::
      LinkedAt(prev, walks, settled, k)
  }

  /** An unsettled key waits in the frontier under its current distance. */
  ghost predicate QueuedAt(dist: map<Key, nat>, frontier: set<Label>, settled: set<Key>, k: Key)
    requires k in dist
  {
    k in settled || Label(dist[k], k.hops, k.node) in frontier
  }

  ghost predicate Queued(dist: map<Key, nat>, frontier: set<Label>, settled: set<Key>) {
    forall k {:trigger QueuedAt(dist, frontier, settled, k)} | k in dist :: QueuedAt(dist, frontier, settled, k)
  }

  /**
    A queued label is no better than the distance of its key, worse when the key is settled, and lies at or after the
    last one taken.
   */
  ghost predicate Pending(dist: map<Key, nat>, settled: set<Key>, last: Label, l: Label) {
    && Key(l.node, l.hops) in dist && dist[Key(l.node, l.hops)] <= l.cost
    && (Key(l.node, l.hops) in settled ==> dist[Key(l.node, l.hops)] < l.cost)
    && LexLeq(last.cost, last.hops, l.cost, l.hops)
  }

  /** A settled key lies at or before the last label taken from the frontier. */
  ghost predicate SettledAt(q: Query, dist: map<Key, nat>, last: Label, k: Key) {
    k in dist && k.node != q.target && LexLeq(dist[k], k.hops, last.cost, last.hops)
  }

  ghost predicate Separated(q: Query, dist: map<Key, nat>, frontier: set<Label>, settled: set<Key>, last: Label) {
    && (forall k {:trigger SettledAt(q, dist, last, k)} | k in settled :: SettledAt(q, dist, last, k))
    && (forall l {:trigger Pending(dist, settled, last, l)} | l in frontier :: Pending(dist, settled, last, l))
  }

  /** Every admissible extension of k over the given edges is already labelled at least as well. */
  ghost predicate Expanded(q: Query, dist: map<Key, nat>, k: Key, out: set<nat>)
    requires q.Valid()
  {
    k in dist &&
    forall e | e in out && e in q.usable && k.hops < q.hopLimit && SatAdd(dist[k], q.arcs[e].cost) <= q.maxCost ::
      Key(q.arcs[e].to, k.hops + 1) in dist && dist[Key(q.arcs[e].to, k.hops + 1)] <= SatAdd(dist[k], q.arcs[e].cost)
  }

  ghost predicate AllExpanded(q: Query, dist: map<Key, nat>, settled: set<Key>)
    requires q.Valid()
  {
    forall k {:trigger Expanded(q, dist, k, q.Leaving(k.node))} | k in settled ::
        Expanded(q, dist, k, q.Leaving(k.node))
  }

  /** Prefix costs of a walk inside the limits, one hop at a time. */
  lemma {:induction false} PrefixCost(q: Query, w: Path, i: nat)
    requires q.InRange(w) && i < |w|
    ensures q.InRange(w[..i]) && q.InRange(w[..i + 1])
    ensures q.Cost(w[..i + 1]) == SatAdd(q.Cost(w[..i]), q.arcs[w[i]].cost) <= q.Cost(w)
  {
    assert w[..i + 1] == w[..i] + [w[i]];
    CostSnoc(q, w[..i], w[i]);
    assert w == w[..i + 1] + w[i + 1..];
    CostOfPrefix(q, w[..i + 1], w[i + 1..]);
  }

  lemma HopLeaves(q: Query, w: Path, i: nat)
    requires q.Valid() && q.WithinLimits(w) && i < |w|
    ensures w[i] in q.usable && w[i] in q.Leaving(q.NodeAt(q.source, w, i))
  {
    assert q.arcs[w[i]].from == q.NodeAt(q.source, w, i);
  }

  /** Any walk inside the limits leaves a label in the frontier that is no worse than the walk. */
  lemma {:induction false} PendingLabel(q: Query, dist: map<Key, nat>, frontier: set<Label>, settled: set<Key>,
                                        last: Label, w: Path, i: nat) returns (l: Label)
    requires q.Valid() && q.WithinLimits(w) && i <= |w|
    requires Queued(dist, frontier, settled) && Separated(q, dist, frontier, settled, last)
    requires AllExpanded(q, dist, settled)
    requires Key(q.NodeAt(q.source, w, i), i) in dist
    requires q.InRange(w[..i]) && dist[Key(q.NodeAt(q.source, w, i), i)] <= q.Cost(w[..i]) <= q.Cost(w)
    ensures l in frontier && LexLeq(l.cost, l.hops, q.Cost(w), |w|)
    decreases |w| - i
  {
    var k := Key(q.NodeAt(q.source, w, i), i);
    assert QueuedAt(dist, frontier, settled, k);
    if k !in settled {
      l := Label(dist[k], k.hops, k.node);
    } else {
      assert SettledAt(q, dist, last, k);
      PrefixCost(q, w, i);
      HopLeaves(q, w, i);
      assert Expanded(q, dist, k, q.Leaving(k.node));
      l := PendingLabel(q, dist, frontier, settled, last, w, i + 1);
    }
  }

  /** Everything the search knows between two expansions. */
  ghost predicate Inv(q: Query, dist: map<Key, nat>, prev: map<Key, Step>, frontier: set<Label>,
                      walks: map<Key, Path>, settled: set<Key>, last: Label) {
    && Reached(q, dist, walks) && Linked(q, prev, walks, settled)
    && Queued(dist, frontier, settled) && Separated(q, dist, frontier, settled, last)
  }

  lemma RelaxReached(q: Query, dist: map<Key, nat>, walks: map<Key, Path>, key: Key, e: nat)
    requires q.Valid() && Reached(q, dist, walks) && key in dist
    requires key.hops < q.hopLimit && e in q.usable && q.arcs[e].from == key.node
    requires SatAdd(dist[key], q.arcs[e].cost) <= q.maxCost
    ensures Reached(q, dist[Key(q.arcs[e].to, key.hops + 1) := SatAdd(dist[key], q.arcs[e].cost)],
                    walks[Key(q.arcs[e].to, key.hops + 1) := walks[key] + [e]])
  {
    var next := Key(q.arcs[e].to, key.hops + 1);
    var dist' := dist[next := SatAdd(dist[key], q.arcs[e].cost)];
    var walks' := walks[next := walks[key] + [e]];
    assert ReachedAt(q, dist, walks, key);
    WalkSnoc(q, q.source, walks[key], key.node, e);
    CostSnoc(q, walks[key], e);
    forall k | k in dist'
      ensures ReachedAt(q, dist', walks', k)
    {
      if k != next {
        assert ReachedAt(q, dist, walks, k);
      }
    }
  }

  lemma RelaxLinked(q: Query, prev: map<Key, Step>, walks: map<Key, Path>, settled: set<Key>, key: Key, e: nat,
      next: Key)
    requires Linked(q, prev, walks, settled) && key in settled && key in walks
    requires next !in settled && next.hops == key.hops + 1
    ensures Linked(q, prev[next := Step(key, e)], walks[next := walks[key] + [e]], settled)
  {
    var prev' := prev[next := Step(key, e)];
    var walks' := walks[next := walks[key] + [e]];
    forall k | k in walks' && k != Key(q.source, 0)
      ensures LinkedAt(prev', walks', settled, k)
    {
      if k != next {
        assert LinkedAt(prev, walks, settled, k);
      }
    }
  }

  lemma RelaxQueued(q: Query, dist: map<Key, nat>, frontier: set<Label>, settled: set<Key>, last: Label, l: Label)
    requires Queued(dist, frontier, settled) && Separated(q, dist, frontier, settled, last)
    requires LexLeq(last.cost, last.hops, l.cost, l.hops) && Key(l.node, l.hops) !in settled
    requires Key(l.node, l.hops) in dist ==> l.cost < dist[Key(l.node, l.hops)]
    ensures l !in frontier
    ensures Queued(dist[Key(l.node, l.hops) := l.cost], frontier + {l}, settled)
    ensures Separated(q, dist[Key(l.node, l.hops) := l.cost], frontier + {l}, settled, last)
  {
    var next := Key(l.node, l.hops);
    var dist' := dist[next := l.cost];
    assert l in frontier ==> Pending(dist, settled, last, l);
    forall k | k in dist'
      ensures QueuedAt(dist', frontier + {l}, settled, k)
    {
      assert k != next ==> QueuedAt(dist, frontier, settled, k);
    }
    forall k | k in settled
      ensures SettledAt(q, dist', last, k)
    {
      assert SettledAt(q, dist, last, k);
    }
    forall m | m in frontier + {l}
      ensures Pending(dist', settled, last, m)
    {
      assert m != l ==> Pending(dist, settled, last, m);
    }
  }

  /** Improving one label keeps the invariant; a settled key is never improved. */
  lemma Relax(q: Query, dist: map<Key, nat>, prev: map<Key, Step>, frontier: set<Label>,
              walks: map<Key, Path>, settled: set<Key>, last: Label, e: nat)
    requires q.Valid() && Inv(q, dist, prev, frontier, walks, settled, last)
    requires Key(last.node, last.hops) in settled && Key(last.node, last.hops) in dist
             && dist[Key(last.node, last.hops)] == last.cost
    requires last.hops < q.hopLimit && e in q.usable && q.arcs[e].from == last.node
    requires SatAdd(last.cost, q.arcs[e].cost) <= q.maxCost
    requires Key(q.arcs[e].to, last.hops + 1) in dist ==>
               SatAdd(last.cost, q.arcs[e].cost) < dist[Key(q.arcs[e].to, last.hops + 1)]
    ensures Key(q.arcs[e].to, last.hops + 1) !in settled
    ensures Label(SatAdd(last.cost, q.arcs[e].cost), last.hops + 1, q.arcs[e].to) !in frontier
    ensures var key := Key(last.node, last.hops); var next := Key(q.arcs[e].to, last.hops + 1);
            var c := SatAdd(last.cost, q.arcs[e].cost);
            Inv(q, dist[next := c], prev[next := Step(key, e)],
                frontier + {Label(c, last.hops + 1, q.arcs[e].to)},
                walks[next := walks[key] + [e]], settled, last)
  {
    var key := Key(last.node, last.hops);
    var next := Key(q.arcs[e].to, last.hops + 1);
    var c := SatAdd(last.cost, q.arcs[e].cost);
    assert last.cost <= COST_CEILING by {
      assert ReachedAt(q, dist, walks, key);
      CostIsClampedSum(q, walks[key]);
    }
    assert next in settled ==> SettledAt(q, dist, last, next);
    RelaxReached(q, dist, walks, key, e);
    RelaxLinked(q, prev, walks, settled, key, e, next);
    RelaxQueued(q, dist, frontier, settled, last, Label(c, last.hops + 1, q.arcs[e].to));
  }

  lemma ExpandedMonotone(q: Query, dist: map<Key, nat>, k: Key, out: set<nat>, next: Key, c: nat)
    requires q.Valid() && Expanded(q, dist, k, out) && k != next
    requires next in dist ==> c < dist[next]
    ensures Expanded(q, dist[next := c], k, out)
  {
  }

  /** Improving the label reached over e completes that edge and keeps what was already expanded. */
  lemma ExpandedStep(q: Query, dist: map<Key, nat>, settled: set<Key>, key: Key, done: set<nat>, e: nat)
    requires q.Valid() && AllExpanded(q, dist, settled) && Expanded(q, dist, key, done) && e < |q.arcs|
    requires Key(q.arcs[e].to, key.hops + 1) !in settled
    requires Key(q.arcs[e].to, key.hops + 1) in dist ==>
               SatAdd(dist[key], q.arcs[e].cost) < dist[Key(q.arcs[e].to, key.hops + 1)]
    ensures var dist' := dist[Key(q.arcs[e].to, key.hops + 1) := SatAdd(dist[key], q.arcs[e].cost)];
            AllExpanded(q, dist', settled) && Expanded(q, dist', key, done + {e})
  {
    var next := Key(q.arcs[e].to, key.hops + 1);
    var c := SatAdd(dist[key], q.arcs[e].cost);
    forall k | k in settled
      ensures Expanded(q, dist[next := c], k, q.Leaving(k.node))
    {
      assert Expanded(q, dist, k, q.Leaving(k.node));
      ExpandedMonotone(q, dist, k, q.Leaving(k.node), next, c);
    }
    ExpandedMonotone(q, dist, key, done, next, c);
  }

  /** Walking `prev` back to the start spells the recorded walk. */
  method Reconstruct(q: Query, prev: map<Key, Step>, key: Key, ghost walks: map<Key, Path>,
                     ghost settled: set<Key>, ghost dist: map<Key, nat>) returns (edges: Path)
    requires Reached(q, dist, walks) && Linked(q, prev, walks, settled) && key in walks
    ensures edges == walks[key]
  {
    edges := [];
    var cursor := key;
    while cursor != Key(q.source, 0)
      invariant cursor in walks && walks[key] == walks[cursor] + edges
      decreases cursor.hops
    {
      assert LinkedAt(prev, walks, settled, cursor);
      var step := prev[cursor];
      edges := [step.edge] + edges;
      cursor := step.from;
    }
  }

  /** Taking the best label off the frontier: its key is either superseded or becomes settled. */
  lemma Pop(q: Query, dist: map<Key, nat>, prev: map<Key, Step>, frontier: set<Label>,
            walks: map<Key, Path>, settled: set<Key>, last: Label, top: Label)
    requires Inv(q, dist, prev, frontier, walks, settled, last) && IsTop(frontier, top)
    requires Pending(dist, settled, last, top)
    requires top.node != q.target || dist[Key(top.node, top.hops)] < top.cost
    ensures dist[Key(top.node, top.hops)] >= top.cost ==> Key(top.node, top.hops) !in settled
    ensures dist[Key(top.node, top.hops)] < top.cost ==>
              Inv(q, dist, prev, frontier - {top}, walks, settled, top)
    ensures dist[Key(top.node, top.hops)] >= top.cost ==>
              Inv(q, dist, prev, frontier - {top}, walks, settled + {Key(top.node, top.hops)}, top)
  {
    var rest := frontier - {top};
    var key := Key(top.node, top.hops);
    var more := if dist[key] < top.cost then settled else settled + {key};
    assert Pending(dist, settled, last, top);
    forall k | k in walks && k != Key(q.source, 0)
      ensures LinkedAt(prev, walks, more, k)
    {
      assert LinkedAt(prev, walks, settled, k);
    }
    forall k | k in dist
      ensures QueuedAt(dist, rest, more, k)
    {
      assert QueuedAt(dist, frontier, settled, k);
    }
    forall k | k in more
      ensures SettledAt(q, dist, top, k)
    {
      assert k in settled ==> SettledAt(q, dist, last, k);
    }
    forall l | l in rest
      ensures Pending(dist, more, top, l)
    {
      assert Pending(dist, settled, last, l);
    }
  }

  lemma AllExpandedAdd(q: Query, dist: map<Key, nat>, others: set<Key>, key: Key)
    requires q.Valid() && AllExpanded(q, dist, others) && Expanded(q, dist, key, q.Leaving(key.node))
    ensures AllExpanded(q, dist, others + {key})
  {
  }

  /** Relaxes one outgoing edge of the label just settled (src/planner.cpp:387-406). */
  method RelaxEdge(q: Query, top: Label, e: nat, dist0: map<Key, nat>, prev0: map<Key, Step>, frontier0: set<Label>,
                   ghost walks0: map<Key, Path>, ghost others: set<Key>, ghost done: set<nat>)
    returns (dist: map<Key, nat>, prev: map<Key, Step>, frontier: set<Label>, ghost walks: map<Key, Path>)
    requires q.Valid() && e < |q.arcs| && q.arcs[e].from == top.node && top.hops < q.hopLimit
    requires Inv(q, dist0, prev0, frontier0, walks0, others + {Key(top.node, top.hops)}, top)
    requires Key(top.node, top.hops) in dist0 && dist0[Key(top.node, top.hops)] == top.cost
    requires AllExpanded(q, dist0, others) && Expanded(q, dist0, Key(top.node, top.hops), done)
    ensures Inv(q, dist, prev, frontier, walks, others + {Key(top.node, top.hops)}, top)
    ensures Key(top.node, top.hops) in dist && dist[Key(top.node, top.hops)] == top.cost
    ensures AllExpanded(q, dist, others) && Expanded(q, dist, Key(top.node, top.hops), done + {e})
  {
    var key := Key(top.node, top.hops);
    var next := Key(q.arcs[e].to, top.hops + 1);
    var nextCost := SatAdd(top.cost, q.arcs[e].cost);
    if e in q.usable && nextCost <= q.maxCost && (next !in dist0 || nextCost < dist0[next]) {
      Relax(q, dist0, prev0, frontier0, walks0, others + {key}, top, e);
      ExpandedStep(q, dist0, others, key, done, e);
      assert Label(nextCost, top.hops + 1, q.arcs[e].to) !in frontier0;
      dist := dist0[next := nextCost];
      prev := prev0[next := Step(key, e)];
      walks := walks0[next := walks0[key] + [e]];
      frontier := frontier0 + {Label(nextCost, top.hops + 1, q.arcs[e].to)};
    } else {
      dist, prev, frontier, walks := dist0, prev0, frontier0, walks0;
    }
  }

  /** Relaxes every outgoing edge of the label just settled (src/planner.cpp:385-407). */
  method Expand(q: Query, top: Label, dist0: map<Key, nat>, prev0: map<Key, Step>, frontier0: set<Label>,
                ghost walks0: map<Key, Path>, ghost others: set<Key>)
    returns (dist: map<Key, nat>, prev: map<Key, Step>, frontier: set<Label>, ghost walks: map<Key, Path>)
    requires q.Valid() && Inv(q, dist0, prev0, frontier0, walks0, others + {Key(top.node, top.hops)}, top)
    requires Key(top.node, top.hops) in dist0 && dist0[Key(top.node, top.hops)] == top.cost
    requires top.hops < q.hopLimit && AllExpanded(q, dist0, others)
    ensures Inv(q, dist, prev, frontier, walks, others + {Key(top.node, top.hops)}, top)
    ensures AllExpanded(q, dist, others + {Key(top.node, top.hops)})
  {
    dist, prev, frontier, walks := dist0, prev0, frontier0, walks0;
    ghost var key := Key(top.node, top.hops);
    ghost var done: set<nat> := {};
    var outgoing := q.Out(top.node);
    for i := 0 to |outgoing|
      invariant Inv(q, dist, prev, frontier, walks, others + {key}, top)
      invariant key in dist && dist[key] == top.cost
      invariant AllExpanded(q, dist, others) && Expanded(q, dist, key, done)
      invariant forall k | 0 <= k < i :: outgoing[k] in done
    {
      dist, prev, frontier, walks :=
        RelaxEdge(q, top, outgoing[i], dist, prev, frontier, walks, others, done);
      done := done + {outgoing[i]};
    }
    forall e | e in q.Leaving(key.node)
      ensures e in done
    {
      OutComplete(q, key.node, 0, e);
    }
    assert Expanded(q, dist, key, q.Leaving(key.node));
    AllExpandedAdd(q, dist, others, key);
  }

  /** The label at which the target leaves the frontier first is minimal over every walk inside the limits. */
  lemma {:induction false} TargetIsCheapest(q: Query, dist: map<Key, nat>, prev: map<Key, Step>, frontier: set<Label>,
                         walks: map<Key, Path>, settled: set<Key>, last: Label, top: Label)
    requires q.Valid() && Inv(q, dist, prev, frontier, walks, settled, last) && IsTop(frontier, top)
    requires AllExpanded(q, dist, settled) && Pending(dist, settled, last, top)
    requires top.node == q.target && dist[Key(top.node, top.hops)] >= top.cost
    ensures var p := walks[Key(top.node, top.hops)];
            q.WithinLimits(p) && q.Cost(p) == top.cost && Cheapest(q, p) && q.Simple(q.source, p)
  {
    var key := Key(top.node, top.hops);
    assert ReachedAt(q, dist, walks, key) && ReachedAt(q, dist, walks, Key(q.source, 0));
    forall w | q.WithinLimits(w)
      ensures LexLeq(top.cost, top.hops, q.Cost(w), |w|)
    {
      var l := PendingLabel(q, dist, frontier, settled, last, w, 0);
    }
    CheapestIsSimple(q, walks[key]);
  }

  lemma EmptyFrontier(q: Query, dist: map<Key, nat>, prev: map<Key, Step>, walks: map<Key, Path>, settled: set<Key>,
                      last: Label, w: Path)
    requires q.Valid() && Inv(q, dist, prev, {}, walks, settled, last) && AllExpanded(q, dist, settled)
    ensures !q.WithinLimits(w)
  {
    if q.WithinLimits(w) {
      assert ReachedAt(q, dist, walks, Key(q.source, 0));
      var l := PendingLabel(q, dist, {}, settled, last, w, 0);
    }
  }

  /** States (node, hops) a search can settle. */
  function SearchBound(q: Query): nat {
    Times(q.nodeCount, q.hopLimit + 1)
  }

  lemma {:induction false} FewKeys(s: set<Key>, nodes: nat, hops: nat)
    requires forall k | k in s :: k.node < nodes && k.hops < hops
    ensures |s| <= Times(nodes, hops)
    decreases nodes
  {
    if nodes > 0 {
      var at := set k | k in s && k.node == nodes - 1;
      FewKeys(s - at, nodes - 1, hops);
      FewKeysAt(at, nodes - 1, hops);
      assert s == (s - at) + at;
    } else {
      assert s == {};
    }
  }

  lemma {:induction false} FewKeysAt(s: set<Key>, node: nat, hops: nat)
    requires forall k | k in s :: k.node == node && k.hops < hops
    ensures |s| <= hops
    decreases hops
  {
    if hops > 0 {
      var k := Key(node, hops - 1);
      FewKeysAt(s - {k}, node, hops - 1);
    } else {
      assert s == {};
    }
  }

  /** What is settled is labelled and so lies inside the state space. */
  lemma {:induction false} SettledIsFew(q: Query, dist: map<Key, nat>, prev: map<Key, Step>, frontier: set<Label>,
      walks: map<Key, Path>, settled: set<Key>, last: Label)
    requires q.Valid() && Inv(q, dist, prev, frontier, walks, settled, last)
    ensures |settled| <= SearchBound(q)
  {
    forall k | k in settled
      ensures k.node < q.nodeCount && k.hops < q.hopLimit + 1
    {
      assert SettledAt(q, dist, last, k) && ReachedAt(q, dist, walks, k);
    }
    FewKeys(settled, q.nodeCount, q.hopLimit + 1);
  }

  /**
    The search itself. A found path is minimal in (cost, hops) over every walk inside the limits, hence simple;
    "not found" without a budget stop means that no path exists.
   */
  method Search(st: SearchBudget, q: Query) returns (r: SearchOutcome)
    requires q.Valid()
    modifies st`expansions, st`budgetExceeded
    ensures r.Found? ==> q.Walk(q.source, r.edges, q.target) && r.cost == q.Cost(r.edges)
    ensures r.Found? && q.source != q.target ==> q.WithinLimits(r.edges) && q.source in q.allowed
    ensures r.Found? ==> Cheapest(q, r.edges) && q.Simple(q.source, r.edges)
    ensures r.NotFound? && q.source in q.allowed ==> forall w :: !q.WithinLimits(w)
    ensures q.source == q.target ==> r == Found(0, [])
    ensures r.BudgetExceeded? ==> st.budgetExceeded && st.expansions >= st.maxExpansions
    ensures !r.BudgetExceeded? ==> st.budgetExceeded == old(st.budgetExceeded)
    ensures old(st.expansions) <= st.expansions <= old(st.expansions) + SearchBound(q)
  {
    if q.source == q.target {
      return Found(0, []);
    }
    if q.source !in q.allowed || q.target !in q.allowed {
      forall w | q.WithinLimits(w)
        ensures q.source !in q.allowed
      {
        assert w != [] && w[|w| - 1] in q.usable;
      }
      return NotFound;
    }
    var start := Key(q.source, 0);
    var dist: map<Key, nat> := map[start := 0];
    var prev: map<Key, Step> := map[];
    var frontier := {Label(0, 0, q.source)};
    ghost var walks: map<Key, Path> := map[start := []];
    ghost var settled: set<Key> := {};
    ghost var last := Label(0, 0, q.source);
    while frontier != {}
      invariant Inv(q, dist, prev, frontier, walks, settled, last)
      invariant AllExpanded(q, dist, settled)
      invariant st.budgetExceeded == old(st.budgetExceeded)
      invariant st.expansions == old(st.expansions) + |settled| && |settled| <= SearchBound(q)
      decreases st.maxExpansions - st.expansions, |frontier|
    {
      TopExists(frontier);
      var top :| IsTop(frontier, top);
      assert Pending(dist, settled, last, top);
      var key := Key(top.node, top.hops);
      if dist[key] >= top.cost && top.node == q.target {
        TargetIsCheapest(q, dist, prev, frontier, walks, settled, last, top);
        var edges := Reconstruct(q, prev, key, walks, settled, dist);
        return Found(top.cost, edges);
      }
      Pop(q, dist, prev, frontier, walks, settled, last, top);
      frontier := frontier - {top};
      last := top;
      if dist[key] < top.cost {
        continue;
      }
      if st.expansions >= st.maxExpansions {
        st.budgetExceeded := true;
        return BudgetExceeded;
      }
      st.expansions := st.expansions + 1;
      if top.hops < q.hopLimit {
        dist, prev, frontier, walks := Expand(q, top, dist, prev, frontier, walks, settled);
      }
      settled := settled + {key};
      SettledIsFew(q, dist, prev, frontier, walks, settled, last);
    }
    forall w
      ensures !q.WithinLimits(w)
    {
      EmptyFrontier(q, dist, prev, walks, settled, last, w);
    }
    return NotFound;
  }
}
