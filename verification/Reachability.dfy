/** Breadth-first minimum hop count (src/planner.cpp:950-992). */
module Reachability {
  import opened Paths
  import opened Finite

  datatype Reach = Reached(hops: nat) | Unreachable

  /** Recorded distances: None is the source's 0xFFFFFFFF sentinel. */
  datatype Distance = Unseen | Hops(hops: nat)

  ghost predicate Seen(dist: seq<Distance>, v: nat) {
    v < |dist| && dist[v].Hops?
  }

  /** The queue holds exactly the seen nodes, each once, in order of non-decreasing distance. */
  ghost predicate QueueShape(q: Query, dist: seq<Distance>, queue: seq<nat>) {
    && |dist| == q.nodeCount && q.source < q.nodeCount && queue != [] && queue[0] == q.source
       && dist[q.source] == Hops(0)
    && Injective(queue)
    && (forall i | 0 <= i < |queue| :: Seen(dist, queue[i]))
    && (forall v | 0 <= v < |dist| :: dist[v].Hops? ==> v in queue)
    && (forall i, j | 0 <= i < j < |queue| :: dist[queue[i]].hops <= dist[queue[j]].hops)
  }

  /** Every recorded distance is realised by a walk of that length. */
  ghost predicate Realised(q: Query, dist: seq<Distance>, v: nat) {
    Seen(dist, v) ==> exists w :: q.Walk(q.source, w, v) && |w| == dist[v].hops
  }

  /** Every usable hop out of u over an edge below `bound` leads to a node seen within one more hop. */
  ghost predicate Scanned(q: Query, dist: seq<Distance>, u: nat, edges: set<nat>)
    requires q.Valid()
  {
    Seen(dist, u) && forall e | e in edges && e in q.usable && q.arcs[e].from == u ::
      Seen(dist, q.arcs[e].to) && dist[q.arcs[e].to].hops <= dist[u].hops + 1
  }

  /**
    When every node closer than d has been scanned, each walk of at most d hops ends at a seen node no farther
    than its length.
   */
  lemma {:induction false} WalkSeen(q: Query, dist: seq<Distance>, d: nat, w: Path, k: nat)
    requires q.Valid() && Seen(dist, q.source) && dist[q.source] == Hops(0)
    requires forall u: nat | Seen(dist, u) && dist[u].hops < d :: Scanned(q, dist, u, q.Leaving(u))
    requires q.InRange(w) && k <= |w| && k <= d && q.Walk(q.source, w, q.NodeAt(q.source, w, |w|))
    ensures Seen(dist, q.NodeAt(q.source, w, k)) && dist[q.NodeAt(q.source, w, k)].hops <= k
  {
    if k > 0 {
      WalkSeen(q, dist, d, w, k - 1);
      var u := q.NodeAt(q.source, w, k - 1);
      assert Scanned(q, dist, u, q.Leaving(u));
      assert w[k - 1] in q.Leaving(u);
    }
  }

  /** Everything the search knows while it scans queue[head], having handled the edges in `done`. */
  ghost predicate Inv(q: Query, dist: seq<Distance>, queue: seq<nat>, head: nat, done: set<nat>)
    requires q.Valid()
  {
    && QueueShape(q, dist, queue) && head < |queue| && !Seen(dist, q.target)
    && (forall i | 0 <= i < head :: Scanned(q, dist, queue[i], q.Leaving(queue[i])))
    && Scanned(q, dist, queue[head], done)
    && (forall i | 0 <= i < |queue| :: dist[queue[i]].hops <= dist[queue[head]].hops + 1)
    && (forall v: nat {:trigger Realised(q, dist, v)} :: Realised(q, dist, v))
  }

  lemma DiscoverShape(q: Query, dist: seq<Distance>, queue: seq<nat>, head: nat, next: nat)
    requires QueueShape(q, dist, queue) && head < |queue| && next < |dist| && dist[next] == Unseen
    requires forall i | 0 <= i < |queue| :: dist[queue[i]].hops <= dist[queue[head]].hops + 1
    ensures QueueShape(q, dist[next := Hops(dist[queue[head]].hops + 1)], queue + [next])
    ensures var dist' := dist[next := Hops(dist[queue[head]].hops + 1)]; var queue' := queue + [next];
            dist'[queue'[head]] == dist[queue[head]] &&
            forall i | 0 <= i < |queue'| :: dist'[queue'[i]].hops <= dist[queue[head]].hops + 1
  {
    assert next !in queue by {
      if i :| 0 <= i < |queue| && queue[i] == next {
        assert Seen(dist, queue[i]);
      }
    }
    var dist' := dist[next := Hops(dist[queue[head]].hops + 1)];
    var queue' := queue + [next];
    forall v | 0 <= v < |dist'| && dist'[v].Hops?
      ensures v in queue'
    {
      if v != next {
        assert v in queue;
      }
    }
  }

  lemma DiscoverScanned(q: Query, dist: seq<Distance>, u: nat, edges: set<nat>, next: nat, d: nat)
    requires q.Valid() && |dist| == q.nodeCount && Scanned(q, dist, u, edges) && next < |dist| && dist[next] == Unseen
    ensures Scanned(q, dist[next := Hops(d)], u, edges)
  {
  }

  lemma DiscoverRealised(q: Query, dist: seq<Distance>, node: nat, e: nat)
    requires q.Valid() && |dist| == q.nodeCount && Seen(dist, node) && e in q.usable && q.arcs[e].from == node
    requires forall v: nat {:trigger Realised(q, dist, v)} :: Realised(q, dist, v)
    ensures exists w :: q.Walk(q.source, w, q.arcs[e].to) && |w| == dist[node].hops + 1
    ensures var dist' := dist[q.arcs[e].to := Hops(dist[node].hops + 1)];
            forall v: nat {:trigger Realised(q, dist', v)} :: Realised(q, dist', v)
  {
    assert Realised(q, dist, node);
    var w :| q.Walk(q.source, w, node) && |w| == dist[node].hops;
    WalkSnoc(q, q.source, w, node, e);
    assert q.Walk(q.source, w + [e], q.arcs[e].to) && |w + [e]| == dist[node].hops + 1;
    var dist' := dist[q.arcs[e].to := Hops(dist[node].hops + 1)];
    forall v: nat
      ensures Realised(q, dist', v)
    {
      assert Realised(q, dist, v);
    }
  }

  /** Discovering a new node over edge e keeps the invariant and completes e. */
  lemma Discover(q: Query, dist: seq<Distance>, queue: seq<nat>, head: nat, done: set<nat>, e: nat)
    requires q.Valid() && Inv(q, dist, queue, head, done)
    requires e in q.usable && q.arcs[e].from == queue[head] && dist[q.arcs[e].to] == Unseen
    requires q.arcs[e].to != q.target
    ensures Inv(q, dist[q.arcs[e].to := Hops(dist[queue[head]].hops + 1)], queue + [q.arcs[e].to], head, done + {e})
  {
    var next := q.arcs[e].to;
    var d := dist[queue[head]].hops + 1;
    DiscoverShape(q, dist, queue, head, next);
    forall i | 0 <= i < head
      ensures Scanned(q, dist[next := Hops(d)], queue[i], q.Leaving(queue[i]))
    {
      DiscoverScanned(q, dist, queue[i], q.Leaving(queue[i]), next, d);
    }
    DiscoverScanned(q, dist, queue[head], done, next, d);
    DiscoverRealised(q, dist, queue[head], e);
  }

  /** While the target is unseen and the nodes before `head` are scanned, no walk reaches it sooner. */
  lemma NoShorterWalk(q: Query, dist: seq<Distance>, queue: seq<nat>, head: nat, done: set<nat>, w: Path)
    requires q.Valid() && Inv(q, dist, queue, head, done) && q.Walk(q.source, w, q.target)
    ensures |w| > dist[queue[head]].hops
  {
    var d := dist[queue[head]].hops;
    forall u: nat | Seen(dist, u) && dist[u].hops < d
      ensures Scanned(q, dist, u, q.Leaving(u))
    {
      var i :| 0 <= i < |queue| && queue[i] == u;
      assert i < head;
    }
    if |w| <= d {
      WalkSeen(q, dist, d, w, |w|);
    }
  }

  lemma NoWalkAtAll(q: Query, dist: seq<Distance>, queue: seq<nat>, w: Path)
    requires q.Valid() && QueueShape(q, dist, queue) && !Seen(dist, q.target)
    requires forall i | 0 <= i < |queue| :: Scanned(q, dist, queue[i], q.Leaving(queue[i]))
    ensures !q.Walk(q.source, w, q.target)
  {
    if q.Walk(q.source, w, q.target) {
      forall u: nat | Seen(dist, u) && dist[u].hops < |w|
        ensures Scanned(q, dist, u, q.Leaving(u))
      {
        var i :| 0 <= i < |queue| && queue[i] == u;
      }
      WalkSeen(q, dist, |w|, w, |w|);
    }
  }

  /** Scans the outgoing edges of queue[head]; stops when the target is found. */
  method Scan(q: Query, dist0: seq<Distance>, queue0: seq<nat>, head: nat)
    returns (dist: seq<Distance>, queue: seq<nat>, found: bool)
    requires q.Valid() && Inv(q, dist0, queue0, head, {})
    ensures !found ==> |queue| >= |queue0| && Inv(q, dist, queue, head, q.Leaving(queue[head]))
    ensures found ==> (exists w :: q.Walk(q.source, w, q.target) && |w| == dist0[queue0[head]].hops + 1)
    ensures found ==> forall w | q.Walk(q.source, w, q.target) :: |w| >= dist0[queue0[head]].hops + 1
  {
    dist, queue, found := dist0, queue0, false;
    var out := q.Out(queue[head]);
    ghost var done: set<nat> := {};
    for i := 0 to |out|
      invariant Inv(q, dist, queue, head, done) && |queue| >= |queue0|
      invariant queue[head] == queue0[head] && dist[queue[head]] == dist0[queue0[head]]
      invariant forall k | 0 <= k < i :: out[k] in done
    {
      var e := out[i];
      if dist[q.arcs[e].to] == Unseen && e in q.usable {
        if q.arcs[e].to == q.target {
          DiscoverRealised(q, dist, queue[head], e);
          forall w | q.Walk(q.source, w, q.target)
            ensures |w| >= dist0[queue0[head]].hops + 1
          {
            NoShorterWalk(q, dist, queue, head, done, w);
          }
          found := true;
          return;
        }
        Discover(q, dist, queue, head, done, e);
        dist := dist[q.arcs[e].to := Hops(dist[queue[head]].hops + 1)];
        queue := queue + [q.arcs[e].to];
      }
      done := done + {e};
    }
    forall e | e in q.Leaving(queue[head])
      ensures e in done
    {
      OutComplete(q, queue[head], 0, e);
    }
  }

  /**
    The exact minimum number of hops of any compliant walk, regardless of the hop and cost limits; "unreachable"
    means that no such walk exists at all.
   */
  method MinHops(q: Query) returns (r: Reach)
    requires q.Valid()
    ensures r.Reached? ==> exists w :: q.Walk(q.source, w, q.target) && |w| == r.hops
    ensures r.Reached? ==> forall w | q.Walk(q.source, w, q.target) :: |w| >= r.hops
    ensures r.Unreachable? ==> forall w :: !q.Walk(q.source, w, q.target)
  {
    if q.source == q.target {
      assert q.Walk(q.source, [], q.target);
      return Reached(0);
    }
    var dist := seq(q.nodeCount, _ => Unseen)[q.source := Hops(0)];
    var queue := [q.source];
    var head := 0;
    assert q.Walk(q.source, [], q.source);
    while head < |queue|
      invariant QueueShape(q, dist, queue) && 0 <= head <= |queue|
      invariant !Seen(dist, q.target)
      invariant forall i | 0 <= i < head :: Scanned(q, dist, queue[i], q.Leaving(queue[i]))
      invariant head < |queue| ==> Inv(q, dist, queue, head, {})
      decreases q.nodeCount - head
    {
      var found;
      ghost var d := dist[queue[head]].hops;
      var hops := dist[queue[head]].hops + 1;
      dist, queue, found := Scan(q, dist, queue, head);
      if found {
        return Reached(hops);
      }
      DistinctBelow(queue, q.nodeCount);
      head := head + 1;
    }
    forall w
      ensures !q.Walk(q.source, w, q.target)
    {
      NoWalkAtAll(q, dist, queue, w);
    }
    return Unreachable;
  }
}
