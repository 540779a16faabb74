/** The max-flow routine of src/planner.cpp:829-901. */
module MaxFlow {
  import opened Finite
  import Saturating

  /** One residual arc; `reverse` is the position of its partner in the adjacency row of `to`. */
  datatype Arc = Arc(to: nat, capacity: nat, reverse: nat)

  type Residual = seq<seq<Arc>>

  const UNREACHABLE: nat := 0xFFFF_FFFF

  /** Residual capacity leaving the node set along one adjacency row. */
  ghost function RowOut(row: seq<Arc>, side: set<nat>): nat {
    if row == [] then 0
    else RowOut(row[..|row| - 1], side) + (if row[|row| - 1].to in side then 0 else row[|row| - 1].capacity)
  }

  /** Residual capacity of the cut (side, complement), over the rows below n. */
  ghost function CutBelow(g: Residual, side: set<nat>, n: nat): nat
    requires n <= |g|
  {
    if n == 0 then 0
    else CutBelow(g, side, n - 1) + (if n - 1 in side then RowOut(g[n - 1], side) else 0)
  }

  ghost function Cut(g: Residual, side: set<nat>): nat {
    CutBelow(g, side, |g|)
  }

  /** Each arc has a partner pointing back at it. */
  ghost predicate PairedAt(g: Residual, x: nat, a: nat)
    requires x < |g| && a < |g[x]|
  {
    && g[x][a].to < |g| && g[x][a].to != x && g[x][a].reverse < |g[g[x][a].to]|
    && g[g[x][a].to][g[x][a].reverse].to == x && g[g[x][a].to][g[x][a].reverse].reverse == a
  }

  ghost predicate Paired(g: Residual) {
    forall x, a {:trigger PairedAt(g, x, a)} | 0 <= x < |g| && 0 <= a < |g[x]| :: PairedAt(g, x, a)
  }

  /** Net amount that leaves the side when `amount` is moved from x to y. */
  ghost function Crossed(amount: int, x: nat, y: nat, side: set<nat>): int {
    if x in side && y !in side then amount
    else if x !in side && y in side then -amount
    else 0
  }

  lemma {:induction false} RowOutUpdate(row: seq<Arc>, side: set<nat>, a: nat, c: nat)
    requires a < |row|
    ensures RowOut(row[a := row[a].(capacity := c)], side) ==
            RowOut(row, side) + (if row[a].to in side then 0 else c - row[a].capacity)
    decreases |row|
  {
    var row' := row[a := row[a].(capacity := c)];
    var n := |row| - 1;
    if a == n {
      assert row'[..n] == row[..n];
    } else {
      assert row'[..n] == row[..n][a := row[..n][a].(capacity := c)];
      RowOutUpdate(row[..n], side, a, c);
    }
  }

  lemma {:induction false} CutBelowUpdate(g: Residual, side: set<nat>, n: nat, x: nat, row: seq<Arc>)
    requires n <= |g| && x < |g|
    ensures CutBelow(g[x := row], side, n) ==
            CutBelow(g, side, n) + (if x < n && x in side then RowOut(row, side) - RowOut(g[x], side) else 0)
  {
    if n > 0 {
      CutBelowUpdate(g, side, n - 1, x, row);
    }
  }

  /** Changing one residual capacity changes a cut only when the arc crosses it. */
  lemma CutSet(g: Residual, side: set<nat>, x: nat, a: nat, c: nat)
    requires x < |g| && a < |g[x]|
    ensures Cut(g[x := g[x][a := g[x][a].(capacity := c)]], side) ==
            Cut(g, side) + (if x in side && g[x][a].to !in side then c - g[x][a].capacity else 0)
  {
    RowOutUpdate(g[x], side, a, c);
    CutBelowUpdate(g, side, |g|, x, g[x][a := g[x][a].(capacity := c)]);
  }

  /** Sends `amount` over the arc in position a of row x: it loses capacity and its partner gains it. */
  function Send(g: Residual, x: nat, a: nat, amount: nat): Residual
    requires x < |g| && a < |g[x]| && amount <= g[x][a].capacity
    requires g[x][a].to < |g| && g[x][a].to != x && g[x][a].reverse < |g[g[x][a].to]|
  {
    var y, b := g[x][a].to, g[x][a].reverse;
    var g1: Residual := g[x := g[x][a := g[x][a].(capacity := g[x][a].capacity - amount)]];
    g1[y := g1[y][b := g1[y][b].(capacity := g1[y][b].capacity + amount)]]
  }

  /** Same nodes, arcs and partners; only capacities may differ. */
  ghost predicate SameShape(g: Residual, h: Residual) {
    && |g| == |h|
    && (forall x | 0 <= x < |g| :: |g[x]| == |h[x]|)
    && (forall x, a | 0 <= x < |g| && 0 <= a < |g[x]| :: g[x][a].to == h[x][a].to && g[x][a].reverse == h[x][a].reverse)
  }

  /** What an arc and its partner can carry together. */
  ghost function SumAt(g: Residual, x: nat, a: nat): nat
    requires x < |g| && a < |g[x]|
  {
    var y, b := g[x][a].to, g[x][a].reverse;
    g[x][a].capacity + if y < |g| && b < |g[y]| then g[y][b].capacity else 0
  }

  /** Pushing moves capacity between partners and creates none. */
  ghost predicate SumsKept(g: Residual, h: Residual) {
    && SameShape(g, h)
    && forall x, a {:trigger SumAt(g, x, a)} {:trigger SumAt(h, x, a)} | 0 <= x < |g| && 0 <= a < |g[x]| ::
         SumAt(g, x, a) == SumAt(h, x, a)
  }

  lemma SumsTrans(g: Residual, h: Residual, i: Residual)
    requires SumsKept(g, h) && SumsKept(h, i)
    ensures SumsKept(g, i)
  {
    forall x, a | 0 <= x < |g| && 0 <= a < |g[x]|
      ensures SumAt(g, x, a) == SumAt(i, x, a)
    {
      assert SumAt(h, x, a) == SumAt(g, x, a);
    }
  }

  lemma SendSums(g: Residual, x: nat, a: nat, amount: nat)
    requires Paired(g) && x < |g| && a < |g[x]| && amount <= g[x][a].capacity && PairedAt(g, x, a)
    ensures SumsKept(g, Send(g, x, a, amount))
  {
    var h := Send(g, x, a, amount);
    SendShape(g, x, a, amount);
    forall u, c | 0 <= u < |g| && 0 <= c < |g[u]|
      ensures SumAt(g, u, c) == SumAt(h, u, c)
    {
      assert PairedAt(g, u, c);
    }
  }

  lemma SendShape(g: Residual, x: nat, a: nat, amount: nat)
    requires Paired(g) && x < |g| && a < |g[x]| && amount <= g[x][a].capacity && PairedAt(g, x, a)
    ensures SameShape(g, Send(g, x, a, amount))
    ensures forall z | 0 <= z < |g| && z != x && z != g[x][a].to :: Send(g, x, a, amount)[z] == g[z]
  {
  }

  lemma ShapeKeepsPaired(g: Residual, h: Residual)
    requires Paired(g) && SameShape(g, h)
    ensures Paired(h)
  {
    forall x, a | 0 <= x < |h| && 0 <= a < |h[x]|
      ensures PairedAt(h, x, a)
    {
      assert PairedAt(g, x, a);
    }
  }

  /** Sending flow over an arc moves every cut by exactly the amount that crosses it. */
  lemma SendCut(g: Residual, x: nat, a: nat, amount: nat, side: set<nat>)
    requires Paired(g) && x < |g| && a < |g[x]| && amount <= g[x][a].capacity && PairedAt(g, x, a)
    ensures Cut(Send(g, x, a, amount), side) ==
            Cut(g, side) - Crossed(amount, x, g[x][a].to, side)
  {
    var y, b := g[x][a].to, g[x][a].reverse;
    var g1: Residual := g[x := g[x][a := g[x][a].(capacity := g[x][a].capacity - amount)]];
    CutSet(g, side, x, a, g[x][a].capacity - amount);
    CutSet(g1, side, y, b, g1[y][b].capacity + amount);
  }

  // ----- levels -----

  ghost predicate Labelled(level: seq<nat>, v: nat) {
    v < |level| && level[v] != UNREACHABLE
  }

  /** Some arc with spare capacity leads to v from one level below. */
  ghost predicate HasParent(g: Residual, level: seq<nat>, v: nat) {
    exists u, a :: 0 <= u < |g| && 0 <= a < |g[u]| && Labelled(level, u) && |level| == |g| &&
      g[u][a].to == v && g[u][a].capacity > 0 && Labelled(level, v) && level[v] == level[u] + 1
  }

  /** All arcs of u below position k with spare capacity lead to labelled nodes. */
  ghost predicate RowClosed(g: Residual, level: seq<nat>, u: nat, k: nat)
    requires u < |g| && k <= |g[u]|
  {
    forall a | 0 <= a < k && g[u][a].capacity > 0 :: Labelled(level, g[u][a].to)
  }

  /** The level graph of one phase: closed under spare arcs, every level reached from the one below. */
  ghost predicate Layered(g: Residual, level: seq<nat>, source: nat) {
    && |level| == |g| && source < |g| && level[source] == 0
    && (forall v {:trigger HasParent(g, level, v)} | 0 <= v < |g| && v != source
       && Labelled(level, v) :: HasParent(g, level, v))
    && (forall v | 0 <= v < |g| && Labelled(level, v) :: level[v] < |g| && RowClosed(g, level, v, |g[v]|))
  }

  /** The i-th queue entry is new at its position, and its level does not exceed its position. */
  ghost predicate Queued(level: seq<nat>, queue: seq<nat>, i: nat)
    requires i < |queue|
  {
    Labelled(level, queue[i]) && level[queue[i]] <= i && queue[i] !in queue[..i]
  }

  ghost predicate Enqueued(queue: seq<nat>, v: nat) {
    v in queue
  }

  /** Queue discipline: labelled nodes sit in the queue once, and a node's level never exceeds its position. */
  ghost predicate QueueInv(g: Residual, level: seq<nat>, source: nat, queue: seq<nat>) {
    && |level| == |g| && source < |g| && level[source] == 0 && queue != [] && queue[0] == source
    && |queue| <= |g|
    && (forall i: nat {:trigger Queued(level, queue, i)} | i < |queue| :: Queued(level, queue, i))
    && (forall v: nat {:trigger Enqueued(queue, v)} | v < |g| && Labelled(level, v) :: Enqueued(queue, v))
    && (forall v: nat {:trigger HasParent(g, level, v)} | v < |g| && v != source
       && Labelled(level, v) :: HasParent(g, level, v))
  }

  lemma QueueFits(level: seq<nat>, queue: seq<nat>)
    requires forall i: nat {:trigger Queued(level, queue, i)} | i < |queue| :: Queued(level, queue, i)
    ensures |queue| <= |level|
  {
    forall i, j | 0 <= i < j < |queue|
      ensures queue[i] != queue[j]
    {
      assert Queued(level, queue, j) && queue[..j][i] == queue[i];
    }
    forall i | 0 <= i < |queue|
      ensures queue[i] < |level|
    {
      assert Queued(level, queue, i);
    }
    DistinctBelow(queue, |level|);
  }

  lemma ParentKept(g: Residual, level: seq<nat>, v: nat, d: nat, w: nat)
    requires |level| == |g| && v < |level| && level[v] == UNREACHABLE && d != UNREACHABLE && w != v
             && HasParent(g, level, w)
    ensures HasParent(g, level[v := d], w)
  {
    var p, b :| 0 <= p < |g| && 0 <= b < |g[p]| && Labelled(level, p) &&
                g[p][b].to == w && g[p][b].capacity > 0 && Labelled(level, w) && level[w] == level[p] + 1;
    assert Labelled(level[v := d], p);
  }

  lemma QueuedGrows(level: seq<nat>, queue: seq<nat>, v: nat, d: nat)
    requires forall i: nat {:trigger Queued(level, queue, i)} | i < |queue| :: Queued(level, queue, i)
    requires v < |level| && level[v] == UNREACHABLE && d != UNREACHABLE && d <= |queue|
    ensures forall i: nat {:trigger Queued(level[v := d], queue + [v], i)} | i < |queue| + 1 ::
            Queued(level[v := d], queue + [v], i)
  {
    var level', queue' := level[v := d], queue + [v];
    forall i: nat | i < |queue'|
      ensures Queued(level', queue', i)
    {
      if i < |queue| {
        assert Queued(level, queue, i) && queue'[..i] == queue[..i];
      } else {
        assert queue'[..i] == queue;
        forall k | 0 <= k < |queue|
          ensures queue[k] != v
        {
          assert Queued(level, queue, k);
        }
      }
    }
  }

  lemma LabelNext(g: Residual, level: seq<nat>, source: nat, queue: seq<nat>, head: nat, a: nat)
    requires Paired(g) && |g| < UNREACHABLE && QueueInv(g, level, source, queue) && head < |queue|
             && Queued(level, queue, head)
    requires a < |g[queue[head]]| && g[queue[head]][a].capacity > 0 && PairedAt(g, queue[head], a)
    requires level[g[queue[head]][a].to] == UNREACHABLE
    ensures QueueInv(g, level[g[queue[head]][a].to := level[queue[head]] + 1], source, queue + [g[queue[head]][a].to])
  {
    var u := queue[head];
    var v := g[u][a].to;
    var d := level[u] + 1;
    var level', queue' := level[v := d], queue + [v];
    QueuedGrows(level, queue, v, d);
    QueueFits(level', queue');
    forall w: nat | w < |g| && w != source && Labelled(level', w)
      ensures HasParent(g, level', w)
    {
      if w == v {
        assert Labelled(level', u) && Labelled(level', v);
      } else {
        assert HasParent(g, level, w);
        ParentKept(g, level, v, d, w);
      }
    }
    forall w: nat | w < |g| && Labelled(level', w)
      ensures Enqueued(queue', w)
    {
      if w == v {
        assert queue'[|queue|] == v;
      } else {
        assert Enqueued(queue, w);
      }
    }
  }

  /** Everything before `head` in the queue has been scanned. */
  ghost predicate ScannedTo(g: Residual, level: seq<nat>, source: nat, queue: seq<nat>, head: nat) {
    && QueueInv(g, level, source, queue) && head <= |queue|
    && forall i: nat {:trigger Done(g, level, queue, i)} | i < head :: Done(g, level, queue, i)
  }

  ghost predicate Done(g: Residual, level: seq<nat>, queue: seq<nat>, i: nat)
    requires i < |queue|
  {
    queue[i] < |g| && RowClosed(g, level, queue[i], |g[queue[i]]|)
  }

  lemma RowClosedGrows(g: Residual, level: seq<nat>, u: nat, k: nat, v: nat, d: nat)
    requires u < |g| && k <= |g[u]| && RowClosed(g, level, u, k) && v < |level| && d != UNREACHABLE
    ensures RowClosed(g, level[v := d], u, k)
  {
  }

  lemma ScannedGrows(g: Residual, level: seq<nat>, source: nat, queue: seq<nat>, head: nat, a: nat)
    requires Paired(g) && |g| < UNREACHABLE && ScannedTo(g, level, source, queue, head) && head < |queue|
    requires Queued(level, queue, head)
    requires a < |g[queue[head]]| && g[queue[head]][a].capacity > 0 && PairedAt(g, queue[head], a)
    requires level[g[queue[head]][a].to] == UNREACHABLE
    ensures ScannedTo(g, level[g[queue[head]][a].to := level[queue[head]] + 1], source, queue + [g[queue[head]][a].to],
            head)
  {
    var v, d := g[queue[head]][a].to, level[queue[head]] + 1;
    LabelNext(g, level, source, queue, head, a);
    var level', queue' := level[v := d], queue + [v];
    forall i: nat | i < head
      ensures Done(g, level', queue', i)
    {
      assert Done(g, level, queue, i);
      RowClosedGrows(g, level, queue[i], |g[queue[i]]|, v, d);
    }
  }

  /** Labels the unlabelled neighbours of queue[head]. */
  method LabelRow(g: Residual, source: nat, level0: seq<nat>, queue0: seq<nat>, head: nat)
    returns (level: seq<nat>, queue: seq<nat>)
    requires Paired(g) && source < |g| < UNREACHABLE && ScannedTo(g, level0, source, queue0, head) && head < |queue0|
    ensures |queue| >= |queue0| && ScannedTo(g, level, source, queue, head + 1)
  {
    level, queue := level0, queue0;
    var node := queue[head];
    assert Queued(level, queue, head);
    for a := 0 to |g[node]|
      invariant ScannedTo(g, level, source, queue, head) && |queue| >= |queue0| && queue[head] == node
      invariant RowClosed(g, level, node, a)
    {
      assert PairedAt(g, node, a) && Queued(level, queue, head);
      if g[node][a].capacity > 0 && level[g[node][a].to] == UNREACHABLE {
        ScannedGrows(g, level, source, queue, head, a);
        RowClosedGrows(g, level, node, a, g[node][a].to, level[node] + 1);
        level, queue := level[g[node][a].to := level[node] + 1], queue + [g[node][a].to];
      }
    }
  }

  lemma ScannedAll(g: Residual, level: seq<nat>, source: nat, queue: seq<nat>)
    requires ScannedTo(g, level, source, queue, |queue|)
    ensures Layered(g, level, source)
  {
    forall v | 0 <= v < |g| && Labelled(level, v)
      ensures level[v] < |g| && RowClosed(g, level, v, |g[v]|)
    {
      assert Enqueued(queue, v);
      var i: nat :| i < |queue| && queue[i] == v;
      assert Done(g, level, queue, i) && Queued(level, queue, i);
    }
  }

  /** Breadth-first levels over arcs with spare capacity (src/planner.cpp:841-854). */
  method Levels(g: Residual, source: nat) returns (level: seq<nat>)
    requires Paired(g) && source < |g| < UNREACHABLE
    ensures Layered(g, level, source)
  {
    level := seq(|g|, _ => UNREACHABLE)[source := 0];
    var queue := [source];
    var head := 0;
    while head < |queue|
      invariant ScannedTo(g, level, source, queue, head)
      decreases |g| - head
    {
      level, queue := LabelRow(g, source, level, queue, head);
      head := head + 1;
    }
    ScannedAll(g, level, source, queue);
  }

  // ----- augmentation -----

  ghost predicate Ready(g: Residual, level: seq<nat>, cursor: seq<nat>) {
    && Paired(g) && |level| == |cursor| == |g| < UNREACHABLE
    && (forall v | 0 <= v < |g| && Labelled(level, v) :: level[v] < |g|)
    && (forall v | 0 <= v < |g| :: cursor[v] <= |g[v]|)
  }

  /** The arc cannot start an admissible path to the sink in this phase. */
  ghost predicate Blocked(g: Residual, level: seq<nat>, cursor: seq<nat>, sink: nat, x: nat, a: nat)
    requires x < |g| && a < |g[x]| && |level| == |cursor| == |g|
  {
    var y := g[x][a].to;
    g[x][a].capacity == 0 || y >= |g| || level[y] != level[x] + 1 || (y != sink && cursor[y] >= |g[y]|)
  }

  /** Every arc a cursor has moved past is blocked. */
  ghost predicate Dead(g: Residual, level: seq<nat>, cursor: seq<nat>, sink: nat) {
    && Ready(g, level, cursor)
    && forall x, a {:trigger Blocked(g, level, cursor, sink, x, a)} | 0 <= x < |g| && 0 <= a < cursor[x] ::
      Blocked(g, level, cursor, sink, x, a)
  }

  /** Advancing one cursor over a blocked arc keeps all passed arcs blocked. */
  lemma DeadAdvance(g: Residual, level: seq<nat>, cursor: seq<nat>, sink: nat, x: nat)
    requires Dead(g, level, cursor, sink) && x < |g| && cursor[x] < |g[x]|
    requires Blocked(g, level, cursor, sink, x, cursor[x])
    ensures Dead(g, level, cursor[x := cursor[x] + 1], sink)
  {
    var cursor' := cursor[x := cursor[x] + 1];
    forall y, a | 0 <= y < |g| && 0 <= a < cursor'[y]
      ensures Blocked(g, level, cursor', sink, y, a)
    {
      assert Blocked(g, level, cursor, sink, y, a);
    }
  }

  /** While nothing has been pushed, an exhausted source contradicts a labelled sink. */
  lemma {:induction false} NotExhausted(g: Residual, level: seq<nat>, cursor: seq<nat>, source: nat, sink: nat, v: nat)
    requires Layered(g, level, source) && Dead(g, level, cursor, sink)
    requires v < |g| && Labelled(level, v) && (v == sink || cursor[v] < |g[v]|)
    requires source != sink
    ensures cursor[source] < |g[source]|
    decreases if v < |level| then level[v] else 0
  {
    if v == source {
      return;
    }
    assert HasParent(g, level, v);
    var u, a :| 0 <= u < |g| && 0 <= a < |g[u]| && Labelled(level, u) &&
                g[u][a].to == v && g[u][a].capacity > 0 && level[v] == level[u] + 1;
    assert a < cursor[u] ==> Blocked(g, level, cursor, sink, u, a);
    NotExhausted(g, level, cursor, source, sink, u);
  }

  /** Only cursors at or above the given level moved, and only forward. */
  ghost predicate CursorsAbove(level: seq<nat>, floor: nat, cursor0: seq<nat>, cursor: seq<nat>) {
    && |level| == |cursor0| == |cursor|
    && (forall x | 0 <= x < |level| :: cursor0[x] <= cursor[x])
    && (forall x | 0 <= x < |level| && level[x] < floor :: cursor[x] == cursor0[x])
  }

  /** Only rows at or above the given level changed, and only in their capacities. */
  ghost predicate GraphAbove(level: seq<nat>, floor: nat, g0: Residual, g: Residual) {
    && |level| == |g0| && SumsKept(g0, g)
    && (forall x | 0 <= x < |level| && level[x] < floor :: g[x] == g0[x])
  }

  ghost predicate Above(level: seq<nat>, floor: nat, g0: Residual, cursor0: seq<nat>, g: Residual, cursor: seq<nat>) {
    CursorsAbove(level, floor, cursor0, cursor) && GraphAbove(level, floor, g0, g)
  }

  lemma AboveTrans(level: seq<nat>, floor: nat, g0: Residual, c0: seq<nat>, g1: Residual, c1: seq<nat>,
                   g2: Residual, c2: seq<nat>)
    requires Above(level, floor, g0, c0, g1, c1) && Above(level, floor, g1, c1, g2, c2)
    ensures Above(level, floor, g0, c0, g2, c2)
  {
    SumsTrans(g0, g1, g2);
  }

  lemma AdvanceCursor(level: seq<nat>, cursor0: seq<nat>, g: Residual, cursor: seq<nat>, node: nat)
    requires Ready(g, level, cursor) && node < |g| && cursor[node] < |g[node]|
    requires CursorsAbove(level, level[node], cursor0, cursor)
    ensures Ready(g, level, cursor[node := cursor[node] + 1])
    ensures CursorsAbove(level, level[node], cursor0, cursor[node := cursor[node] + 1])
  {
  }

  /** The push over one arc, after the rest of the path has been pushed. */
  lemma PushArc(level: seq<nat>, g0: Residual, cursor0: seq<nat>, g: Residual, cursor: seq<nat>,
                node: nat, c: nat, sink: nat, amount: nat)
    requires Ready(g, level, cursor) && node < |g| && c < |g[node]| && amount <= g[node][c].capacity
    requires Labelled(level, node) && PairedAt(g, node, c) && level[g[node][c].to] == level[node] + 1
    requires Above(level, level[node], g0, cursor0, g, cursor)
    requires forall side :: Cut(g, side) == Cut(g0, side) - Crossed(amount, g[node][c].to, sink, side)
    ensures var h := Send(g, node, c, amount);
            && Ready(h, level, cursor) && Above(level, level[node], g0, cursor0, h, cursor)
            && forall side :: Cut(h, side) == Cut(g0, side) - Crossed(amount, node, sink, side)
  {
    var h := Send(g, node, c, amount);
    SendShape(g, node, c, amount);
    SendSums(g, node, c, amount);
    ShapeKeepsPaired(g, h);
    AboveTrans(level, level[node], g0, cursor0, g, cursor, h, cursor);
    forall side
      ensures Cut(h, side) == Cut(g0, side) - Crossed(amount, node, sink, side)
    {
      SendCut(g, node, c, amount, side);
    }
  }

  class Network {
    var graph: Residual
    var level: seq<nat>
    var cursor: seq<nat>

    constructor (nodes: nat)
      ensures graph == seq(nodes, _ => [])
    {
      graph := seq(nodes, _ => []);
      level, cursor := [], [];
    }

    /** Adds an arc and its empty partner (src/planner.cpp:833-836). */
    method AddArc(from: nat, to: nat, capacity: nat)
      requires Paired(graph) && from < |graph| && to < |graph| && from != to
      modifies this`graph
      ensures graph == Extend(old(graph), from, to, capacity, 0) && Paired(graph) && |graph| == |old(graph)|
      ensures forall side ::
                Cut(graph, side) == Cut(old(graph), side) + (if from in side && to !in side then capacity else 0)
    {
      ghost var g := graph;
      graph := graph[from := graph[from] + [Arc(to, capacity, |graph[to]|)]];
      graph := graph[to := graph[to] + [Arc(from, 0, |graph[from]| - 1)]];
      ArcAdded(g, from, to, capacity, 0);
    }

    /** Searches below one admissible arc and, if the search succeeds, pushes over the arc itself. */
    method TryArc(node: nat, c: nat, sink: nat, limit: nat) returns (pushed: nat)
      requires Ready(graph, level, cursor) && node < |graph| && sink < |graph| && Labelled(level, node) && limit > 0
      requires c < |graph[node]| && PairedAt(graph, node, c) && graph[node][c].capacity > 0
      requires level[graph[node][c].to] == level[node] + 1
      modifies this`graph, this`cursor
      ensures Ready(graph, level, cursor) && pushed <= limit
      ensures Above(level, level[node], old(graph), old(cursor), graph, cursor) && cursor[node] == old(cursor[node])
      ensures forall side :: Cut(graph, side) == Cut(old(graph), side) - Crossed(pushed, node, sink, side)
      ensures pushed == 0 ==> graph == old(graph) && Blocked(graph, level, cursor, sink, node, c)
      ensures pushed == 0 && old(Dead(graph, level, cursor, sink)) ==> Dead(graph, level, cursor, sink)
      decreases |graph| - level[node], 0
    {
      var arc := graph[node][c];
      pushed := Augment(arc.to, sink, Saturating.Min(limit, arc.capacity));
      assert graph[node] == old(graph)[node];
      if pushed > 0 {
        assert PairedAt(graph, node, c);
        PushArc(level, old(graph), old(cursor), graph, cursor, node, c, sink, pushed);
        graph := Send(graph, node, c, pushed);
      }
    }

    /** Tries the arc under the node's cursor; if it leads nowhere the cursor moves on. */
    method TryNext(node: nat, sink: nat, limit: nat) returns (pushed: nat)
      requires Ready(graph, level, cursor) && node < |graph| && sink < |graph| && Labelled(level, node) && limit > 0
      requires cursor[node] < |graph[node]|
      modifies this`graph, this`cursor
      ensures Ready(graph, level, cursor) && pushed <= limit
      ensures Above(level, level[node], old(graph), old(cursor), graph, cursor)
      ensures forall side :: Cut(graph, side) == Cut(old(graph), side) - Crossed(pushed, node, sink, side)
      ensures pushed == 0 ==> graph == old(graph) && cursor[node] == old(cursor[node]) + 1
      ensures pushed == 0 && old(Dead(graph, level, cursor, sink)) ==> Dead(graph, level, cursor, sink)
      decreases |graph| - level[node], 1
    {
      var c := cursor[node];
      var arc := graph[node][c];
      assert PairedAt(graph, node, c);
      pushed := 0;
      if arc.capacity > 0 && level[arc.to] == level[node] + 1 {
        pushed := TryArc(node, c, sink, limit);
      }
      if pushed == 0 {
        if Dead(graph, level, cursor, sink) {
          DeadAdvance(graph, level, cursor, sink, node);
        }
        AdvanceCursor(level, old(cursor), graph, cursor, node);
        cursor := cursor[node := c + 1];
      }
    }

    /** One depth-first push along the level graph (src/planner.cpp:879-896). */
    method Augment(node: nat, sink: nat, limit: nat) returns (pushed: nat)
      requires Ready(graph, level, cursor) && node < |graph| && sink < |graph| && Labelled(level, node) && limit > 0
      modifies this`graph, this`cursor
      ensures Ready(graph, level, cursor) && pushed <= limit
      ensures Above(level, level[node], old(graph), old(cursor), graph, cursor)
      ensures forall side :: Cut(graph, side) == Cut(old(graph), side) - Crossed(pushed, node, sink, side)
      ensures pushed == 0 ==> graph == old(graph) && node != sink && cursor[node] == |graph[node]|
      ensures pushed == 0 && old(Dead(graph, level, cursor, sink)) ==> Dead(graph, level, cursor, sink)
      decreases |graph| - level[node], 2
    {
      if node == sink {
        return limit;
      }
      while cursor[node] < |graph[node]|
        invariant Ready(graph, level, cursor) && graph == old(graph)
        invariant CursorsAbove(level, level[node], old(cursor), cursor)
        invariant old(Dead(graph, level, cursor, sink)) ==> Dead(graph, level, cursor, sink)
        decreases |graph[node]| - cursor[node]
      {
        pushed := TryNext(node, sink, limit);
        if pushed > 0 {
          return;
        }
      }
      return 0;
    }

    /** Pushes until the phase's first failed search; at least one push succeeds when the sink is labelled. */
    method Phase(source: nat, sink: nat, limit: nat) returns (flow: nat)
      requires Layered(graph, level, source) && Paired(graph) && |graph| < UNREACHABLE
      requires sink < |graph| && Labelled(level, sink) && limit > 0
      modifies this`graph, this`cursor
      ensures Paired(graph) && SumsKept(old(graph), graph) && 0 < flow <= limit
      ensures forall side :: Cut(graph, side) == Cut(old(graph), side) - Crossed(flow, source, sink, side)
    {
      cursor := seq(|graph|, _ => 0);
      assert Dead(graph, level, cursor, sink);
      flow := 0;
      while flow < limit
        invariant Ready(graph, level, cursor) && SumsKept(old(graph), graph) && flow <= limit
        invariant flow == 0 ==> graph == old(graph) && Dead(graph, level, cursor, sink)
        invariant forall side :: Cut(graph, side) == Cut(old(graph), side) - Crossed(flow, source, sink, side)
      {
        ghost var before := graph;
        var pushed := Augment(source, sink, limit - flow);
        SumsTrans(old(graph), before, graph);
        if pushed == 0 {
          if flow == 0 {
            NotExhausted(graph, level, cursor, source, sink, sink);
            assert false;
          }
          break;
        }
        flow := flow + pushed;
      }
    }

    /**
      Repeated phases (src/planner.cpp:838-868). The result never exceeds any cut between source and sink, and when
      it stays below the limit the nodes labelled by the last search form a cut of exactly that capacity.
     */
    method Run(source: nat, sink: nat, limit: nat) returns (flow: nat)
      requires Paired(graph) && |graph| < UNREACHABLE && source < |graph| && sink < |graph|
      modifies this
      ensures flow <= limit
      ensures forall side | source in side && sink !in side :: flow <= Cut(old(graph), side)
      ensures flow < limit ==> exists side :: source in side && sink !in side && Cut(old(graph), side) == flow
      ensures SumsKept(old(graph), graph)
      ensures forall side :: Cut(graph, side) == Cut(old(graph), side) - Crossed(flow, source, sink, side)
    {
      flow := 0;
      while flow < limit
        invariant Paired(graph) && SumsKept(old(graph), graph) && flow <= limit
        invariant forall side :: Cut(graph, side) == Cut(old(graph), side) - Crossed(flow, source, sink, side)
      {
        level := Levels(graph, source);
        if level[sink] == UNREACHABLE {
          ghost var side := set v | 0 <= v < |graph| && Labelled(level, v);
          ClosedCut(graph, level, source, side);
          return;
        }
        ghost var before := graph;
        var pushed := Phase(source, sink, limit - flow);
        SumsTrans(old(graph), before, graph);
        flow := flow + pushed;
      }
    }
  }

  lemma {:induction false} RowClosedOut(g: Residual, level: seq<nat>, u: nat, k: nat, side: set<nat>)
    requires u < |g| && k <= |g[u]| && RowClosed(g, level, u, |g[u]|) && |level| == |g| && Paired(g)
    requires side == set v | 0 <= v < |g| && Labelled(level, v)
    ensures RowOut(g[u][..k], side) == 0
  {
    if k > 0 {
      RowClosedOut(g, level, u, k - 1, side);
      assert g[u][..k][..k - 1] == g[u][..k - 1];
      assert PairedAt(g, u, k - 1);
    }
  }

  /** No spare capacity leaves the labelled nodes. */
  lemma ClosedCut(g: Residual, level: seq<nat>, source: nat, side: set<nat>)
    requires Layered(g, level, source) && Paired(g)
    requires side == set v | 0 <= v < |g| && Labelled(level, v)
    ensures Cut(g, side) == 0
  {
    ClosedCutBelow(g, level, source, side, |g|);
  }

  lemma {:induction false} ClosedCutBelow(g: Residual, level: seq<nat>, source: nat, side: set<nat>, n: nat)
    requires Layered(g, level, source) && Paired(g) && n <= |g|
    requires side == set v | 0 <= v < |g| && Labelled(level, v)
    ensures CutBelow(g, side, n) == 0
  {
    if n > 0 {
      ClosedCutBelow(g, level, source, side, n - 1);
      if n - 1 in side {
        RowClosedOut(g, level, n - 1, |g[n - 1]|, side);
        assert g[n - 1][..|g[n - 1]|] == g[n - 1];
      }
    }
  }

  lemma {:induction false} RowOutSnoc(row: seq<Arc>, arc: Arc, side: set<nat>)
    ensures RowOut(row + [arc], side) == RowOut(row, side) + (if arc.to in side then 0 else arc.capacity)
  {
    assert (row + [arc])[..|row|] == row;
  }

  /** The residual with one more arc and its partner. */
  ghost function Extend(g: Residual, from: nat, to: nat, forward: nat, backward: nat): Residual
    requires from < |g| && to < |g| && from != to
  {
    g[from := g[from] + [Arc(to, forward, |g[to]|)]][to := g[to] + [Arc(from, backward, |g[from]|)]]
  }

  lemma ArcAdded(g: Residual, from: nat, to: nat, forward: nat, backward: nat)
    requires Paired(g) && from < |g| && to < |g| && from != to
    ensures Paired(Extend(g, from, to, forward, backward))
    ensures forall side ::
              Cut(Extend(g, from, to, forward, backward), side) == Cut(g, side)
                  + Spared(from, to, forward, backward, side)
  {
    ExtendPaired(g, from, to, forward, backward);
    forall side
      ensures Cut(Extend(g, from, to, forward, backward), side) == Cut(g, side)
              + Spared(from, to, forward, backward, side)
    {
      var row := g[from] + [Arc(to, forward, |g[to]|)];
      RowOutSnoc(g[from], Arc(to, forward, |g[to]|), side);
      RowOutSnoc(g[to], Arc(from, backward, |g[from]|), side);
      CutBelowUpdate(g, side, |g|, from, row);
      CutBelowUpdate(g[from := row], side, |g|, to, g[to] + [Arc(from, backward, |g[from]|)]);
    }
  }

  /** Capacity that an arc and its partner leave over the cut. */
  ghost function Spared(from: nat, to: nat, forward: nat, backward: nat, side: set<nat>): nat {
    if from in side && to !in side then forward else if to in side && from !in side then backward else 0
  }

  lemma ExtendPaired(g: Residual, from: nat, to: nat, forward: nat, backward: nat)
    requires Paired(g) && from < |g| && to < |g| && from != to
    ensures Paired(Extend(g, from, to, forward, backward))
  {
    var h := Extend(g, from, to, forward, backward);
    forall x, a | 0 <= x < |h| && 0 <= a < |h[x]|
      ensures PairedAt(h, x, a)
    {
      if a < |g[x]| {
        assert PairedAt(g, x, a);
      }
    }
  }

  lemma {:induction false} EmptyCut(g: Residual, side: set<nat>, n: nat)
    requires n <= |g| && forall x | 0 <= x < |g| :: g[x] == []
    ensures CutBelow(g, side, n) == 0
  {
    if n > 0 {
      EmptyCut(g, side, n - 1);
    }
  }
}
