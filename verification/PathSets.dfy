/** Complete answers for one logical edge and their enumeration (src/planner.cpp:645-718). */
module PathSets {
  import opened Saturating
  import opened Paths
  import opened Sorting
  import opened Candidates

  /** Commitment of one answer on one physical edge. */
  datatype Use = Use(edge: nat, amount: nat)

  datatype PathSet = PathSet(paths: seq<Candidate>, totalCost: nat, maxPathCost: nat, headroom: nat, conflicts: nat,
                             usage: seq<Use>, signature: seq<nat>)

  // ----- capacity footprint -----

  /** Usage tables are sorted by edge with one entry per edge. */
  ghost predicate UsageOk(u: seq<Use>) {
    forall i, j | 0 <= i < j < |u| :: u[i].edge < u[j].edge
  }

  function Charge(u: seq<Use>, e: nat, d: nat): seq<Use> {
    if u == [] || e < u[0].edge then [Use(e, d)] + u
    else if u[0].edge == e then [Use(e, SatAdd(u[0].amount, d))] + u[1..]
    else [u[0]] + Charge(u[1..], e, d)
  }

  function ChargePath(t: Terms, u: seq<Use>, p: Path): seq<Use>
    requires t.Valid() && t.q.InRange(p)
  {
    if p == [] then u
    else
      var u' := ChargePath(t, u, p[..|p| - 1]);
      var e := p[|p| - 1];
      if t.capacity[e] == 0 then u' else Charge(u', e, t.demand)
  }

  ghost predicate AllInRange(t: Terms, s: seq<Candidate>) {
    forall i | 0 <= i < |s| :: t.q.InRange(s[i].edges)
  }

  function Usage(t: Terms, s: seq<Candidate>): seq<Use>
    requires t.Valid() && AllInRange(t, s)
  {
    if s == [] then [] else ChargePath(t, Usage(t, s[..|s| - 1]), s[|s| - 1].edges)
  }

  /** The amount a table commits on an edge. */
  ghost function Amount(u: seq<Use>, e: nat): nat {
    if u == [] then 0 else if u[0].edge == e then u[0].amount else Amount(u[1..], e)
  }

  lemma {:induction false} AmountAt(u: seq<Use>, i: nat)
    requires UsageOk(u) && i < |u|
    ensures Amount(u, u[i].edge) == u[i].amount
  {
    if i > 0 {
      assert u[1..][i - 1] == u[i];
      AmountAt(u[1..], i - 1);
    }
  }

  lemma {:induction false} AmountAbsent(u: seq<Use>, e: nat)
    requires forall i | 0 <= i < |u| :: u[i].edge != e
    ensures Amount(u, e) == 0
  {
    if u != [] {
      AmountAbsent(u[1..], e);
    }
  }

  lemma {:induction false} ChargeOk(u: seq<Use>, e: nat, d: nat)
    requires UsageOk(u)
    ensures UsageOk(Charge(u, e, d))
  {
    if u != [] && e > u[0].edge {
      ChargeOk(u[1..], e, d);
      ChargeBeyond(u[1..], e, d, u[0].edge);
      var rest := Charge(u[1..], e, d);
      forall i, j | 0 <= i < j < |rest| + 1
        ensures ([u[0]] + rest)[i].edge < ([u[0]] + rest)[j].edge
      {
        assert i > 0 ==> rest[i - 1].edge < rest[j - 1].edge;
        assert rest[j - 1].edge > u[0].edge;
      }
    }
  }

  lemma {:induction false} ChargeBeyond(u: seq<Use>, e: nat, d: nat, bound: nat)
    requires e > bound && forall i | 0 <= i < |u| :: u[i].edge > bound
    ensures forall i | 0 <= i < |Charge(u, e, d)| :: Charge(u, e, d)[i].edge > bound
  {
    if u != [] && e > u[0].edge {
      ChargeBeyond(u[1..], e, d, bound);
    }
  }

  /** The table names physical edges with verified capacity only. */
  ghost predicate Verified(capacity: seq<nat>, u: seq<Use>) {
    forall i | 0 <= i < |u| :: u[i].edge < |capacity| && capacity[u[i].edge] > 0
  }

  lemma {:induction false} ChargeVerified(capacity: seq<nat>, u: seq<Use>, e: nat, d: nat)
    requires Verified(capacity, u) && e < |capacity| && capacity[e] > 0
    ensures Verified(capacity, Charge(u, e, d))
  {
    if u != [] && e > u[0].edge {
      ChargeVerified(capacity, u[1..], e, d);
    }
  }

  lemma {:induction false} ChargeAmount(u: seq<Use>, e: nat, d: nat, x: nat)
    requires UsageOk(u) && d <= COST_CEILING
    ensures Amount(Charge(u, e, d), x) == if x == e then SatAdd(Amount(u, e), d) else Amount(u, x)
  {
    if u != [] && e > u[0].edge {
      ChargeAmount(u[1..], e, d, x);
      assert Charge(u, e, d)[1..] == Charge(u[1..], e, d);
    } else if u == [] || e < u[0].edge {
      assert Charge(u, e, d)[1..] == u;
      if u != [] {
        AmountAbsent(u, e);
      }
    } else {
      assert Charge(u, e, d)[1..] == u[1..];
    }
  }

  /** Demand a path places on edge x: one share per crossing, nothing on an edge without verified capacity. */
  ghost function PathLoad(t: Terms, p: Path, x: nat): nat
    requires x < |t.capacity|
  {
    if p == [] then 0
    else PathLoad(t, p[..|p| - 1], x) + (if p[|p| - 1] == x && t.capacity[x] > 0 then t.demand else 0)
  }

  ghost function Load(t: Terms, s: seq<Candidate>, x: nat): nat
    requires x < |t.capacity|
  {
    if s == [] then 0 else Load(t, s[..|s| - 1], x) + PathLoad(t, s[|s| - 1].edges, x)
  }

  lemma {:induction false} ChargePathAmount(t: Terms, u: seq<Use>, p: Path, x: nat)
    requires t.Valid() && t.q.InRange(p) && UsageOk(u) && t.demand <= COST_CEILING && x < |t.capacity|
    requires Amount(u, x) <= COST_CEILING
    ensures UsageOk(ChargePath(t, u, p))
    ensures Amount(ChargePath(t, u, p), x) == Min(Amount(u, x) + PathLoad(t, p, x), COST_CEILING)
    decreases |p|
  {
    if p != [] {
      var init := p[..|p| - 1];
      var e := p[|p| - 1];
      ChargePathAmount(t, u, init, x);
      var u' := ChargePath(t, u, init);
      ChargeOk(u', e, t.demand);
      if t.capacity[e] > 0 {
        ChargeAmount(u', e, t.demand, x);
        if e == x {
          ClampAdd(Amount(u, x) + PathLoad(t, init, x), t.demand);
        }
      }
    }
  }

  /** The table of an answer records its load on every edge, clamped at the ceiling. */
  lemma {:induction false} UsageAmount(t: Terms, s: seq<Candidate>, x: nat)
    requires t.Valid() && AllInRange(t, s) && t.demand <= COST_CEILING && x < |t.capacity|
    ensures UsageOk(Usage(t, s)) && Amount(Usage(t, s), x) == Min(Load(t, s, x), COST_CEILING)
    decreases |s|
  {
    if s != [] {
      UsageAmount(t, s[..|s| - 1], x);
      ChargePathAmount(t, Usage(t, s[..|s| - 1]), s[|s| - 1].edges, x);
    }
  }

  lemma {:induction false} ChargePathEdges(t: Terms, u: seq<Use>, p: Path)
    requires t.Valid() && t.q.InRange(p) && UsageOk(u) && Verified(t.capacity, u)
    ensures UsageOk(ChargePath(t, u, p)) && Verified(t.capacity, ChargePath(t, u, p))
    decreases |p|
  {
    if p != [] {
      ChargePathEdges(t, u, p[..|p| - 1]);
      var u' := ChargePath(t, u, p[..|p| - 1]);
      if t.capacity[p[|p| - 1]] > 0 {
        ChargeOk(u', p[|p| - 1], t.demand);
        ChargeVerified(t.capacity, u', p[|p| - 1], t.demand);
      }
    }
  }

  lemma {:induction false} UsageEdges(t: Terms, s: seq<Candidate>)
    requires t.Valid() && AllInRange(t, s)
    ensures UsageOk(Usage(t, s)) && Verified(t.capacity, Usage(t, s))
    decreases |s|
  {
    if s != [] {
      UsageEdges(t, s[..|s| - 1]);
      ChargePathEdges(t, Usage(t, s[..|s| - 1]), s[|s| - 1].edges);
    }
  }

  /** The footprint test of src/planner.cpp:760-765. */
  predicate FitsAlone(t: Terms, u: seq<Use>)
    requires t.Valid() && Verified(t.capacity, u)
  {
    forall i | 0 <= i < |u| :: u[i].amount <= t.spare[u[i].edge]
  }

  /** No verified edge is loaded beyond its spare capacity. */
  ghost predicate Carried(t: Terms, s: seq<Candidate>)
    requires t.Valid()
  {
    forall x | 0 <= x < |t.spare| :: Load(t, s, x) <= t.spare[x] || t.capacity[x] == 0
  }

  lemma {:induction false} FitsIffCarried(t: Terms, s: seq<Candidate>)
    requires t.Valid() && AllInRange(t, s) && t.demand <= COST_CEILING
    requires Verified(t.capacity, Usage(t, s))
    ensures FitsAlone(t, Usage(t, s)) <==> Carried(t, s)
  {
    var u := Usage(t, s);
    UsageEdges(t, s);
    if FitsAlone(t, u) {
      forall x | 0 <= x < |t.spare|
        ensures Load(t, s, x) <= t.spare[x] || t.capacity[x] == 0
      {
        UsageAmount(t, s, x);
        if i :| 0 <= i < |u| && u[i].edge == x {
          AmountAt(u, i);
        } else {
          AmountAbsent(u, x);
        }
      }
    }
    if Carried(t, s) {
      forall i | 0 <= i < |u|
        ensures u[i].amount <= t.spare[u[i].edge]
      {
        UsageAmount(t, s, u[i].edge);
        AmountAt(u, i);
      }
    }
  }

  // ----- the answer -----

  function TotalCost(s: seq<Candidate>): nat {
    if s == [] then 0 else SatAdd(TotalCost(s[..|s| - 1]), s[|s| - 1].cost)
  }

  function LargestCost(s: seq<Candidate>): nat {
    if s == [] then 0 else Max(LargestCost(s[..|s| - 1]), s[|s| - 1].cost)
  }

  function Concatenated(s: seq<Candidate>): seq<nat> {
    if s == [] then [] else Concatenated(s[..|s| - 1]) + s[|s| - 1].edges
  }

  /** Smallest capacity left on the edges the answer touches. */
  function Headroom(t: Terms, u: seq<Use>): nat
    requires t.Valid() && Verified(t.capacity, u)
  {
    if u == [] then COST_CEILING
    else
      var last := u[|u| - 1];
      var left := if last.amount >= t.spare[last.edge] then 0 else t.spare[last.edge] - last.amount;
      Min(Headroom(t, u[..|u| - 1]), left)
  }

  /** Earlier candidates that are not failure-domain independent of c. */
  function ConflictsWith(s: seq<Candidate>, c: Candidate): nat {
    if s == [] then 0 else ConflictsWith(s[..|s| - 1], c) + (if Independent(s[|s| - 1], c) then 0 else 1)
  }

  function Conflicts(s: seq<Candidate>): nat {
    if s == [] then 0 else Conflicts(s[..|s| - 1]) + ConflictsWith(s[..|s| - 1], s[|s| - 1])
  }

  function BuildPathSet(t: Terms, chosen: seq<Candidate>): PathSet
    requires t.Valid() && AllInRange(t, chosen)
  {
    var paths := Sort(CandidateLess, chosen);
    assert AllInRange(t, paths) by { SortInRange(t, chosen); }
    var usage := Usage(t, paths);
    assert Verified(t.capacity, usage) by { UsageEdges(t, paths); }
    PathSet(paths, TotalCost(paths), LargestCost(paths), Headroom(t, usage),
            if t.diversity == Ignored then 0 else Conflicts(paths), usage, Concatenated(paths))
  }

  lemma {:induction false} SortInRange(t: Terms, chosen: seq<Candidate>)
    requires AllInRange(t, chosen)
    ensures AllInRange(t, Sort(CandidateLess, chosen))
  {
    CandidateOrder();
    SortKeeps(CandidateLess, chosen);
    var s := Sort(CandidateLess, chosen);
    forall i | 0 <= i < |s|
      ensures t.q.InRange(s[i].edges)
    {
      assert s[i] in multiset(chosen);
    }
  }

  /** The objective, level by level (src/planner.cpp:657-671). */
  predicate PathSetLess(a: PathSet, b: PathSet) {
    if a.totalCost != b.totalCost then a.totalCost < b.totalCost
    else if a.conflicts != b.conflicts then a.conflicts < b.conflicts
    else if a.maxPathCost != b.maxPathCost then a.maxPathCost < b.maxPathCost
    else if a.headroom != b.headroom then a.headroom > b.headroom
    else LexLess(a.signature, b.signature)
  }

  lemma PathSetOrder()
    ensures StrictWeak(PathSetLess)
  {
    forall a: PathSet, b: PathSet, c: PathSet
      ensures !PathSetLess(a, a)
      ensures PathSetLess(a, b) && PathSetLess(b, c) ==> PathSetLess(a, c)
      ensures PathSetLess(a, c) ==> PathSetLess(a, b) || PathSetLess(b, c)
    {
      LexTotal(a.signature, a.signature);
      LexTotal(a.signature, b.signature);
      LexTotal(b.signature, c.signature);
      LexTotal(a.signature, c.signature);
      if LexLess(a.signature, b.signature) && LexLess(b.signature, c.signature) {
        LexTransitive(a.signature, b.signature, c.signature);
      }
      if LexLess(c.signature, b.signature) && LexLess(b.signature, a.signature) {
        LexTransitive(c.signature, b.signature, a.signature);
      }
    }
  }
}
