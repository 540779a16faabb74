/** Choosing the sibling paths of one logical edge (src/planner.cpp:724-823). */
module SetEnumeration {
  import opened Paths
  import opened Finite
  import opened Sorting
  import opened Candidates
  import opened PathSets

  /** The candidate goes with everything chosen so far. */
  predicate GoesWith(t: Terms, chosen: seq<Candidate>, c: Candidate)
    requires AllInRange(t, chosen) && t.q.InRange(c.edges)
  {
    forall i | 0 <= i < |chosen| :: Compatible(t, chosen[i], c)
  }

  /** A full selection is offered when its own footprint fits the spare capacity. */
  ghost function Leaf(t: Terms, chosen: seq<Candidate>): seq<PathSet>
    requires t.Valid() && AllInRange(t, chosen)
  {
    var s := BuildPathSet(t, chosen);
    assert Verified(t.capacity, s.usage) by { BuiltUsage(t, chosen); }
    if FitsAlone(t, s.usage) then [s] else []
  }

  lemma BuiltUsage(t: Terms, chosen: seq<Candidate>)
    requires t.Valid() && AllInRange(t, chosen)
    ensures UsageOk(BuildPathSet(t, chosen).usage) && Verified(t.capacity, BuildPathSet(t, chosen).usage)
  {
    SortInRange(t, chosen);
    UsageEdges(t, Sort(CandidateLess, chosen));
  }

  /** The selections offered below a partial choice, in the order they are reached. */
  ghost function Offers(t: Terms, pool: seq<Candidate>, index: nat, chosen: seq<Candidate>): seq<PathSet>
    requires t.Valid() && AllInRange(t, pool) && AllInRange(t, chosen) && index <= |pool|
    decreases |pool| - index
  {
    if |chosen| == t.wanted then Leaf(t, chosen)
    else if index == |pool| then []
    else
      (if GoesWith(t, chosen, pool[index]) then Offers(t, pool, index + 1, chosen + [pool[index]]) else [])
      + Offers(t, pool, index + 1, chosen)
  }

  /** offer_set: ordered insertion, then drop the worst above the cap. */
  function Offer(best: seq<PathSet>, s: PathSet, cap: nat): seq<PathSet> {
    Take(Insert(PathSetLess, best, s), cap)
  }

  ghost function OfferAll(list: seq<PathSet>, cap: nat): seq<PathSet> {
    if list == [] then [] else Offer(OfferAll(list[..|list| - 1], cap), list[|list| - 1], cap)
  }

  /** Offering one by one with a cap keeps exactly the cap best of everything offered. */
  lemma {:induction false} KeepsTheBest(list: seq<PathSet>, cap: nat)
    ensures OfferAll(list, cap) == Take(Sort(PathSetLess, list), cap)
    decreases |list|
  {
    if list != [] {
      KeepsTheBest(list[..|list| - 1], cap);
      TakeInsert(PathSetLess, Sort(PathSetLess, list[..|list| - 1]), cap, list[|list| - 1]);
    }
  }

  /** Too few candidates are left to complete the selection (the cut of src/planner.cpp:772-775). */
  lemma {:induction false} TooFew(t: Terms, pool: seq<Candidate>, index: nat, chosen: seq<Candidate>)
    requires t.Valid() && AllInRange(t, pool) && AllInRange(t, chosen) && index <= |pool|
    requires |chosen| < t.wanted && |pool| - index < t.wanted - |chosen|
    ensures Offers(t, pool, index, chosen) == []
    decreases |pool| - index
  {
    if index < |pool| {
      TooFew(t, pool, index + 1, chosen);
      if GoesWith(t, chosen, pool[index]) {
        TooFew(t, pool, index + 1, chosen + [pool[index]]);
      }
    }
  }

  /** What has been offered is a prefix of the total; while nothing stopped the scan the rest completes it. */
  ghost predicate Progress(start: seq<PathSet>, offered: seq<PathSet>, rest: seq<PathSet>, total: seq<PathSet>,
      complete: bool) {
    start <= offered <= total && (complete ==> offered + rest == total)
  }

  lemma ProgressStep(start: seq<PathSet>, before: seq<PathSet>, branch: seq<PathSet>, rest: seq<PathSet>,
                     offered: seq<PathSet>, total: seq<PathSet>, complete: bool)
    requires Progress(start, before, branch + rest, total, true) && Grown(before, branch, offered, complete)
    ensures Progress(start, offered, rest, total, complete)
  {
    GrownWithin(before, branch, rest, offered, complete);
  }

  // ----- how many selections are considered -----

  /** Selections considered below a partial choice when nothing stops the search. */
  ghost function Considered(t: Terms, pool: seq<Candidate>, index: nat, chosen: seq<Candidate>): nat
    requires t.Valid() && AllInRange(t, pool) && AllInRange(t, chosen) && index <= |pool| && |chosen| <= t.wanted
    decreases |pool| - index, 2
  {
    if |chosen| == t.wanted then 1
    else if |pool| - index < t.wanted - |chosen| then 0
    else ConsideredFrom(t, pool, index, chosen)
  }

  ghost function ConsideredFrom(t: Terms, pool: seq<Candidate>, index: nat, chosen: seq<Candidate>): nat
    requires t.Valid() && AllInRange(t, pool) && AllInRange(t, chosen) && index <= |pool| && |chosen| < t.wanted
    decreases |pool| - index, 1
  {
    if index == |pool| then 0
    else ConsideredAt(t, pool, index, chosen) + ConsideredFrom(t, pool, index + 1, chosen)
  }

  /** A candidate that does not go with the choice counts once, otherwise everything below it counts. */
  ghost function ConsideredAt(t: Terms, pool: seq<Candidate>, i: nat, chosen: seq<Candidate>): nat
    requires t.Valid() && AllInRange(t, pool) && AllInRange(t, chosen) && i < |pool| && |chosen| < t.wanted
    decreases |pool| - i, 0
  {
    if GoesWith(t, chosen, pool[i]) then Considered(t, pool, i + 1, chosen + [pool[i]]) else 1
  }

  /** Selections considered below a choice with n candidates left, at most. */
  function SelectBound(n: nat): nat {
    if n == 0 then 1 else 2 * SelectBound(n - 1)
  }

  lemma {:induction false} ConsideredBounded(t: Terms, pool: seq<Candidate>, index: nat, chosen: seq<Candidate>)
    requires t.Valid() && AllInRange(t, pool) && AllInRange(t, chosen) && index <= |pool| && |chosen| <= t.wanted
    ensures Considered(t, pool, index, chosen) <= SelectBound(|pool| - index)
    ensures |chosen| < t.wanted ==> ConsideredFrom(t, pool, index, chosen) <= SelectBound(|pool| - index) - 1
    decreases |pool| - index
  {
    SelectBoundGrows(0, |pool| - index);
    if index < |pool| && |chosen| < t.wanted {
      ConsideredBounded(t, pool, index + 1, chosen);
      SelectBoundGrows(0, |pool| - index - 1);
      if GoesWith(t, chosen, pool[index]) {
        ConsideredBounded(t, pool, index + 1, chosen + [pool[index]]);
      }
      assert ConsideredAt(t, pool, index, chosen) <= SelectBound(|pool| - index - 1);
    }
  }

  lemma OffersStep(t: Terms, pool: seq<Candidate>, i: nat, chosen: seq<Candidate>)
    requires t.Valid() && AllInRange(t, pool) && AllInRange(t, chosen) && i < |pool| && |chosen| < t.wanted
    ensures Offers(t, pool, i, chosen) == if GoesWith(t, chosen, pool[i])
            then Offers(t, pool, i + 1, chosen + [pool[i]]) + Offers(t, pool, i + 1, chosen)
            else Offers(t, pool, i + 1, chosen)
  {
    if !GoesWith(t, chosen, pool[i]) {
      assert [] + Offers(t, pool, i + 1, chosen) == Offers(t, pool, i + 1, chosen);
    }
  }

  /** One path is wanted, and each candidate is affordable by itself. */
  ghost predicate EachServes(t: Terms, pool: seq<Candidate>)
    requires t.Valid() && AllInRange(t, pool)
  {
    t.wanted == 1 && forall i {:trigger pool[i]} | 0 <= i < |pool| :: |Leaf(t, [pool[i]])| == 1
  }

  lemma {:induction false} LastChoice(t: Terms, pool: seq<Candidate>, i: nat)
    requires t.Valid() && AllInRange(t, pool) && i < |pool| && EachServes(t, pool)
    ensures GoesWith(t, [], pool[i]) && |Offers(t, pool, i + 1, [] + [pool[i]])| == 1
    ensures Considered(t, pool, i + 1, [] + [pool[i]]) == ConsideredAt(t, pool, i, []) == 1
  {
    assert [] + [pool[i]] == [pool[i]];
  }

  /** Counters before and after: never past the budget unless they started there, and exact unless limited. */
  ghost predicate Counted(before: nat, after: nat, count: nat, budget: nat, limited: bool) {
    && before <= after <= before + count && (before <= budget ==> after <= budget)
    && (limited ==> after >= budget) && (!limited ==> after == before + count)
  }

  lemma {:induction false} SelectBoundGrows(n: nat, m: nat)
    requires n <= m
    ensures SelectBound(n) <= SelectBound(m)
  {
    if n < m {
      SelectBoundGrows(n, m - 1);
    }
  }

  class SetSearch {
    var best: seq<PathSet>
    var accepted: nat
    var considered: nat
    var stepLimited: bool
    ghost var offered: seq<PathSet>

    constructor ()
      ensures best == [] && accepted == 0 && considered == 0 && !stepLimited && offered == []
    {
      best, accepted, considered, stepLimited, offered := [], 0, 0, false, [];
    }

    /** `best` holds what the cap retains of everything offered so far. */
    ghost predicate Consistent(cap: nat)
      reads this`best, this`accepted, this`offered
    {
      best == OfferAll(offered, cap) && accepted == |offered|
    }

    method OfferSet(s: PathSet, cap: nat)
      requires Consistent(cap)
      modifies this`best, this`accepted, this`offered
      ensures Consistent(cap) && offered == old(offered) + [s]
    {
      accepted := accepted + 1;
      best := Offer(best, s, cap);
      offered := offered + [s];
      assert offered[..|offered| - 1] == old(offered);
    }

    /** A completed selection (src/planner.cpp:751-768). */
    method Complete(t: Terms, chosen: seq<Candidate>, cap: nat)
      requires t.Valid() && AllInRange(t, chosen) && Consistent(cap)
      modifies this`best, this`accepted, this`offered, this`considered
      ensures Consistent(cap) && offered == old(offered) + Leaf(t, chosen) && considered == old(considered) + 1
    {
      considered := considered + 1;
      BuiltUsage(t, chosen);
      var s := BuildPathSet(t, chosen);
      if FitsAlone(t, s.usage) {
        OfferSet(s, cap);
      }
    }

    /**
      The recursive k-subset search. Unless it was step limited it offers every selection exactly once, in order;
      otherwise it has offered a prefix of them.
     */
    method Enumerate(t: Terms, pool: seq<Candidate>, index: nat, chosen: seq<Candidate>, cap: nat, budget: nat)
      requires t.Valid() && AllInRange(t, pool) && AllInRange(t, chosen) && index <= |pool| && |chosen| <= t.wanted
      requires Consistent(cap) && !stepLimited
      modifies this
      ensures Consistent(cap)
      ensures Grown(old(offered), Offers(t, pool, index, chosen), offered, !stepLimited)
      ensures Counted(old(considered), considered, Considered(t, pool, index, chosen), budget, stepLimited)
      ensures |chosen| == t.wanted && old(considered) < budget ==> !stepLimited
      ensures EachServes(t, pool) && chosen == [] ==>
                |offered| - |old(offered)| == considered - old(considered)
      decreases |pool| - index, 3
    {
      if considered >= budget {
        stepLimited := true;
        return;
      }
      if |chosen| == t.wanted {
        Complete(t, chosen, cap);
        return;
      }
      if |pool| - index < t.wanted - |chosen| {
        TooFew(t, pool, index, chosen);
        return;
      }
      ghost var all := Offers(t, pool, index, chosen);
      Scan(t, pool, index, chosen, cap, budget, offered, offered + all);
    }

    /** The candidate loop (src/planner.cpp:776-822). */
    method Scan(t: Terms, pool: seq<Candidate>, index: nat, chosen: seq<Candidate>, cap: nat, budget: nat,
                ghost start: seq<PathSet>, ghost total: seq<PathSet>)
      requires t.Valid() && AllInRange(t, pool) && AllInRange(t, chosen) && index <= |pool| && |chosen| < t.wanted
      requires Consistent(cap) && !stepLimited
      requires Progress(start, offered, Offers(t, pool, index, chosen), total, true)
      modifies this
      ensures Consistent(cap)
      ensures Progress(start, offered, [], total, !stepLimited)
      ensures Counted(old(considered), considered, ConsideredFrom(t, pool, index, chosen), budget, stepLimited)
      ensures EachServes(t, pool) && chosen == [] ==>
                |offered| - |old(offered)| == considered - old(considered)
      decreases |pool| - index, 2
    {
      var i := index;
      ghost var counted: nat := 0;
      while i < |pool|
        invariant index <= i <= |pool| && Consistent(cap)
        invariant counted + ConsideredFrom(t, pool, i, chosen) == ConsideredFrom(t, pool, index, chosen)
        invariant Counted(old(considered), considered, counted, budget, stepLimited)
        invariant Progress(start, offered, Offers(t, pool, i, chosen), total, !stepLimited)
        invariant EachServes(t, pool) && chosen == [] ==>
                    |offered| - |old(offered)| == considered - old(considered)
      {
        if considered >= budget {
          stepLimited := true;
          return;
        }
        Advance(t, pool, i, chosen, cap, budget, start, total);
        counted := counted + ConsideredAt(t, pool, i, chosen);
        i := i + 1;
      }
    }

    /** One turn of the candidate loop (src/planner.cpp:781-821). */
    method Advance(t: Terms, pool: seq<Candidate>, i: nat, chosen: seq<Candidate>, cap: nat, budget: nat,
                   ghost start: seq<PathSet>, ghost total: seq<PathSet>)
      requires t.Valid() && AllInRange(t, pool) && AllInRange(t, chosen) && i < |pool| && |chosen| < t.wanted
      requires Consistent(cap) && !stepLimited
      requires Progress(start, offered, Offers(t, pool, i, chosen), total, true)
      modifies this
      ensures Consistent(cap)
      ensures Progress(start, offered, Offers(t, pool, i + 1, chosen), total, !stepLimited)
      ensures old(considered) < budget ==>
                Counted(old(considered), considered, ConsideredAt(t, pool, i, chosen), budget, stepLimited)
      ensures EachServes(t, pool) && chosen == [] && old(considered) < budget ==>
                |offered| - |old(offered)| == considered - old(considered)
      decreases |pool| - i, 1
    {
      ghost var rest := Offers(t, pool, i + 1, chosen);
      OffersStep(t, pool, i, chosen);
      if !GoesWith(t, chosen, pool[i]) {
        considered := considered + 1;
        return;
      }
      ghost var before := offered;
      ghost var branch := Offers(t, pool, i + 1, chosen + [pool[i]]);
      Follow(t, pool, i, chosen, cap, budget);
      ProgressStep(start, before, branch, rest, offered, total, !stepLimited);
    }

    /** Everything below one more candidate. */
    method Follow(t: Terms, pool: seq<Candidate>, i: nat, chosen: seq<Candidate>, cap: nat, budget: nat)
      requires t.Valid() && AllInRange(t, pool) && AllInRange(t, chosen) && i < |pool| && |chosen| < t.wanted
      requires Consistent(cap) && !stepLimited && GoesWith(t, chosen, pool[i])
      modifies this
      ensures Consistent(cap)
      ensures Grown(old(offered), Offers(t, pool, i + 1, chosen + [pool[i]]), offered, !stepLimited)
      ensures Counted(old(considered), considered, ConsideredAt(t, pool, i, chosen), budget, stepLimited)
      ensures EachServes(t, pool) && chosen == [] && old(considered) < budget ==>
                |offered| - |old(offered)| == considered - old(considered)
      decreases |pool| - i, 0
    {
      if EachServes(t, pool) && chosen == [] {
        LastChoice(t, pool, i);
      }
      Enumerate(t, pool, i + 1, chosen + [pool[i]], cap, budget);
    }
  }
}
