/** What the set enumeration must find, stated without reference to how it searches. */
module Families {
  import opened Saturating
  import opened Paths
  import opened Finite
  import opened Sorting
  import opened Candidates
  import opened PathSets
  import opened SetEnumeration

  ghost predicate Ordered(s: seq<Candidate>) {
    forall i, j | 0 <= i < j < |s| :: CandidateLess(s[i], s[j])
  }

  /** A materialised compliant path. */
  ghost predicate Good(t: Terms, c: Candidate)
    requires t.Valid()
  {
    t.q.Compliant(c.edges) && c == Materialise(t, c.edges)
  }

  ghost predicate AllGood(t: Terms, s: seq<Candidate>)
    requires t.Valid()
  {
    AllInRange(t, s) && forall i {:trigger Good(t, s[i])} | 0 <= i < |s| :: Good(t, s[i])
  }

  ghost predicate PairwiseCompatible(t: Terms, s: seq<Candidate>)
    requires AllInRange(t, s)
  {
    forall i, j {:trigger Compatible(t, s[i], s[j])} | 0 <= i < j < |s| :: Compatible(t, s[i], s[j])
  }

  /** A complete set of siblings in canonical order: the right number of compliant, compatible, affordable paths. */
  ghost predicate Family(t: Terms, s: seq<Candidate>)
    requires t.Valid()
  {
    |s| == t.wanted && Ordered(s) && AllGood(t, s) && PairwiseCompatible(t, s) && Carried(t, s)
  }

  /** s is the objective record of a family. */
  ghost predicate IsAnswer(t: Terms, s: PathSet)
    requires t.Valid()
  {
    Family(t, s.paths) && s == BuildPathSet(t, s.paths)
  }

  lemma {:induction false} OrderedIsSorted(s: seq<Candidate>)
    requires Ordered(s)
    ensures Sort(CandidateLess, s) == s
  {
    CandidateOrder();
    SortKeeps(CandidateLess, s);
    forall i, j | 0 <= i < j < |s|
      ensures !CandidateLess(s[j], s[i])
    {
      Asymmetric(CandidateLess, s[i], s[j]);
    }
    SortedUnique(CandidateLess, s, Sort(CandidateLess, s));
  }

  lemma {:induction false} BuiltFromOrdered(t: Terms, s: seq<Candidate>)
    requires t.Valid() && AllInRange(t, s) && Ordered(s)
    ensures BuildPathSet(t, s).paths == s && BuildPathSet(t, s).usage == Usage(t, s)
  {
    OrderedIsSorted(s);
  }

  /** Every candidate chosen so far precedes every candidate still to come, and all are pairwise compatible. */
  ghost predicate Partial(t: Terms, pool: seq<Candidate>, index: nat, chosen: seq<Candidate>)
    requires t.Valid()
  {
    && AllGood(t, pool) && Ordered(pool) && index <= |pool|
    && AllGood(t, chosen) && Ordered(chosen) && PairwiseCompatible(t, chosen)
    && forall i, j | 0 <= i < |chosen| && index <= j < |pool| :: CandidateLess(chosen[i], pool[j])
  }

  lemma PartialStep(t: Terms, pool: seq<Candidate>, index: nat, chosen: seq<Candidate>)
    requires t.Valid() && Partial(t, pool, index, chosen) && index < |pool| && GoesWith(t, chosen, pool[index])
    ensures Partial(t, pool, index + 1, chosen + [pool[index]])
  {
    var more := chosen + [pool[index]];
    forall i | 0 <= i < |more|
      ensures Good(t, more[i])
    {
      assert Good(t, if i < |chosen| then chosen[i] else pool[index]);
    }
    forall i, j | 0 <= i < j < |more|
      ensures Compatible(t, more[i], more[j])
    {
      assert j < |chosen| ==> Compatible(t, chosen[i], chosen[j]);
    }
  }

  /** Everything offered is an answer that extends the partial choice by candidates still to come. */
  lemma {:induction false} OffersSound(t: Terms, pool: seq<Candidate>, index: nat, chosen: seq<Candidate>, s: PathSet)
    requires t.Valid() && t.demand <= COST_CEILING && Partial(t, pool, index, chosen) && |chosen| <= t.wanted
    requires s in Offers(t, pool, index, chosen)
    ensures IsAnswer(t, s) && chosen <= s.paths
    ensures |chosen| < t.wanted ==> s.paths[|chosen|] in pool[index..]
    ensures forall c | c in s.paths :: c in chosen || c in pool
    decreases |pool| - index
  {
    if |chosen| == t.wanted {
      BuiltFromOrdered(t, chosen);
      UsageEdges(t, chosen);
      FitsIffCarried(t, chosen);
    } else {
      var with := if GoesWith(t, chosen, pool[index]) then Offers(t, pool, index + 1, chosen + [pool[index]]) else [];
      if s in with {
        PartialStep(t, pool, index, chosen);
        OffersSound(t, pool, index + 1, chosen + [pool[index]], s);
        assert s.paths[|chosen|] == (chosen + [pool[index]])[|chosen|];
        assert pool[index..][0] == pool[index];
      } else {
        OffersSound(t, pool, index + 1, chosen, s);
        assert pool[index..][1..] == pool[index + 1..];
      }
    }
  }

  /** Every family drawn from the pool is offered. */
  lemma {:induction false} OffersComplete(t: Terms, pool: seq<Candidate>, index: nat, chosen: seq<Candidate>,
      rest: seq<Candidate>)
    requires t.Valid() && t.demand <= COST_CEILING && Partial(t, pool, index, chosen)
    requires Family(t, chosen + rest)
    requires forall k | 0 <= k < |rest| :: rest[k] in pool[index..]
    ensures BuildPathSet(t, chosen + rest) in Offers(t, pool, index, chosen)
    decreases |pool| - index
  {
    var all := chosen + rest;
    if rest == [] {
      assert all == chosen;
      BuiltFromOrdered(t, chosen);
      UsageEdges(t, chosen);
      FitsIffCarried(t, chosen);
    } else {
      var k :| 0 <= k < |pool[index..]| && pool[index..][k] == rest[0];
      assert rest[0] == pool[index + k] && all[|chosen|] == rest[0];
      if k == 0 {
        var next := rest[1..];
        assert all == (chosen + [pool[index]]) + next;
        forall i | 0 <= i < |chosen|
          ensures Compatible(t, chosen[i], pool[index])
        {
          assert all[i] == chosen[i];
          assert Compatible(t, all[i], all[|chosen|]);
        }
        PartialStep(t, pool, index, chosen);
        forall m | 0 <= m < |next|
          ensures next[m] in pool[index + 1..]
        {
          LaterInPool(pool, index, all[|chosen|], all[|chosen| + 1 + m]);
        }
        OffersComplete(t, pool, index + 1, chosen + [pool[index]], next);
      } else {
        forall m | 0 <= m < |rest|
          ensures rest[m] in pool[index + 1..]
        {
          assert all[|chosen| + m] == rest[m];
          CandidateOrder();
          if m == 0 {
            assert pool[index + 1..][k - 1] == rest[0];
          } else {
            assert CandidateLess(pool[index], rest[0]) && CandidateLess(rest[0], rest[m]);
            LaterInPool(pool, index, pool[index], rest[m]);
          }
        }
        OffersComplete(t, pool, index + 1, chosen, rest);
      }
    }
  }

  lemma LaterInPool(pool: seq<Candidate>, index: nat, a: Candidate, b: Candidate)
    requires index < |pool| && a == pool[index] && CandidateLess(a, b) && b in pool[index..]
    ensures b in pool[index + 1..]
  {
    var m :| 0 <= m < |pool[index..]| && pool[index..][m] == b;
    LexTotal(a.edges, a.edges);
    assert m != 0;
    assert pool[index + 1..][m - 1] == b;
  }

  /** No family is offered twice. */
  lemma {:induction false} OffersOnce(t: Terms, pool: seq<Candidate>, index: nat, chosen: seq<Candidate>)
    requires t.Valid() && t.demand <= COST_CEILING && Partial(t, pool, index, chosen) && |chosen| <= t.wanted
    ensures Injective(Offers(t, pool, index, chosen))
    decreases |pool| - index
  {
    if |chosen| < t.wanted && index < |pool| {
      var without := Offers(t, pool, index + 1, chosen);
      OffersOnce(t, pool, index + 1, chosen);
      if GoesWith(t, chosen, pool[index]) {
        PartialStep(t, pool, index, chosen);
        OffersOnce(t, pool, index + 1, chosen + [pool[index]]);
        var with := Offers(t, pool, index + 1, chosen + [pool[index]]);
        forall i, j | 0 <= i < |with| && 0 <= j < |without|
          ensures with[i] != without[j]
        {
          OffersSound(t, pool, index + 1, chosen + [pool[index]], with[i]);
          OffersSound(t, pool, index + 1, chosen, without[j]);
          assert with[i].paths[|chosen|] == (chosen + [pool[index]])[|chosen|];
          var m :| 0 <= m < |pool[index + 1..]| && pool[index + 1..][m] == without[j].paths[|chosen|];
          LexTotal(pool[index].edges, pool[index].edges);
          assert CandidateLess(pool[index], pool[index + 1 + m]);
        }
        InjectiveConcat(with, without);
      } else {
        assert Offers(t, pool, index, chosen) == without;
      }
    }
  }

  lemma InjectiveConcat<T>(a: seq<T>, b: seq<T>)
    requires Injective(a) && Injective(b)
    requires forall i, j | 0 <= i < |a| && 0 <= j < |b| :: a[i] != b[j]
    ensures Injective(a + b)
  {
  }
}
