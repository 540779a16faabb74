/**
  Lists brought into canonical order: sorted by an identifier without repetition, or sorted with repetitions removed.
 */
module CanonicalLists {
  import opened Candidates
  import opened Finite
  import opened Sorting
  import opened Thinning
  import opened Collectives
  import opened CollectiveBuild

  // ----- sorted by key, repeated keys refused -----

  function ByKey<T>(key: T -> nat): (T, T) -> bool {
    (a, b) => key(a) < key(b)
  }

  lemma ByKeyOrder<T(!new)>(key: T -> nat)
    ensures StrictWeak(ByKey(key))
  {
  }

  /** Neighbours with one key. */
  predicate KeyRepeats<T>(key: T -> nat, s: seq<T>) {
    exists i | 1 <= i < |s| :: key(s[i - 1]) == key(s[i])
  }

  /** Strictly ascending keys. */
  ghost predicate Ascending<T>(key: T -> nat, s: seq<T>) {
    forall i, j | 0 <= i < j < |s| :: key(s[i]) < key(s[j])
  }

  /** Sorting and testing neighbours, as the builders do. */
  function Ranked<T>(key: T -> nat, s: seq<T>): Option<seq<T>> {
    var r := Sort(ByKey(key), s);
    if KeyRepeats(key, r) then None else Some(r)
  }

  lemma {:induction false} NoRepeatAscends<T>(key: T -> nat, s: seq<T>, i: nat, j: nat)
    requires Sorted(ByKey(key), s) && !KeyRepeats(key, s) && i < j < |s|
    ensures key(s[i]) < key(s[j])
    decreases j - i
  {
    assert !ByKey(key)(s[j], s[j - 1]) && key(s[j - 1]) != key(s[j]);
    if i < j - 1 {
      NoRepeatAscends(key, s, i, j - 1);
    }
  }

  /** An accepted list is the declared one in strictly ascending order. */
  lemma {:induction false} RankedAscends<T(!new)>(key: T -> nat, s: seq<T>)
    requires Ranked(key, s).Some?
    ensures Ascending(key, Ranked(key, s).value) && multiset(Ranked(key, s).value) == multiset(s)
  {
    ByKeyOrder(key);
    SortKeeps(ByKey(key), s);
    var r := Sort(ByKey(key), s);
    forall i, j | 0 <= i < j < |r|
      ensures key(r[i]) < key(r[j])
    {
      NoRepeatAscends(key, r, i, j);
    }
  }

  lemma {:induction false} AscendingIsRanked<T(!new)>(key: T -> nat, s: seq<T>, r: seq<T>)
    requires Ascending(key, r) && multiset(r) == multiset(s)
    ensures Ranked(key, s) == Some(r)
  {
    ByKeyOrder(key);
    SortKeeps(ByKey(key), s);
    AscendingSeparates(key, r);
    SortedUnique(ByKey(key), r, Sort(ByKey(key), s));
    assert forall i | 1 <= i < |r| :: key(r[i - 1]) != key(r[i]);
  }

  lemma {:induction false} AscendingSeparates<T>(key: T -> nat, r: seq<T>)
    requires Ascending(key, r)
    ensures Sorted(ByKey(key), r) && Separates(ByKey(key), r)
  {
    forall x, y | x in r && y in r && x != y
      ensures key(x) < key(y) || key(y) < key(x)
    {
      var i :| 0 <= i < |r| && r[i] == x;
      var j :| 0 <= j < |r| && r[j] == y;
    }
  }

  /** The list is accepted exactly when no two entries share a key. */
  lemma {:induction false} RankedIff<T(!new)>(key: T -> nat, s: seq<T>)
    ensures Ranked(key, s).Some? <==> Injective(Map(key, s))
  {
    ByKeyOrder(key);
    SortKeeps(ByKey(key), s);
    var r := Sort(ByKey(key), s);
    MapPermutes(key, r, s);
    if Ranked(key, s).Some? {
      RankedAscends(key, s);
      DistinctTransfers(Map(key, r), Map(key, s));
    }
    if Injective(Map(key, s)) {
      DistinctTransfers(Map(key, s), Map(key, r));
      forall i | 1 <= i < |r|
        ensures key(r[i - 1]) != key(r[i])
      {
        assert Map(key, r)[i - 1] != Map(key, r)[i];
      }
    }
  }

  /** The order of declaration does not matter. */
  lemma {:induction false} RankedAgrees<T(!new)>(key: T -> nat, a: seq<T>, b: seq<T>)
    requires multiset(a) == multiset(b)
    ensures Ranked(key, a) == Ranked(key, b)
  {
    if Ranked(key, a).Some? {
      RankedAscends(key, a);
      AscendingIsRanked(key, b, Ranked(key, a).value);
    } else if Ranked(key, b).Some? {
      RankedAscends(key, b);
      AscendingIsRanked(key, a, Ranked(key, b).value);
    }
  }

  // ----- sorted, repetitions removed -----

  function SortUnique(s: seq<nat>): seq<nat> {
    Thin(Same, Sort(Less, s))
  }

  ghost predicate SameSet(a: seq<nat>, b: seq<nat>) {
    forall x :: x in a <==> x in b
  }

  lemma {:induction false} SortUniqueExact(s: seq<nat>)
    ensures SameSet(SortUnique(s), s) && |SortUnique(s)| <= |s|
    ensures forall i, j | 0 <= i < j < |SortUnique(s)| :: SortUnique(s)[i] < SortUnique(s)[j]
  {
    var t := Sort(Less, s);
    LessOrder();
    SortKeeps(Less, s);
    SameElements(t, s);
    ThinNumbers(t);
    ThinShorter(Same, t);
    forall x
      ensures x in SortUnique(s) <==> x in s
    {
      assert x in Thin(Same, t) <==> x in t;
    }
  }

  /** Only the set of entries matters. */
  lemma {:induction false} SortUniqueAgrees(a: seq<nat>, b: seq<nat>)
    requires SameSet(a, b)
    ensures SortUnique(a) == SortUnique(b)
  {
    SortUniqueExact(a);
    SortUniqueExact(b);
    var x, y := SortUnique(a), SortUnique(b);
    assert forall i, j | 0 <= i < j < |x| :: Less(x[i], x[j]);
    assert forall i, j | 0 <= i < j < |y| :: Less(y[i], y[j]);
    StrictUnique(Less, x, y);
  }
}
