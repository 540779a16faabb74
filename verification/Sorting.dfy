/** Ordered insertion and sorting under a strict weak order, as std::lower_bound and std::sort use it. */
module Sorting {

  ghost predicate StrictWeak<T(!new)>(less: (T, T) -> bool) {
    && (forall x :: !less(x, x))
    && (forall x, y, z :: less(x, y) && less(y, z) ==> less(x, z))
    && (forall x, y, z :: less(x, z) ==> less(x, y) || less(y, z))
  }

  ghost predicate Sorted<T>(less: (T, T) -> bool, s: seq<T>) {
    forall i, j | 0 <= i < j < |s| :: !less(s[j], s[i])
  }

  /** Position of the first element not below x. */
  function LowerBound<T>(less: (T, T) -> bool, s: seq<T>, x: T): (k: nat)
    ensures k <= |s|
    ensures forall i | 0 <= i < k :: less(s[i], x)
    ensures k < |s| ==> !less(s[k], x)
  {
    if s == [] || !less(s[0], x) then 0 else 1 + LowerBound(less, s[1..], x)
  }

  function Insert<T>(less: (T, T) -> bool, s: seq<T>, x: T): seq<T> {
    var k := LowerBound(less, s, x);
    s[..k] + [x] + s[k..]
  }

  function Sort<T>(less: (T, T) -> bool, s: seq<T>): seq<T> {
    if s == [] then [] else Insert(less, Sort(less, s[..|s| - 1]), s[|s| - 1])
  }

  lemma InsertMultiset<T>(less: (T, T) -> bool, s: seq<T>, x: T)
    ensures multiset(Insert(less, s, x)) == multiset(s) + multiset{x}
  {
    var k := LowerBound(less, s, x);
    assert s == s[..k] + s[k..];
  }

  lemma InsertSorted<T(!new)>(less: (T, T) -> bool, s: seq<T>, x: T)
    requires StrictWeak(less) && Sorted(less, s)
    ensures Sorted(less, Insert(less, s, x))
  {
    var k := LowerBound(less, s, x);
    var r := Insert(less, s, x);
    assert forall i | 0 <= i < |r| :: r[i] == if i < k then s[i] else if i == k then x else s[i - 1];
    forall i, j | 0 <= i < j < |r|
      ensures !less(r[j], r[i])
    {
      if i == k {
        NotBelow(less, s, k, j - 1, x);
      } else if j == k {
        Asymmetric(less, s[i], x);
      }
    }
  }

  lemma NotBelow<T(!new)>(less: (T, T) -> bool, s: seq<T>, k: nat, j: nat, x: T)
    requires StrictWeak(less) && Sorted(less, s) && k <= j < |s| && !less(s[k], x)
    ensures !less(s[j], x)
  {
    var y, z := s[j], s[k];
    assert less(y, x) ==> less(y, z) || less(z, x);
  }

  lemma Asymmetric<T(!new)>(less: (T, T) -> bool, x: T, y: T)
    requires StrictWeak(less) && less(x, y)
    ensures !less(y, x)
  {
    assert less(y, x) ==> less(x, x);
  }

  lemma SnocMultiset<T>(s: seq<T>, x: T)
    ensures multiset(s + [x]) == multiset(s) + multiset{x}
  {
  }

  lemma {:induction false} SortPermutes<T>(less: (T, T) -> bool, s: seq<T>)
    ensures multiset(Sort(less, s)) == multiset(s)
    decreases |s|
  {
    if s != [] {
      var init, x := s[..|s| - 1], s[|s| - 1];
      SortPermutes(less, init);
      InsertMultiset(less, Sort(less, init), x);
      SnocMultiset(init, x);
      assert s == init + [x];
    }
  }

  lemma {:induction false} SortOrders<T(!new)>(less: (T, T) -> bool, s: seq<T>)
    requires StrictWeak(less)
    ensures Sorted(less, Sort(less, s))
    decreases |s|
  {
    if s != [] {
      SortOrders(less, s[..|s| - 1]);
      InsertSorted(less, Sort(less, s[..|s| - 1]), s[|s| - 1]);
    }
  }

  lemma {:induction false} SortKeeps<T(!new)>(less: (T, T) -> bool, s: seq<T>)
    requires StrictWeak(less)
    ensures Sorted(less, Sort(less, s)) && multiset(Sort(less, s)) == multiset(s)
  {
    SortPermutes(less, s);
    SortOrders(less, s);
  }

  /** Any two different elements are ordered one way or the other. */
  ghost predicate Separates<T>(less: (T, T) -> bool, s: seq<T>) {
    forall x, y | x in s && y in s && x != y :: less(x, y) || less(y, x)
  }

  /** The head of a sorted sequence is below none of its elements. */
  lemma SameHead<T>(less: (T, T) -> bool, a: seq<T>, b: seq<T>)
    requires Sorted(less, a) && Sorted(less, b) && a != [] && b != []
    requires a[0] in b && b[0] in a && Separates(less, a)
    ensures a[0] == b[0]
  {
    var i :| 0 <= i < |b| && b[i] == a[0];
    var j :| 0 <= j < |a| && a[j] == b[0];
    assert i > 0 ==> !less(b[i], b[0]);
    assert j > 0 ==> !less(a[j], a[0]);
  }

  lemma TailMultiset<T>(s: seq<T>)
    requires s != []
    ensures multiset(s[1..]) == multiset(s) - multiset{s[0]}
  {
    assert s == [s[0]] + s[1..];
  }

  /** Sorted order is unique when the order separates the elements, so it cannot depend on the input order. */
  lemma {:induction false} SortedUnique<T>(less: (T, T) -> bool, a: seq<T>, b: seq<T>)
    requires Sorted(less, a) && Sorted(less, b) && multiset(a) == multiset(b) && Separates(less, a)
    ensures a == b
    decreases |a|
  {
    assert |a| == |multiset(a)| == |multiset(b)| == |b|;
    if a != [] {
      assert a[0] in multiset(b) && b[0] in multiset(a);
      SameHead(less, a, b);
      TailMultiset(a);
      TailMultiset(b);
      SortedUnique(less, a[1..], b[1..]);
    }
  }

  function Take<T>(s: seq<T>, cap: nat): seq<T> {
    if |s| <= cap then s else s[..cap]
  }

  lemma {:induction false} LowerBoundTake<T>(less: (T, T) -> bool, s: seq<T>, cap: nat, x: T)
    ensures LowerBound(less, Take(s, cap), x) == if LowerBound(less, s, x) <= |Take(s, cap)| then LowerBound(less, s, x)
            else |Take(s, cap)|
    decreases |s|
  {
    if s != [] && cap > 0 && less(s[0], x) {
      assert Take(s, cap)[1..] == Take(s[1..], cap - 1);
      LowerBoundTake(less, s[1..], cap - 1, x);
    }
  }

  /** Keeping only the best `cap` before an insertion loses nothing among the best `cap` after it. */
  lemma {:induction false} TakeInsert<T>(less: (T, T) -> bool, s: seq<T>, cap: nat, x: T)
    ensures Take(Insert(less, Take(s, cap), x), cap) == Take(Insert(less, s, x), cap)
  {
    if |s| > cap {
      LowerBoundTake(less, s, cap, x);
      var k := LowerBound(less, s, x);
      var a, b := Insert(less, Take(s, cap), x), Insert(less, s, x);
      forall i | 0 <= i < cap
        ensures a[i] == b[i]
      {
        InsertAt(less, s, x, i);
        InsertAt(less, s[..cap], x, i);
      }
      assert a[..cap] == b[..cap];
    }
  }

  lemma {:induction false} InsertAt<T>(less: (T, T) -> bool, s: seq<T>, x: T, i: nat)
    requires i <= |s|
    ensures var k := LowerBound(less, s, x);
            |Insert(less, s, x)| == |s| + 1 && Insert(less, s, x)[i] == if i < k then s[i] else if i == k then x
                else s[i - 1]
  {
  }
}
