/** Counting facts shared by the searches. */
module Finite {

  ghost predicate Injective<T>(s: seq<T>) {
    forall i, j | 0 <= i < j < |s| :: s[i] != s[j]
  }

  /** Pigeonhole: distinct numbers below n are at most n many. */
  lemma {:induction false} DistinctBelow(s: seq<nat>, n: nat)
    requires Injective(s)
    requires forall i | 0 <= i < |s| :: s[i] < n
    ensures |s| <= n
    decreases n
  {
    if s != [] {
      assert 0 <= s[0] < n;
      if k :| 0 <= k < |s| && s[k] == n - 1 {
        DistinctBelow(s[..k] + s[k + 1..], n - 1);
      } else {
        DistinctBelow(s, n - 1);
      }
    }
  }

  /** `after` extends `before` by a prefix of `all`, and by all of it when nothing stopped the scan. */
  ghost predicate Grown<T>(before: seq<T>, all: seq<T>, after: seq<T>, complete: bool) {
    before <= after && after <= before + all && (complete ==> after == before + all)
  }

  lemma GrownStep<T>(a: seq<T>, x: seq<T>, b: seq<T>, y: seq<T>, c: seq<T>, complete: bool)
    requires b == a + x && Grown(b, y, c, complete)
    ensures Grown(a, x + y, c, complete)
  {
    Assoc(a, x, y);
  }

  lemma GrownWiden<T>(a: seq<T>, x: seq<T>, y: seq<T>, b: seq<T>)
    requires Grown(a, x, b, false)
    ensures Grown(a, x + y, b, false)
  {
    Assoc(a, x, y);
  }

  lemma GrownWithin<T>(a: seq<T>, x: seq<T>, rest: seq<T>, b: seq<T>, complete: bool)
    requires Grown(a, x, b, complete)
    ensures a <= b <= a + (x + rest)
    ensures complete ==> b + rest == a + (x + rest)
  {
    Assoc(a, x, rest);
  }

  lemma Assoc<T>(a: seq<T>, b: seq<T>, c: seq<T>)
    ensures (a + b) + c == a + (b + c)
  {
  }

  /** Reordering keeps elements distinct. */
  lemma {:induction false} DistinctTransfers<T>(a: seq<T>, b: seq<T>)
    requires multiset(a) == multiset(b) && Injective(a)
    ensures Injective(b)
  {
    forall i, j | 0 <= i < j < |b|
      ensures b[i] != b[j]
    {
      if b[i] == b[j] {
        CountedTwice(b, i, j);
        CountedOnce(a, b[i]);
      }
    }
  }

  lemma CountedTwice<T>(s: seq<T>, i: nat, j: nat)
    requires i < j < |s| && s[i] == s[j]
    ensures multiset(s)[s[i]] >= 2
  {
    assert s == s[..i] + [s[i]] + s[i + 1..j] + [s[j]] + s[j + 1..];
  }

  lemma {:induction false} CountedOnce<T>(s: seq<T>, x: T)
    requires Injective(s)
    ensures multiset(s)[x] <= 1
    decreases |s|
  {
    if s != [] {
      CountedOnce(s[1..], x);
      assert s == [s[0]] + s[1..];
      if x == s[0] {
        assert x !in s[1..];
      }
    }
  }

  lemma {:induction false} SameElements<T>(a: seq<T>, b: seq<T>)
    requires multiset(a) == multiset(b)
    ensures |a| == |b| && forall x :: x in a <==> x in b
  {
    assert |multiset(a)| == |a| && |multiset(b)| == |b|;
    forall x
      ensures x in a <==> x in b
    {
      assert x in a <==> x in multiset(a);
      assert x in b <==> x in multiset(b);
    }
  }

  function Map<T, U>(f: T -> U, s: seq<T>): (r: seq<U>)
    ensures |r| == |s| && forall i | 0 <= i < |s| :: r[i] == f(s[i])
  {
    seq(|s|, i requires 0 <= i < |s| => f(s[i]))
  }

  /** Mapping a reordered sequence reorders the image. */
  lemma {:induction false} MapPermutes<T, U>(f: T -> U, a: seq<T>, b: seq<T>)
    requires multiset(a) == multiset(b)
    ensures multiset(Map(f, a)) == multiset(Map(f, b))
    decreases |a|
  {
    SameElements(a, b);
    if a != [] {
      assert a[0] in b;
      var k :| 0 <= k < |b| && b[k] == a[0];
      var a' := MapCut(f, a, 0);
      var b' := MapCut(f, b, k);
      MapPermutes(f, a', b');
    }
  }

  lemma {:induction false} MapCut<T, U>(f: T -> U, b: seq<T>, k: nat) returns (rest: seq<T>)
    requires k < |b|
    ensures |rest| == |b| - 1 && multiset(rest) == multiset(b) - multiset{b[k]}
    ensures multiset(Map(f, b)) == multiset{f(b[k])} + multiset(Map(f, rest))
  {
    rest := b[..k] + b[k + 1..];
    assert b == b[..k] + [b[k]] + b[k + 1..];
    assert Map(f, b) == Map(f, b)[..k] + [f(b[k])] + Map(f, b)[k + 1..];
    assert Map(f, rest) == Map(f, b)[..k] + Map(f, b)[k + 1..];
  }

  function Times(n: nat, b: nat): nat {
    if n == 0 then 0 else Times(n - 1, b) + b
  }

  lemma {:induction false} TimesGrow(n: nat, m: nat, b: nat)
    requires n <= m
    ensures Times(n, b) <= Times(m, b)
  {
    if n < m {
      TimesGrow(n, m - 1, b);
    }
  }

  lemma {:induction false} TimesAdd(n: nat, m: nat, b: nat)
    ensures Times(n + m, b) == Times(n, b) + Times(m, b)
  {
    if m > 0 {
      TimesAdd(n, m - 1, b);
    }
  }

  /** Visiting n alternatives, each with at most `below` visits beneath it. */
  function Visits(n: nat, below: nat): nat {
    if n == 0 then 0 else Visits(n - 1, below) + 1 + below
  }

  lemma {:induction false} VisitsGrow(n: nat, m: nat, below: nat, below': nat)
    requires n <= m && below <= below'
    ensures Visits(n, below) <= Visits(m, below')
    decreases m
  {
    if n < m {
      VisitsGrow(n, m - 1, below, below');
    } else if n > 0 {
      VisitsGrow(n - 1, m - 1, below, below');
    }
  }
}
