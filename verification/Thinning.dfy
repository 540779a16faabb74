/** Dropping neighbours that say the same thing, as std::unique and the de-duplicating loops do. */
module Thinning {

  /** Keeps the first of each run. */
  function Thin<T>(same: (T, T) -> bool, s: seq<T>): seq<T> {
    if s == [] then []
    else
      var init, x := s[..|s| - 1], s[|s| - 1];
      if init != [] && same(init[|init| - 1], x) then Thin(same, init) else Thin(same, init) + [x]
  }

  /** `same` groups equivalent elements and `below` orders the groups. */
  ghost predicate Grouping<T(!new)>(same: (T, T) -> bool, below: (T, T) -> bool) {
    && (forall x :: same(x, x))
    && (forall x, y, z :: same(x, y) && same(y, z) ==> same(x, z))
    && (forall x, y, z :: below(x, y) && below(y, z) ==> below(x, z))
    && (forall x, y, z :: same(x, y) && below(y, z) ==> below(x, z))
  }

  /** Each element belongs to the group of its predecessor or to a later one. */
  ghost predicate Runs<T>(same: (T, T) -> bool, below: (T, T) -> bool, s: seq<T>) {
    forall i {:trigger Moves(same, below, s, i)} | 1 <= i < |s| :: Moves(same, below, s, i)
  }

  ghost predicate Moves<T>(same: (T, T) -> bool, below: (T, T) -> bool, s: seq<T>, i: nat)
    requires 1 <= i < |s|
  {
    same(s[i - 1], s[i]) || below(s[i - 1], s[i])
  }

  /** Position p starts a run. */
  ghost predicate Starts<T>(same: (T, T) -> bool, s: seq<T>, p: nat) {
    p < |s| && (p == 0 || !same(s[p - 1], s[p]))
  }

  /** One element per group, in group order, each the first of its run; no group is lost. */
  ghost predicate Thinned<T(!new)>(same: (T, T) -> bool, below: (T, T) -> bool, s: seq<T>, r: seq<T>) {
    && (forall i, j | 0 <= i < j < |r| :: below(r[i], r[j]))
    && (forall i {:trigger r[i]} | 0 <= i < |r| :: exists p: nat {:trigger Starts(same, s, p)} ::
         Starts(same, s, p) && s[p] == r[i])
    && (forall x {:trigger x in s} | x in s :: exists i {:trigger r[i]} | 0 <= i < |r| :: same(r[i], x))
    && (s == [] ==> r == [])
    && (s != [] ==> r != [] && same(r[|r| - 1], s[|s| - 1]))
  }

  lemma {:induction false} ThinExact<T(!new)>(same: (T, T) -> bool, below: (T, T) -> bool, s: seq<T>)
    requires Grouping(same, below) && Runs(same, below, s)
    ensures Thinned(same, below, s, Thin(same, s))
    decreases |s|
  {
    if s != [] {
      var init, x := s[..|s| - 1], s[|s| - 1];
      forall i | 1 <= i < |init|
        ensures Moves(same, below, init, i)
      {
        assert Moves(same, below, s, i);
      }
      ThinExact(same, below, init);
      assert init != [] ==> Moves(same, below, s, |s| - 1);
      ThinSnoc(same, below, init, x);
      assert init + [x] == s;
    }
  }

  lemma {:induction false} StartsSnoc<T>(same: (T, T) -> bool, init: seq<T>, x: T, p: nat)
    requires Starts(same, init, p)
    ensures Starts(same, init + [x], p)
  {
  }

  lemma {:induction false} ThinSnoc<T(!new)>(same: (T, T) -> bool, below: (T, T) -> bool, init: seq<T>, x: T)
    requires Grouping(same, below) && Thinned(same, below, init, Thin(same, init))
    requires init != [] ==> same(init[|init| - 1], x) || below(init[|init| - 1], x)
    ensures Thinned(same, below, init + [x], if init != [] && same(init[|init| - 1], x) then Thin(same, init)
            else Thin(same, init) + [x])
  {
    var kept, s := Thin(same, init), init + [x];
    var skip := init != [] && same(init[|init| - 1], x);
    var r := if skip then kept else kept + [x];
    if !skip {
      forall i | 0 <= i < |kept|
        ensures below(kept[i], x)
      {
        assert init != [];
        var last, end := kept[|kept| - 1], init[|init| - 1];
        assert same(last, end) && below(end, x) && below(last, x);
        assert i < |kept| - 1 ==> below(kept[i], last);
      }
    }
    assert same(r[|r| - 1], x) by {
      if skip {
        assert same(kept[|kept| - 1], init[|init| - 1]) && same(init[|init| - 1], x);
      }
    }
    forall i, j | 0 <= i < j < |r|
      ensures below(r[i], r[j])
    {
      assert j < |kept| ==> below(kept[i], kept[j]);
    }
    forall i | 0 <= i < |r|
      ensures exists p: nat {:trigger Starts(same, s, p)} :: Starts(same, s, p) && s[p] == r[i]
    {
      if i < |kept| {
        var p: nat :| Starts(same, init, p) && init[p] == kept[i];
        StartsSnoc(same, init, x, p);
      } else {
        assert Starts(same, s, |init|) && s[|init|] == r[i];
      }
    }
    forall y | y in s
      ensures exists i {:trigger r[i]} | 0 <= i < |r| :: same(r[i], y)
    {
      if y in init {
        var i :| 0 <= i < |kept| && same(kept[i], y);
        assert r[i] == kept[i];
      } else {
        assert y == x && same(r[|r| - 1], y);
      }
    }
  }

  lemma {:induction false} ThinShorter<T>(same: (T, T) -> bool, s: seq<T>)
    ensures |Thin(same, s)| <= |s| && (s != [] ==> Thin(same, s) != [])
    decreases |s|
  {
    if s != [] {
      ThinShorter(same, s[..|s| - 1]);
    }
  }
}
