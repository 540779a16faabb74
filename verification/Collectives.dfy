/** Canonical collectives: the same structure whatever order it was declared in (src/collective.cpp:19-25, 231-282). */
module Collectives {
  import opened Candidates
  import opened Finite
  import opened Sorting

  const MAX_GROUPS: nat := 4096
  const MAX_LEVELS: nat := 8
  const MAX_MEMBERS: nat := 65536
  const MAX_LOGICAL: nat := 262144
  const MAX_PARTICIPANTS: nat := 65536

  datatype Pattern = Ring | Tree | Pairwise | AllToAll

  datatype Direction = Forward | Reverse | Bidirectional

  /** Identifiers are named by their rank in byte order. */
  datatype Group = Group(id: nat, level: nat, pattern: Pattern, direction: Direction, root: Option<nat>,
      members: seq<nat>)

  /** A logical edge implied by a group of the given level. */
  datatype Implied = Implied(src: nat, dst: nat, stage: nat)

  datatype Collective = Collective(groups: seq<Group>, edges: seq<Implied>, stageCount: nat, participants: seq<nat>)

  predicate Less(a: nat, b: nat) {
    a < b
  }

  lemma LessOrder()
    ensures StrictWeak(Less)
  {
  }

  // ----- members -----

  /** Two neighbours are equal. */
  predicate Repeats(s: seq<nat>) {
    exists i | 0 <= i < |s| - 1 :: s[i] == s[i + 1]
  }

  lemma {:induction false} RepeatsIff(m: seq<nat>)
    ensures Repeats(Sort(Less, m)) <==> !Injective(m)
  {
    LessOrder();
    SortKeeps(Less, m);
    var s := Sort(Less, m);
    if Injective(m) {
      DistinctTransfers(m, s);
    }
    if Injective(s) {
      DistinctTransfers(s, m);
    } else {
      var i, j :| 0 <= i < j < |s| && s[i] == s[j];
      assert !Less(s[i + 1], s[i]) && (i + 1 < j ==> !Less(s[j], s[i + 1]));
      assert s[i] == s[i + 1];
    }
  }

  /** k is where the smallest member stands. */
  predicate SmallestAt(m: seq<nat>, k: nat) {
    k < |m| && forall i | 0 <= i < |m| :: m[k] <= m[i]
  }

  function Smallest(m: seq<nat>): (k: nat)
    requires m != []
    ensures SmallestAt(m, k)
  {
    if |m| == 1 then 0
    else
      var k := Smallest(m[..|m| - 1]);
      assert forall i | 0 <= i < |m| - 1 :: m[..|m| - 1][i] == m[i];
      if m[|m| - 1] < m[k] then |m| - 1 else k
  }

  function Rotated(m: seq<nat>): seq<nat>
    requires m != []
  {
    m[Smallest(m)..] + m[..Smallest(m)]
  }

  /** Puts the smallest member first (std::min_element and std::rotate). */
  method RotateRing(m: seq<nat>) returns (r: seq<nat>)
    requires m != []
    ensures r == Rotated(m)
  {
    var k := 0;
    for i := 1 to |m|
      invariant k == Smallest(m[..i])
    {
      assert m[..i + 1][..i] == m[..i];
      if m[i] < m[k] {
        k := i;
      }
    }
    assert m[..|m|] == m;
    r := m[k..] + m[..k];
  }

  /** All rotations of a cycle are rotated to the same sequence. */
  lemma {:induction false} RotationsAgree(a: seq<nat>, b: seq<nat>)
    requires Injective(a + b) && a + b != []
    ensures Rotated(a + b) == Rotated(b + a)
  {
    var k, k' := Smallest(a + b), Smallest(b + a);
    if k < |a| {
      SmallestMoves(a, b, k, k');
      CutFirst(a, b, k);
      CutSecond(b, a, k);
    } else {
      InjectiveSwap(a, b);
      SmallestBack(a, b, k, k');
      CutSecond(a, b, k - |a|);
      CutFirst(b, a, k - |a|);
    }
  }

  lemma CutFirst(a: seq<nat>, b: seq<nat>, k: nat)
    requires k <= |a|
    ensures (a + b)[k..] + (a + b)[..k] == a[k..] + b + a[..k]
  {
  }

  lemma CutSecond(a: seq<nat>, b: seq<nat>, k: nat)
    requires k <= |b|
    ensures (a + b)[|a| + k..] + (a + b)[..|a| + k] == b[k..] + a + b[..k]
  {
  }

  lemma InjectiveSwap(a: seq<nat>, b: seq<nat>)
    requires Injective(a + b)
    ensures Injective(b + a)
  {
    forall i, j | 0 <= i < j < |b + a|
      ensures (b + a)[i] != (b + a)[j]
    {
      var p := if i < |b| then |a| + i else i - |b|;
      var q := if j < |b| then |a| + j else j - |b|;
      assert (a + b)[p] == (b + a)[i] && (a + b)[q] == (b + a)[j];
    }
  }

  /** Where the smallest member goes when the halves of a cycle trade places. */
  lemma SmallestMoves(a: seq<nat>, b: seq<nat>, k: nat, k': nat)
    requires Injective(a + b) && SmallestAt(a + b, k) && SmallestAt(b + a, k') && k < |a|
    ensures k' == |b| + k
  {
    InjectiveSwap(a, b);
    assert (b + a)[|b| + k] == (a + b)[k];
    var q := if k' < |b| then |a| + k' else k' - |b|;
    assert (a + b)[q] == (b + a)[k'];
  }

  lemma SmallestBack(a: seq<nat>, b: seq<nat>, k: nat, k': nat)
    requires Injective(b + a) && SmallestAt(a + b, k) && SmallestAt(b + a, k') && k >= |a|
    ensures k == |a| + k'
  {
    assert (b + a)[k - |a|] == (a + b)[k];
    var q := if k' < |b| then |a| + k' else k' - |b|;
    assert (a + b)[q] == (b + a)[k'];
  }

  // ----- groups -----

  predicate Accepted(g: Group) {
    g.level < MAX_LEVELS && g.members != [] && |g.members| <= MAX_MEMBERS && !Repeats(Sort(Less, g.members))
  }

  function Canon(g: Group): Group {
    if g.members == [] then g
    else g.(members := if g.pattern == Ring then Rotated(g.members) else Sort(Less, g.members))
  }

  /** The same group, declared in another order: a ring started elsewhere, or the members of anything else permuted. */
  ghost predicate SameGroup(g: Group, h: Group) {
    && g == h.(members := g.members)
    && (if g.pattern == Ring then exists k | 0 <= k <= |g.members| :: h.members == g.members[k..] + g.members[..k]
        else multiset(g.members) == multiset(h.members))
  }

  lemma {:induction false} CanonAgrees(g: Group, h: Group)
    requires SameGroup(g, h) && Accepted(g)
    ensures Accepted(h) && Canon(g) == Canon(h)
  {
    if g.pattern == Ring {
      var k :| 0 <= k <= |g.members| && h.members == g.members[k..] + g.members[..k];
      var a, b := g.members[..k], g.members[k..];
      assert g.members == a + b && multiset(a + b) == multiset(b + a);
      MembersAgree(g.members, h.members);
      RepeatsIff(g.members);
      RotationsAgree(a, b);
    } else {
      MembersAgree(g.members, h.members);
    }
  }

  lemma {:induction false} MembersAgree(a: seq<nat>, b: seq<nat>)
    requires multiset(a) == multiset(b)
    ensures Sort(Less, a) == Sort(Less, b) && |a| == |b|
  {
    LessOrder();
    SortKeeps(Less, a);
    SortKeeps(Less, b);
    SortedUnique(Less, Sort(Less, a), Sort(Less, b));
    SameElements(a, b);
  }

  predicate GroupLess(a: Group, b: Group) {
    a.level < b.level || (a.level == b.level && a.id < b.id)
  }

  lemma GroupOrder()
    ensures StrictWeak(GroupLess)
  {
  }

  /** Neighbours share an identifier. */
  predicate Clash(s: seq<Group>) {
    exists i | 1 <= i < |s| :: s[i - 1].id == s[i].id
  }

  lemma {:induction false} NoClashSeparates(s: seq<Group>, i: nat, j: nat)
    requires Sorted(GroupLess, s) && !Clash(s) && i < j < |s|
    ensures GroupLess(s[i], s[j])
    decreases j - i
  {
    assert !GroupLess(s[j], s[j - 1]) && s[j - 1].id != s[j].id;
    if i < j - 1 {
      NoClashSeparates(s, i, j - 1);
    }
  }

  lemma {:induction false} NoClashUnique(s: seq<Group>, t: seq<Group>)
    requires Sorted(GroupLess, s) && Sorted(GroupLess, t) && multiset(s) == multiset(t) && !Clash(s)
    ensures s == t
  {
    forall x, y | x in s && y in s && x != y
      ensures GroupLess(x, y) || GroupLess(y, x)
    {
      var i :| 0 <= i < |s| && s[i] == x;
      var j :| 0 <= j < |s| && s[j] == y;
      if i < j {
        NoClashSeparates(s, i, j);
      } else {
        NoClashSeparates(s, j, i);
      }
    }
    SortedUnique(GroupLess, s, t);
  }

  /** The canonical group list, or None when a clash is found. */
  function Ordered(groups: seq<Group>): Option<seq<Group>> {
    var s := Sort(GroupLess, groups);
    if Clash(s) then None else Some(s)
  }

  /** Declaration order of the groups does not matter. */
  lemma {:induction false} OrderIrrelevant(a: seq<Group>, b: seq<Group>)
    requires multiset(a) == multiset(b)
    ensures Ordered(a) == Ordered(b)
  {
    GroupOrder();
    SortKeeps(GroupLess, a);
    SortKeeps(GroupLess, b);
    var s, t := Sort(GroupLess, a), Sort(GroupLess, b);
    if !Clash(s) {
      NoClashUnique(s, t);
    } else if !Clash(t) {
      NoClashUnique(t, s);
    }
  }

  /** Groups on one level with equal identifiers are always refused. */
  lemma {:induction false} SameLevelClash(groups: seq<Group>, i: nat, j: nat)
    requires i < j < |groups| && groups[i].id == groups[j].id && groups[i].level == groups[j].level
    ensures Ordered(groups) == None
  {
    GroupOrder();
    SortKeeps(GroupLess, groups);
    var s := Sort(GroupLess, groups);
    if !Clash(s) {
      var p, q := FindTwo(groups, s, i, j);
      NoClashSeparates(s, p, q);
    }
  }

  lemma {:induction false} FindTwo(a: seq<Group>, s: seq<Group>, i: nat, j: nat) returns (p: nat, q: nat)
    requires multiset(a) == multiset(s) && i < j < |a|
    ensures p < q < |s| && ((s[p] == a[i] && s[q] == a[j]) || (s[p] == a[j] && s[q] == a[i]))
  {
    assert a[i] in multiset(s) && a[j] in multiset(s);
    var x :| 0 <= x < |s| && s[x] == a[i];
    p, q := x, x;
    if y :| 0 <= y < |s| && s[y] == a[j] && x != y {
      p, q := if x < y then x else y, if x < y then y else x;
    } else {
      CountedTwice(a, i, j);
      LoneCount(s, x);
      assert false;
    }
  }

  lemma {:induction false} LoneCount(s: seq<Group>, x: nat)
    requires x < |s| && forall y | 0 <= y < |s| && s[y] == s[x] :: y == x
    ensures multiset(s)[s[x]] == 1
  {
    assert s == s[..x] + [s[x]] + s[x + 1..];
    assert s[x] !in s[..x] && s[x] !in s[x + 1..];
  }

  /** Distinct identifiers are never refused. */
  lemma {:induction false} DistinctIdsPass(groups: seq<Group>)
    requires forall i, j | 0 <= i < j < |groups| :: groups[i].id != groups[j].id
    ensures Ordered(groups).Some?
  {
    DuplicateRefusedIff(groups);
    forall i, j | 0 <= i < |groups| && 0 <= j < |groups|
      ensures !AdjacentDuplicate(groups, i, j)
    {
    }
  }

  /** The check misses an identifier used on two levels when another group sorts in between. */
  lemma CrossLevelDuplicateMissed(g: Group)
    ensures var groups := [g.(id := 5, level := 0), g.(id := 7, level := 0), g.(id := 5, level := 1)];
            Ordered(groups) == Some(groups) && groups[0].id == groups[2].id
  {
    var groups := [g.(id := 5, level := 0), g.(id := 7, level := 0), g.(id := 5, level := 1)];
    GroupOrder();
    SortKeeps(GroupLess, groups);
    NoClashUnique(groups, Sort(GroupLess, groups));
  }

  lemma {:induction false} CanonDistinct(g: Group)
    requires Accepted(g)
    ensures Injective(Canon(g).members)
  {
    RepeatsIff(g.members);
    if g.pattern == Ring {
      var k := Smallest(g.members);
      assert g.members == g.members[..k] + g.members[k..];
      InjectiveSwap(g.members[..k], g.members[k..]);
    } else {
      LessOrder();
      SortKeeps(Less, g.members);
      DistinctTransfers(g.members, Sort(Less, g.members));
    }
  }

  /** Two groups share an identifier, and no group sorts between them. */
  ghost predicate AdjacentDuplicate(groups: seq<Group>, i: nat, j: nat)
    requires i < |groups| && j < |groups|
  {
    && i != j && groups[i].id == groups[j].id && !GroupLess(groups[j], groups[i])
    && forall k | 0 <= k < |groups| :: !(GroupLess(groups[i], groups[k]) && GroupLess(groups[k], groups[j]))
  }

  /** The exact condition of the duplicate test, in terms of the declaration alone. */
  lemma {:induction false} DuplicateRefusedIff(groups: seq<Group>)
    ensures Ordered(groups).None? <==>
            exists i, j | 0 <= i < |groups| && 0 <= j < |groups| :: AdjacentDuplicate(groups, i, j)
  {
    if Ordered(groups).None? {
      var i, j := ClashFound(groups);
    }
    if i, j :| 0 <= i < |groups| && 0 <= j < |groups| && AdjacentDuplicate(groups, i, j) {
      ClashSeen(groups, i, j);
    }
  }

  lemma {:induction false} SortedGroups(groups: seq<Group>)
    ensures Sorted(GroupLess, Sort(GroupLess, groups)) && multiset(Sort(GroupLess, groups)) == multiset(groups)
  {
    GroupOrder();
    SortKeeps(GroupLess, groups);
  }

  lemma {:induction false} ClashFound(groups: seq<Group>) returns (i: nat, j: nat)
    requires Ordered(groups).None?
    ensures i < |groups| && j < |groups| && AdjacentDuplicate(groups, i, j)
  {
    SortedGroups(groups);
    var s := Sort(GroupLess, groups);
    var p :| 1 <= p < |s| && s[p - 1].id == s[p].id;
    i, j := FindTwo(s, groups, p - 1, p);
    if groups[i] != s[p - 1] {
      i, j := j, i;
    }
    NeighboursAdjacent(groups, s, p, i, j);
  }

  lemma {:induction false} NeighboursAdjacent(groups: seq<Group>, s: seq<Group>, p: nat, i: nat, j: nat)
    requires Sorted(GroupLess, s) && 1 <= p < |s| && multiset(s) == multiset(groups) && s[p - 1].id == s[p].id
    requires i < |groups| && j < |groups| && i != j && groups[i] == s[p - 1] && groups[j] == s[p]
    ensures AdjacentDuplicate(groups, i, j)
  {
    assert !GroupLess(s[p], s[p - 1]);
    forall k | 0 <= k < |groups|
      ensures !(GroupLess(groups[i], groups[k]) && GroupLess(groups[k], groups[j]))
    {
      NothingBetween(s, p, groups[k], groups);
    }
  }

  /** Nothing sorts strictly between neighbours of a sorted sequence. */
  lemma {:induction false} NothingBetween(s: seq<Group>, p: nat, g: Group, groups: seq<Group>)
    requires Sorted(GroupLess, s) && 1 <= p < |s| && multiset(s) == multiset(groups) && g in groups
    ensures !(GroupLess(s[p - 1], g) && GroupLess(g, s[p]))
  {
    assert g in multiset(s);
    var q :| 0 <= q < |s| && s[q] == g;
    assert q < p - 1 ==> !GroupLess(s[p - 1], s[q]);
    assert p < q ==> !GroupLess(s[q], s[p]);
  }

  lemma {:induction false} ClashSeen(groups: seq<Group>, i: nat, j: nat)
    requires i < |groups| && j < |groups| && AdjacentDuplicate(groups, i, j)
    ensures Ordered(groups).None?
  {
    SortedGroups(groups);
    var s := Sort(GroupLess, groups);
    if !Clash(s) {
      var p, q := FindTwo(groups, s, if i < j then i else j, if i < j then j else i);
      NoClashSeparates(s, p, q);
      SeparatedHasBetween(groups, s, p, q);
    }
  }

  /** Without clashing neighbours, equal identifiers have another group strictly between them. */
  lemma {:induction false} SeparatedHasBetween(groups: seq<Group>, s: seq<Group>, p: nat, q: nat)
    requires Sorted(GroupLess, s) && !Clash(s) && multiset(s) == multiset(groups) && p < q < |s| && s[p].id == s[q].id
    ensures exists k | 0 <= k < |groups| :: GroupLess(s[p], groups[k]) && GroupLess(groups[k], s[q])
  {
    assert p + 1 != q;
    NoClashSeparates(s, p, p + 1);
    NoClashSeparates(s, p + 1, q);
    assert s[p + 1] in multiset(groups);
    var k :| 0 <= k < |groups| && groups[k] == s[p + 1];
    assert GroupLess(s[p], groups[k]) && GroupLess(groups[k], s[q]);
  }
}
