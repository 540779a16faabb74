/** Building a collective: canonical whatever order it was declared in (src/collective.cpp:210-351). */
module CollectiveBuild {
  import opened Candidates
  import opened Finite
  import opened Sorting
  import opened Thinning
  import opened Collectives
  import opened LogicalEdges

  // ----- the result, stated without the steps -----

  predicate AllAccepted(groups: seq<Group>) {
    forall i | 0 <= i < |groups| :: Accepted(groups[i])
  }

  function CanonAll(groups: seq<Group>): seq<Group> {
    Map(Canon, groups)
  }

  ghost predicate Endpoint(edges: seq<Implied>, x: nat) {
    exists i | 0 <= i < |edges| :: edges[i].src == x || edges[i].dst == x
  }

  ghost predicate CanonicalParticipants(edges: seq<Implied>, participants: seq<nat>) {
    && (forall i, j | 0 <= i < j < |participants| :: participants[i] < participants[j])
    && (forall x {:trigger x in participants} :: x in participants <==> Endpoint(edges, x))
  }

  function StageCount(edges: seq<Implied>): nat {
    if edges == [] then 1
    else
      var n, stage := StageCount(edges[..|edges| - 1]), edges[|edges| - 1].stage;
      if stage + 1 > n then stage + 1 else n
  }

  /** c is the canonical form of the declared groups. */
  ghost predicate IsCanonical(groups: seq<Group>, c: Collective) {
    && AllAccepted(groups) && Ordered(CanonAll(groups)) == Some(c.groups) && AllWellFormed(c.groups)
    && CanonicalEdges(c.groups, c.edges) && c.stageCount == StageCount(c.edges)
    && CanonicalParticipants(c.edges, c.participants)
  }

  /** The size limits that can only be judged on the canonical form. */
  predicate WithinLimits(c: Collective) {
    0 < TotalCount(c.groups) <= MAX_LOGICAL && |c.participants| <= MAX_PARTICIPANTS
  }

  // ----- there is only one -----

  lemma {:induction false} StrictUnique<T(!new)>(below: (T, T) -> bool, a: seq<T>, b: seq<T>)
    requires forall x, y :: below(x, y) ==> !below(y, x)
    requires (forall i, j | 0 <= i < j < |a| :: below(a[i], a[j]))
             && (forall i, j | 0 <= i < j < |b| :: below(b[i], b[j]))
    requires forall x :: x in a <==> x in b
    ensures a == b
    decreases |a|
  {
    if b != [] {
      assert b[0] in a;
    }
    if a != [] {
      assert a[0] in b && b[0] in a;
      TailsAgree(below, a, b);
      StrictUnique(below, a[1..], b[1..]);
    }
  }

  lemma {:induction false} TailsAgree<T(!new)>(below: (T, T) -> bool, a: seq<T>, b: seq<T>)
    requires forall x, y :: below(x, y) ==> !below(y, x)
    requires (forall i, j | 0 <= i < j < |a| :: below(a[i], a[j]))
             && (forall i, j | 0 <= i < j < |b| :: below(b[i], b[j]))
    requires a != [] && b != [] && a[0] == b[0] && forall x :: x in a <==> x in b
    ensures forall x :: x in a[1..] <==> x in b[1..]
  {
    forall x
      ensures x in a[1..] <==> x in b[1..]
    {
      InTail(below, a, x);
      InTail(below, b, x);
    }
  }

  lemma {:induction false} InTail<T(!new)>(below: (T, T) -> bool, a: seq<T>, x: T)
    requires forall x, y :: below(x, y) ==> !below(y, x)
    requires a != [] && forall i, j | 0 <= i < j < |a| :: below(a[i], a[j])
    ensures x in a[1..] <==> x in a && x != a[0]
  {
    if x in a[1..] {
      var i :| 0 <= i < |a[1..]| && a[1..][i] == x;
      assert below(a[0], a[i + 1]);
    }
  }

  lemma {:induction false} EdgesUnique(groups: seq<Group>, a: seq<Implied>, b: seq<Implied>)
    requires CanonicalEdges(groups, a) && CanonicalEdges(groups, b)
    ensures a == b
  {
    forall e
      ensures e in a <==> e in b
    {
      assert e in a <==> Earliest(groups, e);
      assert e in b <==> Earliest(groups, e);
    }
    StrictUnique(PairBelow, a, b);
  }

  lemma {:induction false} ParticipantsUnique(edges: seq<Implied>, a: seq<nat>, b: seq<nat>)
    requires CanonicalParticipants(edges, a) && CanonicalParticipants(edges, b)
    ensures a == b
  {
    forall x
      ensures x in a <==> x in b
    {
      assert x in a <==> Endpoint(edges, x);
      assert x in b <==> Endpoint(edges, x);
    }
    StrictUnique(Less, a, b);
  }

  /** h declares the groups of g: in another order, rings started elsewhere, other members permuted. */
  ghost predicate SameDeclaration(g: seq<Group>, h: seq<Group>) {
    exists mid: seq<Group> {:trigger multiset(mid)} ::
      multiset(mid) == multiset(g) && |mid| == |h| && forall i {:trigger mid[i]} | 0 <= i < |h| ::
          SameGroup(mid[i], h[i])
  }

  lemma {:induction false} AcceptedAnyOrder(g: seq<Group>, mid: seq<Group>)
    requires multiset(mid) == multiset(g) && AllAccepted(g)
    ensures AllAccepted(mid) && multiset(CanonAll(mid)) == multiset(CanonAll(g))
  {
    SameElements(mid, g);
    forall i | 0 <= i < |mid|
      ensures Accepted(mid[i])
    {
      assert mid[i] in g;
    }
    MapPermutes(Canon, g, mid);
  }

  lemma {:induction false} MembersOnly(mid: seq<Group>, h: seq<Group>)
    requires AllAccepted(mid) && |mid| == |h| && forall i {:trigger mid[i]} | 0 <= i < |h| :: SameGroup(mid[i], h[i])
    ensures AllAccepted(h) && CanonAll(h) == CanonAll(mid)
  {
    forall i | 0 <= i < |h|
      ensures Accepted(h[i]) && Canon(h[i]) == Canon(mid[i])
    {
      assert SameGroup(mid[i], h[i]);
      CanonAgrees(mid[i], h[i]);
    }
  }

  lemma {:induction false} SameGroupBack(g: Group, h: Group)
    requires SameGroup(g, h)
    ensures SameGroup(h, g)
  {
    if g.pattern == Ring {
      var k :| 0 <= k <= |g.members| && h.members == g.members[k..] + g.members[..k];
      var back := |g.members| - k;
      assert h.members[back..] + h.members[..back] == g.members;
    }
  }

  lemma {:induction false} MembersOnlyBack(mid: seq<Group>, h: seq<Group>)
    requires AllAccepted(h) && |mid| == |h| && forall i {:trigger mid[i]} | 0 <= i < |h| :: SameGroup(mid[i], h[i])
    ensures AllAccepted(mid) && CanonAll(h) == CanonAll(mid)
  {
    forall i {:trigger h[i]} | 0 <= i < |mid|
      ensures SameGroup(h[i], mid[i])
    {
      assert SameGroup(mid[i], h[i]);
      SameGroupBack(mid[i], h[i]);
    }
    MembersOnly(h, mid);
  }

  /** The order of declaration leaves no trace: the two declarations have the same canonical form, or both have none. */
  lemma {:induction false} DeclarationOrderIrrelevant(g: seq<Group>, h: seq<Group>, c: Collective)
    requires SameDeclaration(g, h)
    ensures IsCanonical(g, c) <==> IsCanonical(h, c)
  {
    var mid: seq<Group> :| multiset(mid) == multiset(g) && |mid| == |h|
        && forall i {:trigger mid[i]} | 0 <= i < |h| :: SameGroup(mid[i], h[i]);
    if IsCanonical(g, c) {
      AcceptedAnyOrder(g, mid);
      MembersOnly(mid, h);
      OrderIrrelevant(CanonAll(g), CanonAll(h));
    }
    if IsCanonical(h, c) {
      MembersOnlyBack(mid, h);
      AcceptedAnyOrder(mid, g);
      OrderIrrelevant(CanonAll(g), CanonAll(h));
    }
  }

  lemma {:induction false} SameDeclarationLength(g: seq<Group>, h: seq<Group>)
    requires SameDeclaration(g, h)
    ensures |g| == |h|
  {
    var mid: seq<Group> :| multiset(mid) == multiset(g) && |mid| == |h|
        && forall i {:trigger mid[i]} | 0 <= i < |h| :: SameGroup(mid[i], h[i]);
    SameElements(mid, g);
  }

  // ----- the result as a value -----

  /** c is what building the declared groups delivers. */
  ghost predicate Builds(groups: seq<Group>, c: Collective) {
    0 < |groups| <= MAX_GROUPS && IsCanonical(groups, c) && WithinLimits(c)
  }

  ghost function Built(groups: seq<Group>): Option<Collective> {
    if exists c :: Builds(groups, c) then var c :| Builds(groups, c); Some(c) else None
  }

  lemma {:induction false} BuiltIs(groups: seq<Group>, c: Collective)
    ensures Built(groups) == Some(c) <==> Builds(groups, c)
  {
    if Builds(groups, c) {
      var d := Built(groups).value;
      CanonicalUnique(groups, c, d);
    }
  }

  /** Permuted declarations build the same collective, or are both refused. */
  lemma {:induction false} SameCollective(g: seq<Group>, h: seq<Group>)
    requires SameDeclaration(g, h)
    ensures Built(g) == Built(h)
  {
    SameDeclarationLength(g, h);
    if exists c :: Builds(g, c) {
      var c :| Builds(g, c);
      DeclarationOrderIrrelevant(g, h, c);
      BuiltIs(g, c);
      BuiltIs(h, c);
    } else if exists c :: Builds(h, c) {
      var c :| Builds(h, c);
      DeclarationOrderIrrelevant(g, h, c);
      assert Builds(g, c);
    }
  }

  lemma {:induction false} CanonIsSame(g: Group)
    requires Accepted(g)
    ensures SameGroup(g, Canon(g))
  {
    if g.pattern == Ring {
      var k := Smallest(g.members);
      assert Canon(g).members == g.members[k..] + g.members[..k];
    } else {
      LessOrder();
      SortKeeps(Less, g.members);
    }
  }

  lemma {:induction false} SameGroupRefl(g: Group)
    ensures SameGroup(g, g)
  {
    assert g.members[0..] + g.members[..0] == g.members;
  }

  lemma {:induction false} SameEach(g: seq<Group>, h: seq<Group>)
    requires |g| == |h| && forall i | 0 <= i < |h| :: SameGroup(g[i], h[i])
    ensures SameDeclaration(g, h)
  {
    assert multiset(g) == multiset(g);
  }

  lemma {:induction false} SamePermuted(g: seq<Group>, h: seq<Group>)
    requires multiset(g) == multiset(h)
    ensures SameDeclaration(g, h)
  {
    forall i | 0 <= i < |h|
      ensures SameGroup(h[i], h[i])
    {
      SameGroupRefl(h[i]);
    }
    assert multiset(h) == multiset(g);
  }

  /** Building what was built changes nothing. */
  lemma {:induction false} BuiltStays(groups: seq<Group>, c: Collective)
    requires Built(groups) == Some(c)
    ensures Built(c.groups) == Some(c)
  {
    BuiltIs(groups, c);
    var canon := CanonAll(groups);
    forall i | 0 <= i < |canon|
      ensures SameGroup(groups[i], canon[i])
    {
      CanonIsSame(groups[i]);
    }
    SameEach(groups, canon);
    SameCollective(groups, canon);
    SortPermutes(GroupLess, canon);
    SamePermuted(canon, c.groups);
    SameCollective(canon, c.groups);
  }

  /** A declaration has at most one canonical form. */
  lemma {:induction false} CanonicalUnique(g: seq<Group>, c: Collective, d: Collective)
    requires IsCanonical(g, c) && IsCanonical(g, d)
    ensures c == d
  {
    EdgesUnique(c.groups, c.edges, d.edges);
    ParticipantsUnique(c.edges, c.participants, d.participants);
  }

  // ----- building it -----

  method Canonicalise(groups: seq<Group>) returns (r: Option<seq<Group>>)
    ensures r.Some? <==> AllAccepted(groups)
    ensures r.Some? ==> r.value == CanonAll(groups)
  {
    var done := [];
    for i := 0 to |groups|
      invariant AllAccepted(groups[..i]) && done == CanonAll(groups[..i])
    {
      var g := groups[i];
      if !Accepted(g) {
        return None;
      }
      if g.pattern == Ring {
        var m := RotateRing(g.members);
        done := done + [g.(members := m)];
      } else {
        done := done + [g.(members := Sort(Less, g.members))];
      }
      assert groups[..i + 1] == groups[..i] + [g];
    }
    assert groups[..|groups|] == groups;
    r := Some(done);
  }

  method CountStages(edges: seq<Implied>) returns (n: nat)
    ensures n == StageCount(edges)
  {
    n := 1;
    for i := 0 to |edges|
      invariant n == StageCount(edges[..i])
    {
      assert edges[..i + 1][..i] == edges[..i];
      if edges[i].stage + 1 > n {
        n := edges[i].stage + 1;
      }
    }
    assert edges[..|edges|] == edges;
  }

  predicate Same(a: nat, b: nat) {
    a == b
  }

  lemma NatGrouping()
    ensures Grouping(Same, Less)
  {
  }

  method CollectEndpoints(edges: seq<Implied>) returns (all: seq<nat>)
    ensures forall x {:trigger x in all} :: x in all <==> Endpoint(edges, x)
  {
    all := [];
    for i := 0 to |edges|
      invariant forall x {:trigger x in all} :: x in all <==> Endpoint(edges[..i], x)
    {
      EndpointSnoc(edges[..i], edges[i]);
      assert edges[..i + 1] == edges[..i] + [edges[i]];
      all := all + [edges[i].src, edges[i].dst];
    }
    assert edges[..|edges|] == edges;
  }

  lemma EndpointSnoc(edges: seq<Implied>, e: Implied)
    ensures forall x :: Endpoint(edges + [e], x) <==> Endpoint(edges, x) || e.src == x || e.dst == x
  {
    var more := edges + [e];
    forall x
      ensures Endpoint(more, x) <==> Endpoint(edges, x) || e.src == x || e.dst == x
    {
      if Endpoint(edges, x) {
        var i :| 0 <= i < |edges| && (edges[i].src == x || edges[i].dst == x);
        assert more[i] == edges[i];
      }
      assert more[|edges|] == e;
    }
  }

  method Participants(edges: seq<Implied>) returns (r: seq<nat>)
    ensures CanonicalParticipants(edges, r)
  {
    var all := CollectEndpoints(edges);
    r := Thin(Same, Sort(Less, all));
    ThinParticipants(edges, all);
  }

  lemma {:induction false} ThinParticipants(edges: seq<Implied>, all: seq<nat>)
    requires forall x {:trigger x in all} :: x in all <==> Endpoint(edges, x)
    ensures CanonicalParticipants(edges, Thin(Same, Sort(Less, all)))
  {
    var s := Sort(Less, all);
    LessOrder();
    SortKeeps(Less, all);
    SameElements(s, all);
    ThinNumbers(s);
    forall x
      ensures x in Thin(Same, s) <==> Endpoint(edges, x)
    {
      assert x in Thin(Same, s) <==> x in s;
      assert x in all <==> Endpoint(edges, x);
    }
  }

  lemma {:induction false} ThinNumbers(s: seq<nat>)
    requires Sorted(Less, s)
    ensures forall i, j | 0 <= i < j < |Thin(Same, s)| :: Thin(Same, s)[i] < Thin(Same, s)[j]
    ensures forall x :: x in Thin(Same, s) <==> x in s
  {
    NatGrouping();
    forall i | 1 <= i < |s|
      ensures Moves(Same, Less, s, i)
    {
      assert !Less(s[i], s[i - 1]);
    }
    ThinExact(Same, Less, s);
    var r := Thin(Same, s);
    assert forall i, j | 0 <= i < j < |r| :: Less(r[i], r[j]);
    forall x
      ensures x in r <==> x in s
    {
      if x in r {
        var i :| 0 <= i < |r| && r[i] == x;
        var p: nat :| Starts(Same, s, p) && s[p] == r[i];
      }
      if x in s {
        var i :| 0 <= i < |r| && Same(r[i], x);
      }
    }
  }

  // ----- the final checks never fail -----

  /** The re-check of src/collective.cpp:383-417. */
  predicate Validates(c: Collective) {
    && 0 < |c.edges| <= MAX_LOGICAL
    && (forall i | 1 <= i < |c.edges| :: PairBelow(c.edges[i - 1], c.edges[i]))
    && (forall i | 0 <= i < |c.edges| :: c.edges[i].src != c.edges[i].dst && c.edges[i].stage < c.stageCount)
    && (forall i | 1 <= i < |c.participants| :: c.participants[i - 1] < c.participants[i])
  }

  /** No well-formed group implies an edge from a participant to itself. */
  lemma NoSelfLoop(g: Group, x: nat)
    requires WellFormed(g) && Injective(g.members)
    ensures !Implies(g, x, x)
  {
  }

  lemma {:induction false} StageBelowCount(edges: seq<Implied>, i: nat)
    requires i < |edges|
    ensures edges[i].stage < StageCount(edges)
    decreases |edges|
  {
    if i < |edges| - 1 {
      StageBelowCount(edges[..|edges| - 1], i);
    }
  }

  lemma {:induction false} GroupsDistinct(groups: seq<Group>, canon: seq<Group>, i: nat)
    requires AllAccepted(groups) && Ordered(CanonAll(groups)) == Some(canon) && i < |canon|
    ensures Injective(canon[i].members)
  {
    SortPermutes(GroupLess, CanonAll(groups));
    SameElements(canon, CanonAll(groups));
    assert canon[i] in CanonAll(groups);
    var k :| 0 <= k < |groups| && Canon(groups[k]) == canon[i];
    CanonDistinct(groups[k]);
  }

  /** A canonical collective passes the re-check, so building never fails there; nor does the self-loop test. */
  lemma {:induction false} CanonicalValidates(groups: seq<Group>, c: Collective)
    requires IsCanonical(groups, c) && 0 < |c.edges| <= MAX_LOGICAL
    ensures Validates(c)
  {
    forall i | 0 <= i < |c.edges|
      ensures c.edges[i].src != c.edges[i].dst && c.edges[i].stage < c.stageCount
    {
      StageBelowCount(c.edges, i);
      var e := c.edges[i];
      assert e in c.edges && Earliest(c.groups, e);
      var k :| 0 <= k < |c.groups| && Implies(c.groups[k], e.src, e.dst);
      GroupsDistinct(groups, c.groups, k);
      NoSelfLoop(c.groups[k], e.src);
    }
  }

  method Build(groups: seq<Group>) returns (r: Option<Collective>)
    ensures r == Built(groups)
    ensures r.Some? ==> Builds(groups, r.value) && Validates(r.value)
    ensures r.None? ==> forall c :: !Builds(groups, c)
  {
    if !(0 < |groups| <= MAX_GROUPS) {
      return None;
    }
    var canon := Canonicalise(groups);
    if canon.None? {
      return None;
    }
    var ordered := Sort(GroupLess, canon.value);
    if Clash(ordered) {
      return None;
    }
    r := BuildEdges(groups, ordered);
    if r.Some? {
      BuiltIs(groups, r.value);
    }
  }

  /** Sorts the implied edges and keeps the first of each pair. */
  method UniqueEdges(ghost groups: seq<Group>, derived: seq<Implied>) returns (edges: seq<Implied>)
    requires AllImplied(groups, derived)
    ensures CanonicalEdges(groups, edges) && |edges| <= |derived| && (derived != [] ==> edges != [])
  {
    var sorted := Sort(ImpliedLess, derived);
    ImpliedOrder();
    SortKeeps(ImpliedLess, derived);
    SameElements(sorted, derived);
    ThinIsCanonical(groups, derived, sorted);
    ThinShorter(SamePair, sorted);
    edges := DropRepeats(sorted);
  }

  /** Keeps an edge unless it repeats the pair before it. */
  method DropRepeats(sorted: seq<Implied>) returns (edges: seq<Implied>)
    ensures edges == Thin(SamePair, sorted)
  {
    edges := [];
    for i := 0 to |sorted|
      invariant edges == Thin(SamePair, sorted[..i])
    {
      assert sorted[..i + 1][..i] == sorted[..i];
      if !(i > 0 && SamePair(sorted[i - 1], sorted[i])) {
        edges := edges + [sorted[i]];
      }
    }
    assert sorted[..|sorted|] == sorted;
  }

  method BuildEdges(ghost declared: seq<Group>, groups: seq<Group>) returns (r: Option<Collective>)
    requires AllAccepted(declared) && Ordered(CanonAll(declared)) == Some(groups)
    ensures r.Some? ==> IsCanonical(declared, r.value) && WithinLimits(r.value) && Validates(r.value)
    ensures r.None? ==> forall c :: !(IsCanonical(declared, c) && WithinLimits(c))
  {
    var derived := Derive(groups);
    if derived.None? || !(0 < |derived.value| <= MAX_LOGICAL) {
      return None;
    }
    var edges := UniqueEdges(groups, derived.value);
    var stages := CountStages(edges);
    var participants := Participants(edges);
    var c := Collective(groups, edges, stages, participants);
    if |participants| > MAX_PARTICIPANTS {
      OnlyForm(declared, c);
      return None;
    }
    CanonicalValidates(declared, c);
    r := Some(c);
  }

  lemma {:induction false} OnlyForm(declared: seq<Group>, c: Collective)
    requires IsCanonical(declared, c)
    ensures forall d :: IsCanonical(declared, d) ==> d == c
  {
    forall d | IsCanonical(declared, d)
      ensures d == c
    {
      CanonicalUnique(declared, d, c);
    }
  }
}
