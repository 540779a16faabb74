/** Building the planning request (src/request.cpp:117-214, src/policy.cpp:115-188). */
module RequestBuild {
  import opened Candidates
  import opened Finite
  import opened Sorting
  import opened Saturating
  import opened Collectives
  import opened CollectiveBuild
  import opened CanonicalLists
  import opened Declarations
  import opened Identifiers
  import opened FabricBuild
  import Requests

  datatype BuiltCollective = BuiltCollective(id: nat, kind: CollectiveKind, demand: nat, form: Collective)

  datatype PlanningRequest = PlanningRequest(collective: BuiltCollective, fabric: FabricGraph, policy: PolicySpec,
                                             planGeneration: nat, bindings: seq<BindingSpec>)

  // ----- the collective -----

  predicate AllIds(s: seq<nat>) {
    forall i {:trigger IsId(s[i])} | 0 <= i < |s| :: IsId(s[i])
  }

  predicate AllShort(s: seq<nat>) {
    forall i {:trigger IsShort(s[i])} | 0 <= i < |s| :: IsShort(s[i])
  }

  predicate GroupNamed(g: Group) {
    IsId(g.id) && OptionalId(g.root) && AllIds(g.members)
  }

  predicate GroupsNamed(groups: seq<Group>) {
    forall i {:trigger GroupNamed(groups[i])} | 0 <= i < |groups| :: GroupNamed(groups[i])
  }

  ghost function CollectiveOf(spec: CollectiveSpec): Option<BuiltCollective> {
    if !IsId(spec.id) || spec.demand > Requests.MAX_CAPACITY || !GroupsNamed(spec.groups) then None
    else
      match Built(spec.groups)
      case None => None
      case Some(c) => Some(BuiltCollective(spec.id, spec.kind, spec.demand, c))
  }

  /** The same collective, its groups and members declared in another order. */
  ghost predicate SameCollectiveSpec(a: CollectiveSpec, b: CollectiveSpec) {
    a == b.(groups := a.groups) && SameDeclaration(a.groups, b.groups)
  }

  lemma {:induction false} IdsAgree(a: seq<nat>, b: seq<nat>)
    requires SameSet(a, b) && AllIds(a)
    ensures AllIds(b)
  {
    forall i | 0 <= i < |b|
      ensures IsId(b[i])
    {
      assert b[i] in a;
      var j :| 0 <= j < |a| && a[j] == b[i];
      assert IsId(a[j]);
    }
  }

  lemma {:induction false} SameGroupMembers(g: Group, h: Group)
    requires SameGroup(g, h)
    ensures SameSet(g.members, h.members)
  {
    if g.pattern == Ring {
      var k :| 0 <= k <= |g.members| && h.members == g.members[k..] + g.members[..k];
      assert g.members == g.members[..k] + g.members[k..];
    } else {
      SameElements(g.members, h.members);
    }
  }

  lemma {:induction false} NamedAgrees(g: Group, h: Group)
    requires SameGroup(g, h)
    ensures GroupNamed(g) <==> GroupNamed(h)
  {
    SameGroupMembers(g, h);
    if AllIds(g.members) {
      IdsAgree(g.members, h.members);
    }
    if AllIds(h.members) {
      IdsAgree(h.members, g.members);
    }
  }

  lemma {:induction false} NamedPermuted(a: seq<Group>, b: seq<Group>)
    requires multiset(a) == multiset(b) && GroupsNamed(a)
    ensures GroupsNamed(b)
  {
    SameElements(a, b);
    forall i | 0 <= i < |b|
      ensures GroupNamed(b[i])
    {
      assert b[i] in a;
      var j :| 0 <= j < |a| && a[j] == b[i];
      assert GroupNamed(a[j]);
    }
  }

  lemma {:induction false} GroupsNamedAgree(g: seq<Group>, h: seq<Group>)
    requires SameDeclaration(g, h)
    ensures GroupsNamed(g) <==> GroupsNamed(h)
  {
    var mid: seq<Group> :| multiset(mid) == multiset(g) && |mid| == |h|
        && forall i {:trigger mid[i]} | 0 <= i < |h| :: SameGroup(mid[i], h[i]);
    forall i | 0 <= i < |h|
      ensures GroupNamed(mid[i]) <==> GroupNamed(h[i])
    {
      NamedAgrees(mid[i], h[i]);
    }
    if GroupsNamed(g) {
      NamedPermuted(g, mid);
    }
    if GroupsNamed(h) {
      NamedPermuted(mid, g);
    }
  }

  lemma {:induction false} CollectiveAgrees(a: CollectiveSpec, b: CollectiveSpec)
    requires SameCollectiveSpec(a, b)
    ensures CollectiveOf(a) == CollectiveOf(b)
  {
    GroupsNamedAgree(a.groups, b.groups);
    SameCollective(a.groups, b.groups);
  }

  // ----- the policy -----

  function CanonPolicy(p: PolicySpec): PolicySpec {
    p.(forbiddenNodes := SortUnique(p.forbiddenNodes), forbiddenTiers := SortUnique(p.forbiddenTiers),
       forbiddenDomains := SortUnique(p.forbiddenDomains), allowedTiers := SortUnique(p.allowedTiers))
  }

  predicate PolicyOk(p: PolicySpec) {
    && p.generation != 0 && 1 <= p.maxHops <= Requests.MAX_HOPS && 1 <= p.paths <= Requests.MAX_PATHS
    && p.latencyWeight <= Requests.MAX_WEIGHT && p.congestionWeight <= Requests.MAX_WEIGHT
    && 1 <= p.maxPathCost <= COST_CEILING && 1 <= p.maxExpansions <= MAX_EXPANSIONS
    && |p.forbiddenNodes| <= MAX_SET && |p.forbiddenTiers| <= MAX_SET && |p.forbiddenDomains| <= MAX_SET
       && |p.allowedTiers| <= MAX_SET
    && AllIds(p.forbiddenNodes) && AllShort(p.forbiddenTiers) && AllIds(p.forbiddenDomains) && AllShort(p.allowedTiers)
    && forall t | t in p.allowedTiers :: t !in p.forbiddenTiers
  }

  /** The same policy, its sets listed otherwise. */
  ghost predicate SamePolicy(a: PolicySpec, b: PolicySpec) {
    && a == b.(forbiddenNodes := a.forbiddenNodes, forbiddenTiers := a.forbiddenTiers, forbiddenDomains :=
       a.forbiddenDomains,
               allowedTiers := a.allowedTiers)
    && SameSet(a.forbiddenNodes, b.forbiddenNodes) && SameSet(a.forbiddenTiers, b.forbiddenTiers)
    && SameSet(a.forbiddenDomains, b.forbiddenDomains) && SameSet(a.allowedTiers, b.allowedTiers)
  }

  lemma {:induction false} PolicyAgrees(a: PolicySpec, b: PolicySpec)
    requires SamePolicy(a, b)
    ensures CanonPolicy(a) == CanonPolicy(b)
  {
    SortUniqueAgrees(a.forbiddenNodes, b.forbiddenNodes);
    SortUniqueAgrees(a.forbiddenTiers, b.forbiddenTiers);
    SortUniqueAgrees(a.forbiddenDomains, b.forbiddenDomains);
    SortUniqueAgrees(a.allowedTiers, b.allowedTiers);
  }

  lemma {:induction false} CanonPolicySame(p: PolicySpec)
    ensures SamePolicy(p, CanonPolicy(p))
  {
    SortUniqueExact(p.forbiddenNodes);
    SortUniqueExact(p.forbiddenTiers);
    SortUniqueExact(p.forbiddenDomains);
    SortUniqueExact(p.allowedTiers);
  }

  // ----- bindings -----

  predicate BindingFits(b: BindingSpec) {
    IsId(b.participant) && IsId(b.node) && |b.domains| <= MAX_SET && |b.tiers| <= MAX_SET
  }

  predicate BindingsFit(s: seq<BindingSpec>) {
    forall i {:trigger BindingFits(s[i])} | 0 <= i < |s| :: BindingFits(s[i])
  }

  function CanonBinding(b: BindingSpec): BindingSpec {
    b.(domains := SortUnique(b.domains), tiers := SortUnique(b.tiers))
  }

  predicate BindingResolves(participants: seq<nat>, g: FabricGraph, b: BindingSpec) {
    && b.participant in participants && Declares(NodeKey, g.nodes, b.node) && AllShort(b.tiers)
    && forall i {:trigger b.domains[i]} | 0 <= i < |b.domains| :: Declares(DomainKey, g.domains, b.domains[i])
  }

  predicate BindingsResolve(participants: seq<nat>, g: FabricGraph, s: seq<BindingSpec>) {
    forall i {:trigger BindingResolves(participants, g, s[i])} | 0 <= i < |s| :: BindingResolves(participants, g, s[i])
  }

  function BindingsOf(s: seq<BindingSpec>, participants: seq<nat>, g: FabricGraph): Option<seq<BindingSpec>> {
    if |s| > MAX_BINDINGS || !BindingsFit(s) then None
    else
      match Ranked(BindingKey, Map(CanonBinding, s))
      case None => None
      case Some(sorted) => if BindingsResolve(participants, g, sorted) then Some(sorted) else None
  }

  /** The same binding, its sets listed otherwise. */
  ghost predicate SameBinding(a: BindingSpec, b: BindingSpec) {
    && a == b.(domains := a.domains, tiers := a.tiers) && SameSet(a.domains, b.domains) && SameSet(a.tiers, b.tiers)
    && (|a.domains| <= MAX_SET <==> |b.domains| <= MAX_SET) && (|a.tiers| <= MAX_SET <==> |b.tiers| <= MAX_SET)
  }

  ghost predicate SameBindings(a: seq<BindingSpec>, b: seq<BindingSpec>) {
    exists mid: seq<BindingSpec> {:trigger multiset(mid)} ::
      multiset(mid) == multiset(a) && |mid| == |b| && forall i {:trigger mid[i]} | 0 <= i < |b| ::
          SameBinding(mid[i], b[i])
  }

  lemma {:induction false} CanonBindingAgrees(a: BindingSpec, b: BindingSpec)
    requires SameBinding(a, b)
    ensures CanonBinding(a) == CanonBinding(b) && (BindingFits(a) <==> BindingFits(b))
  {
    SortUniqueAgrees(a.domains, b.domains);
    SortUniqueAgrees(a.tiers, b.tiers);
  }

  lemma {:induction false} FitPermuted(a: seq<BindingSpec>, b: seq<BindingSpec>)
    requires multiset(a) == multiset(b) && BindingsFit(a)
    ensures BindingsFit(b)
  {
    SameElements(a, b);
    forall i | 0 <= i < |b|
      ensures BindingFits(b[i])
    {
      assert b[i] in a;
      var j :| 0 <= j < |a| && a[j] == b[i];
      assert BindingFits(a[j]);
    }
  }

  lemma {:induction false} BindingsAgree(a: seq<BindingSpec>, b: seq<BindingSpec>, participants: seq<nat>,
      g: FabricGraph)
    requires SameBindings(a, b)
    ensures BindingsOf(a, participants, g) == BindingsOf(b, participants, g)
  {
    var mid: seq<BindingSpec> :| multiset(mid) == multiset(a) && |mid| == |b|
        && forall i {:trigger mid[i]} | 0 <= i < |b| :: SameBinding(mid[i], b[i]);
    SameElements(mid, a);
    CanonsAgree(mid, b);
    MapPermutes(CanonBinding, a, mid);
    RankedAgrees(BindingKey, Map(CanonBinding, a), Map(CanonBinding, b));
    if BindingsFit(a) {
      FitPermuted(a, mid);
    }
    if BindingsFit(mid) {
      FitPermuted(mid, a);
    }
  }

  lemma {:induction false} CanonsAgree(a: seq<BindingSpec>, b: seq<BindingSpec>)
    requires |a| == |b| && forall i {:trigger a[i]} | 0 <= i < |b| :: SameBinding(a[i], b[i])
    ensures Map(CanonBinding, a) == Map(CanonBinding, b) && (BindingsFit(a) <==> BindingsFit(b))
  {
    forall i | 0 <= i < |b|
      ensures CanonBinding(a[i]) == CanonBinding(b[i]) && (BindingFits(a[i]) <==> BindingFits(b[i]))
    {
      CanonBindingAgrees(a[i], b[i]);
    }
    FitEach(a, b);
  }

  lemma {:induction false} FitEach(a: seq<BindingSpec>, b: seq<BindingSpec>)
    requires |a| == |b| && forall i | 0 <= i < |a| :: BindingFits(a[i]) <==> BindingFits(b[i])
    ensures BindingsFit(a) <==> BindingsFit(b)
  {
  }

  // ----- the request -----

  ghost function RequestOf(spec: RequestSpec): Option<PlanningRequest> {
    var collective, fabric, policy := CollectiveOf(spec.collective), Graph(spec.fabric), CanonPolicy(spec.policy);
    if collective.None? || fabric.None? || !PolicyOk(policy) || spec.planGeneration == 0 then None
    else
      match BindingsOf(spec.bindings, collective.value.form.participants, fabric.value)
      case None => None
      case Some(bindings) => Some(PlanningRequest(collective.value, fabric.value, policy, spec.planGeneration,
          bindings))
  }

  /** The same request, declared in another order. */
  ghost predicate SameRequest(a: RequestSpec, b: RequestSpec) {
    && SameCollectiveSpec(a.collective, b.collective) && SameFabric(a.fabric, b.fabric)
       && SamePolicy(a.policy, b.policy)
    && a.planGeneration == b.planGeneration && SameBindings(a.bindings, b.bindings)
  }

  /** Declaration order leaves no trace: the whole request is the same, or both declarations are refused. */
  lemma {:induction false} RequestOrderIrrelevant(a: RequestSpec, b: RequestSpec)
    requires SameRequest(a, b)
    ensures RequestOf(a) == RequestOf(b)
  {
    CollectiveAgrees(a.collective, b.collective);
    FabricOrderIrrelevant(a.fabric, b.fabric);
    PolicyAgrees(a.policy, b.policy);
    if CollectiveOf(a.collective).Some? && Graph(a.fabric).Some? {
      BindingsAgree(a.bindings, b.bindings, CollectiveOf(a.collective).value.form.participants, Graph(a.fabric).value);
    }
  }

  // ----- building what was built -----

  /** The declaration that can be read off a request. */
  function DeclaredRequest(r: PlanningRequest): RequestSpec {
    RequestSpec(CollectiveSpec(r.collective.id, r.collective.kind, r.collective.demand, r.collective.form.groups),
                DeclaredFabric(r.fabric), r.policy, r.planGeneration, r.bindings)
  }

  lemma {:induction false} GroupsReordered(spec: CollectiveSpec, c: BuiltCollective)
    requires CollectiveOf(spec) == Some(c)
    ensures CollectiveOf(spec.(groups := c.form.groups)) == Some(c)
  {
    BuiltIs(spec.groups, c.form);
    BuiltStays(spec.groups, c.form);
    var canon := CanonAll(spec.groups);
    forall i | 0 <= i < |canon|
      ensures SameGroup(spec.groups[i], canon[i])
    {
      CanonIsSame(spec.groups[i]);
    }
    SameEach(spec.groups, canon);
    GroupsNamedAgree(spec.groups, canon);
    SortPermutes(GroupLess, canon);
    NamedPermuted(canon, c.form.groups);
  }

  lemma {:induction false} CanonBindingSame(b: BindingSpec)
    requires BindingFits(b)
    ensures SameBinding(b, CanonBinding(b))
  {
    SortUniqueExact(b.domains);
    SortUniqueExact(b.tiers);
  }

  lemma SameBindingRefl(b: BindingSpec)
    ensures SameBinding(b, b)
  {
  }

  lemma {:induction false} BindingsStay(s: seq<BindingSpec>, participants: seq<nat>, g: FabricGraph)
    requires BindingsOf(s, participants, g).Some?
    ensures BindingsOf(BindingsOf(s, participants, g).value, participants, g) == BindingsOf(s, participants, g)
  {
    var canon := Map(CanonBinding, s);
    forall i | 0 <= i < |canon|
      ensures SameBinding(s[i], canon[i])
    {
      assert BindingFits(s[i]);
      CanonBindingSame(s[i]);
    }
    SameEachBinding(s, canon);
    BindingsAgree(s, canon, participants, g);
    RankedAscends(BindingKey, canon);
    var sorted := BindingsOf(s, participants, g).value;
    SamePermutedBindings(canon, sorted);
    BindingsAgree(canon, sorted, participants, g);
  }

  lemma {:induction false} SameEachBinding(a: seq<BindingSpec>, b: seq<BindingSpec>)
    requires |a| == |b| && forall i | 0 <= i < |b| :: SameBinding(a[i], b[i])
    ensures SameBindings(a, b)
  {
    assert multiset(a) == multiset(a);
  }

  lemma {:induction false} SamePermutedBindings(a: seq<BindingSpec>, b: seq<BindingSpec>)
    requires multiset(a) == multiset(b)
    ensures SameBindings(a, b)
  {
    forall i | 0 <= i < |b|
      ensures SameBinding(b[i], b[i])
    {
      SameBindingRefl(b[i]);
    }
    assert multiset(b) == multiset(a);
  }

  /** Building the declaration read off a request gives the request back. */
  lemma {:induction false} RequestStays(spec: RequestSpec, r: PlanningRequest)
    requires RequestOf(spec) == Some(r)
    ensures RequestOf(DeclaredRequest(r)) == Some(r)
  {
    GroupsReordered(spec.collective, r.collective);
    GraphStays(spec.fabric, r.fabric);
    CanonPolicySame(spec.policy);
    PolicyAgrees(spec.policy, r.policy);
    BindingsStay(spec.bindings, r.collective.form.participants, r.fabric);
  }

  // ----- the builder -----

  method CanonBindings(s: seq<BindingSpec>) returns (r: Option<seq<BindingSpec>>)
    ensures r == if BindingsFit(s) then Some(Map(CanonBinding, s)) else None
  {
    var canon := [];
    for i := 0 to |s|
      invariant BindingsFit(s[..i]) && canon == Map(CanonBinding, s[..i])
    {
      if !BindingFits(s[i]) {
        return None;
      }
      assert s[..i + 1] == s[..i] + [s[i]];
      canon := canon + [CanonBinding(s[i])];
    }
    assert s[..|s|] == s;
    r := Some(canon);
  }

  method CheckBindings(s: seq<BindingSpec>, participants: seq<nat>, g: FabricGraph) returns (ok: bool)
    ensures ok <==> BindingsResolve(participants, g, s)
  {
    for i := 0 to |s|
      invariant forall k {:trigger BindingResolves(participants, g, s[k])} | 0 <= k < i ::
                BindingResolves(participants, g, s[k])
    {
      if !BindingResolves(participants, g, s[i]) {
        return false;
      }
    }
    ok := true;
  }

  method BuildBindings(s: seq<BindingSpec>, participants: seq<nat>, g: FabricGraph)
      returns (r: Option<seq<BindingSpec>>)
    ensures r == BindingsOf(s, participants, g)
  {
    if |s| > MAX_BINDINGS {
      return None;
    }
    var canon := CanonBindings(s);
    if canon.None? {
      return None;
    }
    r := Ranked(BindingKey, canon.value);
    if r.Some? {
      var ok := CheckBindings(r.value, participants, g);
      if !ok {
        r := None;
      }
    }
  }

  method BuildRequest(spec: RequestSpec) returns (r: Option<PlanningRequest>)
    ensures r == RequestOf(spec)
  {
    if !IsId(spec.collective.id) || spec.collective.demand > Requests.MAX_CAPACITY
        || !GroupsNamed(spec.collective.groups) {
      return None;
    }
    var form := Build(spec.collective.groups);
    if form.None? {
      return None;
    }
    var fabric := BuildFabric(spec.fabric);
    var policy := CanonPolicy(spec.policy);
    if fabric.None? || !PolicyOk(policy) || spec.planGeneration == 0 {
      return None;
    }
    var bindings := BuildBindings(spec.bindings, form.value.participants, fabric.value);
    if bindings.None? {
      return None;
    }
    var collective := BuiltCollective(spec.collective.id, spec.collective.kind, spec.collective.demand, form.value);
    r := Some(PlanningRequest(collective, fabric.value, policy, spec.planGeneration, bindings.value));
  }
}
