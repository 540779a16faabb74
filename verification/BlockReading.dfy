/** How the reader takes the sections of the writer. */
module BlockReading {
  import opened Candidates
  import opened Finite
  import opened Collectives
  import opened Declarations
  import opened Identifiers
  import opened FabricBuild
  import opened RequestBuild
  import opened TextTables
  import opened TextLines
  import opened RequestEntries
  import opened RequestText
  import opened RequestEncoding
  import opened LineReading
  import Requests

  predicate Fit(lines: seq<string>) {
    forall i {:trigger lines[i]} | 0 <= i < |lines| :: |lines[i]| <= MAX_LINE
  }

  lemma {:induction false} RunConcat(st: State, a: seq<string>, b: seq<string>)
    ensures Run(st, a + b) == match Run(st, a) case None => None case Some(next) => Run(next, b)
    decreases |a|
  {
    if a == [] {
      assert a + b == b;
    } else {
      assert (a + b)[1..] == a[1..] + b;
      if Step(st, a[0]).Some? {
        RunConcat(Step(st, a[0]).value, a[1..], b);
      }
    }
  }

  lemma {:induction false} RunOne(st: State, line: string)
    ensures Run(st, [line]) == Step(st, line)
  {
    assert [line][1..] == [];
  }

  lemma {:induction false} RunCons(st: State, lines: seq<string>, next: State)
    requires lines != [] && Step(st, lines[0]) == Some(next)
    ensures Run(st, lines) == Run(next, lines[1..])
  {
  }

  lemma FitParts(a: seq<string>, b: seq<string>)
    requires Fit(a + b)
    ensures Fit(a) && Fit(b)
  {
    assert forall i | 0 <= i < |a| :: (a + b)[i] == a[i];
    assert forall i | 0 <= i < |b| :: (a + b)[|a| + i] == b[i];
  }

  function Opened(st: State, s: Section): State {
    st.(section := s, seen := st.seen + {s})
  }

  /** A section header brings the reader into the section. */
  lemma {:induction false} BlockRuns(st: State, s: Section, entries: seq<string>)
    requires s != Outside && s !in st.seen && Fit(Block(s, entries))
    ensures Run(st, Block(s, entries)) == Run(Opened(st, s), entries) && Fit(entries)
  {
    var lines := Block(s, entries);
    FitParts(["", SectionLine(s)], entries);
    assert lines[0] == "" && lines[1] == SectionLine(s) && lines[1..][0] == SectionLine(s)
           && lines[1..][1..] == entries;
    BlankStep(st);
    RunCons(st, lines, st);
    SectionStep(st, s);
    RunCons(st, lines[1..], Opened(st, s));
  }

  // ----- entry by entry -----

  ghost predicate Leads(states: seq<State>, lines: seq<string>, i: nat)
    requires i < |lines| < |states|
  {
    Step(states[i], lines[i]) == Some(states[i + 1])
  }

  ghost predicate LeadsAll(states: seq<State>, lines: seq<string>) {
    |states| == |lines| + 1 && forall i {:trigger Leads(states, lines, i)} | 0 <= i < |lines| :: Leads(states, lines, i)
  }

  lemma {:induction false} LeadsTail(states: seq<State>, lines: seq<string>)
    requires LeadsAll(states, lines) && lines != []
    ensures LeadsAll(states[1..], lines[1..]) && Run(states[0], lines) == Run(states[1], lines[1..])
  {
    forall i | 0 <= i < |lines[1..]|
      ensures Leads(states[1..], lines[1..], i)
    {
      assert Leads(states, lines, i + 1);
    }
    assert Leads(states, lines, 0);
    RunCons(states[0], lines, states[1]);
  }

  /** A run is the sequence of its states. */
  lemma {:induction false} RunStates(states: seq<State>, lines: seq<string>)
    requires LeadsAll(states, lines)
    ensures Run(states[0], lines) == Some(states[|lines|])
    decreases |lines|
  {
    if lines != [] {
      LeadsTail(states, lines);
      RunStates(states[1..], lines[1..]);
    }
  }

  // ----- groups -----

  function WithGroups(st: State, groups: seq<Group>): State {
    st.(spec := st.spec.(collective := st.spec.collective.(groups := groups)))
  }

  ghost predicate GroupsWritable(groups: seq<Group>) {
    && |groups| <= MAX_GROUPS && (forall i, j | 0 <= i < j < |groups| :: groups[i].id != groups[j].id)
    && (forall i {:trigger GroupWritable(groups[i])} | 0 <= i < |groups| :: GroupWritable(groups[i]))
  }

  lemma {:induction false} GroupStep(st: State, g: Group)
    requires st.banner && st.section == Groups && GroupWritable(g) && |GroupLine(g)| <= MAX_LINE
    requires |st.spec.collective.groups| < MAX_GROUPS
    requires forall i | 0 <= i < |st.spec.collective.groups| :: st.spec.collective.groups[i].id != g.id
    ensures Step(st, GroupLine(g)) == Some(WithGroups(st, st.spec.collective.groups + [Stripped(g)]))
  {
    GroupTable();
    GroupReadsBack(g);
    NamedStep(st, g.id, GroupRow(g), GroupLine(g));
  }

  lemma {:induction false} GroupAt(st: State, groups: seq<Group>, i: nat)
    requires st.banner && st.section == Groups && GroupsWritable(groups) && i < |groups|
             && |GroupLine(groups[i])| <= MAX_LINE
    ensures var all := Map(Stripped, groups);
            Step(WithGroups(st, all[..i]), GroupLine(groups[i])) == Some(WithGroups(st, all[..i + 1]))
  {
    var all := Map(Stripped, groups);
    assert GroupWritable(groups[i]);
    assert all[..i] + [Stripped(groups[i])] == all[..i + 1];
    GroupStep(WithGroups(st, all[..i]), groups[i]);
  }

  lemma {:induction false} GroupsRun(st: State, groups: seq<Group>)
    requires st.banner && st.section == Groups && GroupsWritable(groups) && st.spec.collective.groups == []
             && Fit(Map(GroupLine, groups))
    ensures Run(st, Map(GroupLine, groups)) == Some(WithGroups(st, Map(Stripped, groups)))
  {
    var all, lines := Map(Stripped, groups), Map(GroupLine, groups);
    var states := seq(|groups| + 1, i requires 0 <= i <= |groups| => WithGroups(st, all[..i]));
    forall i | 0 <= i < |lines|
      ensures Leads(states, lines, i)
    {
      assert |lines[i]| <= MAX_LINE;
      GroupAt(st, groups, i);
    }
    RunStates(states, lines);
    assert all[..|groups|] == all;
  }

  // ----- domains, nodes and edges -----

  function WithDomains(st: State, domains: seq<DomainSpec>): State {
    st.(spec := st.spec.(fabric := st.spec.fabric.(domains := domains)))
  }

  function WithNodes(st: State, nodes: seq<NodeSpec>): State {
    st.(spec := st.spec.(fabric := st.spec.fabric.(nodes := nodes)))
  }

  function WithEdges(st: State, edges: seq<EdgeSpec>): State {
    st.(spec := st.spec.(fabric := st.spec.fabric.(edges := edges)))
  }

  predicate NodeWritable(n: NodeSpec) {
    NodeNamed(n) && PlacementOk(n.placement)
  }

  lemma {:induction false} DomainStep(st: State, d: DomainSpec)
    requires st.banner && st.section == Domains && DomainNamed(d) && |st.spec.fabric.domains| < MAX_DOMAINS
             && |DomainLine(d)| <= MAX_LINE
    ensures Step(st, DomainLine(d)) == Some(WithDomains(st, st.spec.fabric.domains + [d]))
  {
    ShortTables();
    DomainReadsBack(d);
    NamedStep(st, d.id, DomainRow(d), DomainLine(d));
  }

  lemma {:induction false} DomainAt(st: State, domains: seq<DomainSpec>, i: nat)
    requires st.banner && st.section == Domains && |domains| <= MAX_DOMAINS && i < |domains| && DomainNamed(domains[i])
             && |DomainLine(domains[i])| <= MAX_LINE
    ensures Step(WithDomains(st, domains[..i]), DomainLine(domains[i])) == Some(WithDomains(st, domains[..i + 1]))
  {
    assert domains[..i] + [domains[i]] == domains[..i + 1];
    DomainStep(WithDomains(st, domains[..i]), domains[i]);
  }

  lemma {:induction false} DomainsRun(st: State, domains: seq<DomainSpec>)
    requires st.banner && st.section == Domains && |domains| <= MAX_DOMAINS && st.spec.fabric.domains == []
             && Fit(Map(DomainLine, domains))
    requires forall i {:trigger DomainNamed(domains[i])} | 0 <= i < |domains| :: DomainNamed(domains[i])
    ensures Run(st, Map(DomainLine, domains)) == Some(WithDomains(st, domains))
  {
    var lines := Map(DomainLine, domains);
    var states := seq(|domains| + 1, i requires 0 <= i <= |domains| => WithDomains(st, domains[..i]));
    forall i | 0 <= i < |lines|
      ensures Leads(states, lines, i)
    {
      assert |lines[i]| <= MAX_LINE && DomainNamed(domains[i]);
      DomainAt(st, domains, i);
    }
    RunStates(states, lines);
    assert domains[..|domains|] == domains;
  }

  lemma {:induction false} NodeStep(st: State, n: NodeSpec)
    requires st.banner && st.section == Nodes && NodeWritable(n) && |st.spec.fabric.nodes| < Requests.MAX_NODES
             && |NodeLine(n)| <= MAX_LINE
    ensures Step(st, NodeLine(n)) == Some(WithNodes(st, st.spec.fabric.nodes + [n]))
  {
    NodeTable();
    NodeReadsBack(n);
    NamedStep(st, n.id, NodeRow(n), NodeLine(n));
  }

  lemma {:induction false} NodeAt(st: State, nodes: seq<NodeSpec>, i: nat)
    requires st.banner && st.section == Nodes && |nodes| <= Requests.MAX_NODES && i < |nodes| && NodeWritable(nodes[i])
             && |NodeLine(nodes[i])| <= MAX_LINE
    ensures Step(WithNodes(st, nodes[..i]), NodeLine(nodes[i])) == Some(WithNodes(st, nodes[..i + 1]))
  {
    assert nodes[..i] + [nodes[i]] == nodes[..i + 1];
    NodeStep(WithNodes(st, nodes[..i]), nodes[i]);
  }

  lemma {:induction false} NodesRun(st: State, nodes: seq<NodeSpec>)
    requires st.banner && st.section == Nodes && |nodes| <= Requests.MAX_NODES && st.spec.fabric.nodes == []
             && Fit(Map(NodeLine, nodes))
    requires forall i {:trigger NodeWritable(nodes[i])} | 0 <= i < |nodes| :: NodeWritable(nodes[i])
    ensures Run(st, Map(NodeLine, nodes)) == Some(WithNodes(st, nodes))
  {
    var lines := Map(NodeLine, nodes);
    var states := seq(|nodes| + 1, i requires 0 <= i <= |nodes| => WithNodes(st, nodes[..i]));
    forall i | 0 <= i < |lines|
      ensures Leads(states, lines, i)
    {
      assert |lines[i]| <= MAX_LINE && NodeWritable(nodes[i]);
      NodeAt(st, nodes, i);
    }
    RunStates(states, lines);
    assert nodes[..|nodes|] == nodes;
  }

  lemma {:induction false} EdgeStep(st: State, e: EdgeSpec)
    requires st.banner && st.section == Edges && EdgeFits(e) && |st.spec.fabric.edges| < MAX_EDGES
             && |EdgeLine(e)| <= MAX_LINE
    ensures Step(st, EdgeLine(e)) == Some(WithEdges(st, st.spec.fabric.edges + [e]))
  {
    EdgeTable();
    EdgeReadsBack(e);
    EdgeIsWritable(e);
    NamedStep(st, e.id, EdgeRow(e), EdgeLine(e));
  }

  lemma {:induction false} EdgeAt(st: State, edges: seq<EdgeSpec>, i: nat)
    requires st.banner && st.section == Edges && |edges| <= MAX_EDGES && i < |edges| && EdgeFits(edges[i])
             && |EdgeLine(edges[i])| <= MAX_LINE
    ensures Step(WithEdges(st, edges[..i]), EdgeLine(edges[i])) == Some(WithEdges(st, edges[..i + 1]))
  {
    assert edges[..i] + [edges[i]] == edges[..i + 1];
    EdgeStep(WithEdges(st, edges[..i]), edges[i]);
  }

  lemma {:induction false} EdgesRun(st: State, edges: seq<EdgeSpec>)
    requires st.banner && st.section == Edges && |edges| <= MAX_EDGES && st.spec.fabric.edges == []
             && Fit(Map(EdgeLine, edges))
    requires forall i {:trigger EdgeFits(edges[i])} | 0 <= i < |edges| :: EdgeFits(edges[i])
    ensures Run(st, Map(EdgeLine, edges)) == Some(WithEdges(st, edges))
  {
    var lines := Map(EdgeLine, edges);
    var states := seq(|edges| + 1, i requires 0 <= i <= |edges| => WithEdges(st, edges[..i]));
    forall i | 0 <= i < |lines|
      ensures Leads(states, lines, i)
    {
      assert |lines[i]| <= MAX_LINE && EdgeFits(edges[i]);
      EdgeAt(st, edges, i);
    }
    RunStates(states, lines);
    assert edges[..|edges|] == edges;
  }

  // ----- bindings -----

  predicate BindingWritable(b: BindingSpec) {
    IsId(b.participant) && IsId(b.node) && AllIds(b.domains) && AllShort(b.tiers)
  }

  function WithBindings(st: State, bindings: seq<BindingSpec>): State {
    st.(spec := st.spec.(bindings := bindings))
  }

  lemma {:induction false} BindingStep(st: State, b: BindingSpec)
    requires st.banner && st.section == Bindings && BindingWritable(b) && |st.spec.bindings| < MAX_BINDINGS
             && |BindingLine(b)| <= MAX_LINE
    ensures Step(st, BindingLine(b)) == Some(WithBindings(st, st.spec.bindings + [b]))
  {
    ShortTables();
    BindingReadsBack(b);
    NamedStep(st, b.participant, BindingRow(b), BindingLine(b));
  }

  lemma {:induction false} BindingAt(st: State, bindings: seq<BindingSpec>, i: nat)
    requires st.banner && st.section == Bindings && |bindings| <= MAX_BINDINGS && i < |bindings|
             && BindingWritable(bindings[i]) && |BindingLine(bindings[i])| <= MAX_LINE
    ensures Step(WithBindings(st, bindings[..i]), BindingLine(bindings[i])) == Some(WithBindings(st, bindings[..i + 1]))
  {
    assert bindings[..i] + [bindings[i]] == bindings[..i + 1];
    BindingStep(WithBindings(st, bindings[..i]), bindings[i]);
  }

  lemma {:induction false} BindingsRun(st: State, bindings: seq<BindingSpec>)
    requires st.banner && st.section == Bindings && |bindings| <= MAX_BINDINGS && st.spec.bindings == []
             && Fit(Map(BindingLine, bindings))
    requires forall i {:trigger BindingWritable(bindings[i])} | 0 <= i < |bindings| :: BindingWritable(bindings[i])
    ensures Run(st, Map(BindingLine, bindings)) == Some(WithBindings(st, bindings))
  {
    var lines := Map(BindingLine, bindings);
    var states := seq(|bindings| + 1, i requires 0 <= i <= |bindings| => WithBindings(st, bindings[..i]));
    forall i | 0 <= i < |lines|
      ensures Leads(states, lines, i)
    {
      assert |lines[i]| <= MAX_LINE && BindingWritable(bindings[i]);
      BindingAt(st, bindings, i);
    }
    RunStates(states, lines);
    assert bindings[..|bindings|] == bindings;
  }

  // ----- the collective's own line -----

  lemma {:induction false} CollectiveStep(st: State, c: CollectiveSpec)
    requires st.banner && st.section == CollectiveSection && !st.declared && IsId(c.id)
             && c.demand <= Requests.MAX_CAPACITY
    requires |FieldsLine(COLLECTIVE_KEYS, CollectiveRow(c))| <= MAX_LINE
    ensures Step(st, FieldsLine(COLLECTIVE_KEYS, CollectiveRow(c))) ==
            Some(st.(spec := st.spec.(collective := c.(groups := st.spec.collective.groups)), declared := true))
  {
    ShortTables();
    CollectiveReadsBack(st.spec.collective, c);
    FieldsStep(st, CollectiveRow(c), FieldsLine(COLLECTIVE_KEYS, CollectiveRow(c)));
  }

  // ----- the policy -----

  function WithPolicyOf(st: State, p: PolicySpec): State {
    st.(spec := st.spec.(policy := p))
  }

  /** A line with a single field. */
  lemma {:induction false} LoneStep(st: State, i: nat, value: string, line: string)
    requires st.banner && (st.section == PolicySection || st.section == Forbidden) && Keys(KeysOf(st.section))
    requires i < |KeysOf(st.section)| && Word(value) && |line| <= MAX_LINE
    requires line == FieldsLine(KeysOf(st.section), Lone(|KeysOf(st.section)|, i, value))
    ensures Step(st, line) == Advanced(st, SetFields(st, Lone(|KeysOf(st.section)|, i, value)))
  {
    LoneFields(KeysOf(st.section), i, value);
    FieldsStep(st, Lone(|KeysOf(st.section)|, i, value), line);
  }

  lemma {:induction false} PolicyStep(st: State, p: PolicySpec, i: nat)
    requires st.banner && st.section == PolicySection && i < 12 && PolicyWritable(p) && |PolicyLine(p, i)| <= MAX_LINE
    requires i == 11 ==> p.allowedTiers != [] && st.spec.policy.allowedTiers == []
    ensures Step(st, PolicyLine(p, i)) == Some(WithPolicyOf(st, Taken(st.spec.policy, p, i)))
  {
    PolicyTable();
    PolicyFieldReadsBack(st.spec.policy, p, i);
    LoneStep(st, i, PolicyValue(p, i), PolicyLine(p, i));
  }

  /** The first n fields, one after the other. */
  function TakenUpTo(q: PolicySpec, p: PolicySpec, n: nat): PolicySpec
    requires n <= 12
  {
    if n == 0 then q else Taken(TakenUpTo(q, p, n - 1), p, n - 1)
  }

  lemma {:induction false} TiersUntaken(q: PolicySpec, p: PolicySpec, n: nat)
    requires n <= 11
    ensures TakenUpTo(q, p, n).allowedTiers == q.allowedTiers
  {
    if n > 0 {
      TiersUntaken(q, p, n - 1);
    }
  }

  lemma {:induction false} PolicyAt(st: State, p: PolicySpec, i: nat)
    requires st.banner && st.section == PolicySection && PolicyWritable(p) && st.spec.policy.allowedTiers == []
    requires i < |PolicyLines(p)| && |PolicyLine(p, i)| <= MAX_LINE
    ensures Step(WithPolicyOf(st, TakenUpTo(st.spec.policy, p, i)), PolicyLine(p, i)) ==
            Some(WithPolicyOf(st, TakenUpTo(st.spec.policy, p, i + 1)))
  {
    TiersUntaken(st.spec.policy, p, i);
    PolicyStep(WithPolicyOf(st, TakenUpTo(st.spec.policy, p, i)), p, i);
  }

  lemma {:induction false} PolicyRun(st: State, p: PolicySpec)
    requires st.banner && st.section == PolicySection && PolicyWritable(p) && Fit(PolicyLines(p))
             && st.spec.policy.allowedTiers == []
    ensures Run(st, PolicyLines(p)) == Some(WithPolicyOf(st, TakenUpTo(st.spec.policy, p, |PolicyLines(p)|)))
  {
    var lines := PolicyLines(p);
    var states := seq(|lines| + 1, i requires 0 <= i <= |lines| => WithPolicyOf(st, TakenUpTo(st.spec.policy, p, i)));
    forall i | 0 <= i < |lines|
      ensures Leads(states, lines, i)
    {
      assert lines[i] == PolicyLine(p, i) && |lines[i]| <= MAX_LINE;
      PolicyAt(st, p, i);
    }
    RunStates(states, lines);
  }

  /** All fields of the policy section are those of p. */
  lemma {:induction false} AllTaken(q: PolicySpec, p: PolicySpec, n: nat)
    requires q.allowedTiers == [] && n == if p.allowedTiers == [] then 11 else 12
    ensures TakenUpTo(q, p, n) == p.(generation := q.generation, forbiddenNodes := q.forbiddenNodes,
                                     forbiddenTiers := q.forbiddenTiers, forbiddenDomains := q.forbiddenDomains)
  {
    var a := Taken(Taken(Taken(q, p, 0), p, 1), p, 2);
    assert TakenUpTo(q, p, 1) == Taken(q, p, 0) && TakenUpTo(q, p, 3) == a;
    var b := Taken(Taken(Taken(a, p, 3), p, 4), p, 5);
    assert TakenUpTo(q, p, 4) == Taken(a, p, 3) && TakenUpTo(q, p, 6) == b;
    var c := Taken(Taken(Taken(b, p, 6), p, 7), p, 8);
    assert TakenUpTo(q, p, 7) == Taken(b, p, 6) && TakenUpTo(q, p, 9) == c;
    var d := Taken(Taken(c, p, 9), p, 10);
    assert TakenUpTo(q, p, 10) == Taken(c, p, 9) && TakenUpTo(q, p, 11) == d;
    assert [] + p.allowedTiers == p.allowedTiers;
  }

  // ----- forbidden resources -----

  lemma {:induction false} ForbiddenStep(st: State, p: PolicySpec, i: nat)
    requires st.banner && st.section == Forbidden && i < 3 && PolicyWritable(p) && |ForbiddenLine(p, i)| <= MAX_LINE
    requires ForbiddenSet(p, i) != [] && ForbiddenSet(st.spec.policy, i) == []
    ensures Step(st, ForbiddenLine(p, i)) == Some(WithPolicyOf(st, Forbidding(st.spec.policy, p, i)))
  {
    ShortTables();
    ForbiddenReadsBack(st.spec.policy, p, i);
    LoneStep(st, i, Listed(ForbiddenSet(p, i)), ForbiddenLine(p, i));
  }

  lemma {:induction false} ForbiddenNext(st: State, p: PolicySpec, i: nat)
    requires st.banner && st.section == Forbidden && PolicyWritable(p) && i < 3 && Fit(ForbiddenLines(p, i))
    requires ForbiddenSet(st.spec.policy, i) == []
    ensures Fit(ForbiddenLines(p, i + 1))
    ensures Run(st, ForbiddenLines(p, i)) == Run(WithPolicyOf(st, Forbidding(st.spec.policy, p, i)),
            ForbiddenLines(p, i + 1))
  {
    var next := WithPolicyOf(st, Forbidding(st.spec.policy, p, i));
    var lines, rest := ForbiddenLines(p, i), ForbiddenLines(p, i + 1);
    if ForbiddenSet(p, i) == [] {
      assert next == st && lines == rest;
    } else {
      assert lines[0] == ForbiddenLine(p, i) && lines[1..] == rest;
      ForbiddenStep(st, p, i);
      RunCons(st, lines, next);
    }
  }

  function ForbiddingFrom(q: PolicySpec, p: PolicySpec, i: nat): PolicySpec
    requires i <= 3
    decreases 3 - i
  {
    if i == 3 then q else ForbiddingFrom(Forbidding(q, p, i), p, i + 1)
  }

  /** The sets from the i-th on have not been read yet. */
  ghost predicate Unread(q: PolicySpec, i: nat) {
    forall k {:trigger ForbiddenSet(q, k)} | i <= k < 3 :: ForbiddenSet(q, k) == []
  }

  lemma ForbiddingKeeps(q: PolicySpec, p: PolicySpec, i: nat)
    requires i < 3 && Unread(q, i)
    ensures ForbiddenSet(q, i) == [] && Unread(Forbidding(q, p, i), i + 1)
  {
    forall k | i < k < 3
      ensures ForbiddenSet(Forbidding(q, p, i), k) == []
    {
      assert ForbiddenSet(q, k) == [];
    }
  }

  lemma {:induction false} ForbiddenRun(st: State, p: PolicySpec, i: nat)
    requires st.banner && st.section == Forbidden && PolicyWritable(p) && i <= 3 && Fit(ForbiddenLines(p, i))
    requires Unread(st.spec.policy, i)
    ensures Run(st, ForbiddenLines(p, i)) == Some(WithPolicyOf(st, ForbiddingFrom(st.spec.policy, p, i)))
    decreases 3 - i
  {
    var q := st.spec.policy;
    if i == 3 {
      NoneForbidden(st, p);
    } else {
      ForbiddingKeeps(q, p, i);
      ForbiddenNext(st, p, i);
      PolicyReplaced(st, Forbidding(q, p, i), ForbiddingFrom(q, p, i));
      ForbiddenRun(WithPolicyOf(st, Forbidding(q, p, i)), p, i + 1);
    }
  }

  lemma {:induction false} NoneForbidden(st: State, p: PolicySpec)
    ensures ForbiddenLines(p, 3) == [] && Run(st, []) == Some(st) == Some(WithPolicyOf(st, st.spec.policy))
  {
  }

  lemma PolicyReplaced(st: State, x: PolicySpec, y: PolicySpec)
    ensures var next := WithPolicyOf(st, x);
            && next.spec.policy == x && next.banner == st.banner && next.section == st.section
            && WithPolicyOf(next, y) == WithPolicyOf(st, y)
  {
  }

  lemma {:induction false} AllForbidden(q: PolicySpec, p: PolicySpec)
    ensures ForbiddingFrom(q, p, 0) ==
            q.(forbiddenNodes := p.forbiddenNodes, forbiddenTiers := p.forbiddenTiers, forbiddenDomains :=
                p.forbiddenDomains)
  {
    assert ForbiddingFrom(q, p, 0) == ForbiddingFrom(Forbidding(Forbidding(q, p, 0), p, 1), p, 2);
  }
}
