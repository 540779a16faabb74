/** Reading a written declaration: every section comes back, groups without what the writer leaves out. */
module SpecReading {
  import opened Candidates
  import opened Finite
  import opened Collectives
  import opened Declarations
  import opened Identifiers
  import opened FabricBuild
  import opened TextFields
  import opened TextTables
  import opened TextLines
  import opened RequestEntries
  import opened RequestText
  import opened RequestEncoding
  import opened LineReading
  import opened BlockReading
  import Requests

  // ----- what can be written -----

  predicate GenerationsWritable(spec: RequestSpec) {
    forall i {:trigger LABELS[i]} | 0 <= i < |LABELS| :: GenerationOf(spec, LABELS[i]) < U64_LIMIT
  }

  ghost predicate CollectiveWritable(c: CollectiveSpec) {
    IsId(c.id) && c.demand <= Requests.MAX_CAPACITY && GroupsWritable(c.groups)
  }

  ghost predicate FabricWritable(f: FabricSpec) {
    && WithinSizes(f)
    && (forall i {:trigger DomainNamed(f.domains[i])} | 0 <= i < |f.domains| :: DomainNamed(f.domains[i]))
    && (forall i {:trigger NodeWritable(f.nodes[i])} | 0 <= i < |f.nodes| :: NodeWritable(f.nodes[i]))
    && (forall i {:trigger EdgeFits(f.edges[i])} | 0 <= i < |f.edges| :: EdgeFits(f.edges[i]))
  }

  ghost predicate BindingsWritable(s: seq<BindingSpec>) {
    |s| <= MAX_BINDINGS && forall i {:trigger BindingWritable(s[i])} | 0 <= i < |s| :: BindingWritable(s[i])
  }

  ghost predicate SpecWritable(spec: RequestSpec) {
    && GenerationsWritable(spec) && CollectiveWritable(spec.collective) && FabricWritable(spec.fabric)
    && BindingsWritable(spec.bindings) && PolicyWritable(spec.policy)
  }

  // ----- headers -----

  function LabelledUpTo(base: RequestSpec, spec: RequestSpec, n: nat): RequestSpec
    requires n <= |LABELS|
  {
    if n == 0 then base else SetGeneration(LabelledUpTo(base, spec, n - 1), LABELS[n - 1],
        GenerationOf(spec, LABELS[n - 1]))
  }

  lemma {:induction false} LabelAt(st: State, spec: RequestSpec, i: nat)
    requires st.banner && st.section == Outside && GenerationsWritable(spec) && i < |LABELS|
             && |LabelLines(spec)[i]| <= MAX_LINE
    ensures Step(st.(spec := LabelledUpTo(st.spec, spec, i)), LabelLines(spec)[i]) ==
            Some(st.(spec := LabelledUpTo(st.spec, spec, i + 1)))
  {
    HeaderStep(st.(spec := LabelledUpTo(st.spec, spec, i)), LABELS[i], GenerationOf(spec, LABELS[i]));
  }

  lemma {:induction false} LabelsRun(st: State, spec: RequestSpec)
    requires st.banner && st.section == Outside && GenerationsWritable(spec) && Fit(LabelLines(spec))
    ensures Run(st, LabelLines(spec)) == Some(st.(spec := LabelledUpTo(st.spec, spec, |LABELS|)))
  {
    var lines := LabelLines(spec);
    var states := seq(|lines| + 1, i requires 0 <= i <= |lines| => st.(spec := LabelledUpTo(st.spec, spec, i)));
    forall i | 0 <= i < |lines|
      ensures Leads(states, lines, i)
    {
      assert |lines[i]| <= MAX_LINE;
      LabelAt(st, spec, i);
    }
    RunStates(states, lines);
  }

  lemma {:induction false} AllLabelled(base: RequestSpec, spec: RequestSpec)
    ensures LabelledUpTo(base, spec, |LABELS|) ==
            base.(planGeneration := spec.planGeneration, fabric := base.fabric.(generations := spec.fabric.generations),
                  policy := base.policy.(generation := spec.policy.generation))
  {
    var g := spec.fabric.generations;
    var a := SetGeneration(base, PlanLabel, spec.planGeneration);
    assert LABELS[0] == PlanLabel && LabelledUpTo(base, spec, 1) == a;
    var b := SetGeneration(a, TopologyLabel, g.topology);
    assert LABELS[1] == TopologyLabel && LabelledUpTo(base, spec, 2) == b;
    var c := SetGeneration(b, DomainLabel, g.domains);
    assert LABELS[2] == DomainLabel && LabelledUpTo(base, spec, 3) == c;
    var d := SetGeneration(c, CapacityLabel, g.capacity);
    assert LABELS[3] == CapacityLabel && LabelledUpTo(base, spec, 4) == d;
    assert LABELS[4] == PolicyLabel && LabelledUpTo(base, spec, 5) ==
           SetGeneration(d, PolicyLabel, spec.policy.generation);
  }

  function AfterHeaders(spec: RequestSpec): State {
    var st := Initial();
    st.(banner := true, spec := st.spec.(planGeneration := spec.planGeneration,
                                         fabric := st.spec.fabric.(generations := spec.fabric.generations),
                                         policy := st.spec.policy.(generation := spec.policy.generation)))
  }

  lemma {:induction false} HeadersRun(spec: RequestSpec)
    requires GenerationsWritable(spec) && Fit(HeaderLines(spec))
    ensures Run(Initial(), HeaderLines(spec)) == Some(AfterHeaders(spec))
  {
    var st, lines := Initial(), HeaderLines(spec);
    FitParts([BannerLine()], LabelLines(spec));
    assert lines[0] == BannerLine() && lines[1..] == LabelLines(spec);
    BannerStep(st);
    var next := st.(banner := true);
    RunCons(st, lines, next);
    LabelsRun(next, spec);
    AllLabelled(next.spec, spec);
  }

  // ----- the collective -----

  function AfterCollective(st: State, c: CollectiveSpec): State {
    st.(spec := st.spec.(collective := c.(groups := Map(Stripped, c.groups))), declared := true, section := Groups,
        seen := st.seen + {CollectiveSection} + {Groups})
  }

  lemma {:induction false} CollectiveRuns(st: State, c: CollectiveSpec)
    requires st.banner && !st.declared && st.seen == {} && st.spec.collective.groups == [] && CollectiveWritable(c)
    requires Fit(CollectiveBlock(c))
    ensures Run(st, CollectiveBlock(c)) == Some(AfterCollective(st, c))
  {
    var line := FieldsLine(COLLECTIVE_KEYS, CollectiveRow(c));
    var own, groups := Block(CollectiveSection, [line]), Block(Groups, Map(GroupLine, c.groups));
    FitParts(own, groups);
    RunConcat(st, own, groups);
    BlockRuns(st, CollectiveSection, [line]);
    var inside := Opened(st, CollectiveSection);
    assert |[line][0]| <= MAX_LINE;
    RunOne(inside, line);
    CollectiveStep(inside, c);
    var next := inside.(spec := st.spec.(collective := c.(groups := [])), declared := true);
    BlockRuns(next, Groups, Map(GroupLine, c.groups));
    GroupsRun(Opened(next, Groups), c.groups);
  }

  // ----- the fabric -----

  function AfterDomains(st: State, domains: seq<DomainSpec>): State {
    if domains == [] then st else Opened(WithDomains(st, domains), Domains)
  }

  lemma {:induction false} DomainsBlockRuns(st: State, domains: seq<DomainSpec>)
    requires st.banner && Domains !in st.seen && st.spec.fabric.domains == [] && |domains| <= MAX_DOMAINS
    requires forall i {:trigger DomainNamed(domains[i])} | 0 <= i < |domains| :: DomainNamed(domains[i])
    requires Fit(OptionalBlock(Domains, Map(DomainLine, domains)))
    ensures Run(st, OptionalBlock(Domains, Map(DomainLine, domains))) == Some(AfterDomains(st, domains))
  {
    if domains != [] {
      BlockRuns(st, Domains, Map(DomainLine, domains));
      DomainsRun(Opened(st, Domains), domains);
    }
  }

  function AfterNodes(st: State, f: FabricSpec): State {
    Opened(WithEdges(Opened(WithNodes(st, f.nodes), Nodes), f.edges), Edges)
  }

  lemma {:induction false} NodesBlockRuns(st: State, f: FabricSpec)
    requires st.banner && Nodes !in st.seen && st.spec.fabric.nodes == [] && FabricWritable(f)
    requires Fit(Block(Nodes, Map(NodeLine, f.nodes)))
    ensures Run(st, Block(Nodes, Map(NodeLine, f.nodes))) == Some(Opened(WithNodes(st, f.nodes), Nodes))
  {
    BlockRuns(st, Nodes, Map(NodeLine, f.nodes));
    NodesRun(Opened(st, Nodes), f.nodes);
  }

  lemma {:induction false} EdgesBlockRuns(st: State, f: FabricSpec)
    requires st.banner && Edges !in st.seen && st.spec.fabric.edges == [] && FabricWritable(f)
    requires Fit(Block(Edges, Map(EdgeLine, f.edges)))
    ensures Run(st, Block(Edges, Map(EdgeLine, f.edges))) == Some(Opened(WithEdges(st, f.edges), Edges))
  {
    BlockRuns(st, Edges, Map(EdgeLine, f.edges));
    EdgesRun(Opened(st, Edges), f.edges);
  }

  lemma {:induction false} NodesAndEdgesRun(st: State, f: FabricSpec)
    requires st.banner && Nodes !in st.seen && Edges !in st.seen
    requires st.spec.fabric.nodes == [] && st.spec.fabric.edges == []
    requires FabricWritable(f) && Fit(Block(Nodes, Map(NodeLine, f.nodes)) + Block(Edges, Map(EdgeLine, f.edges)))
    ensures Run(st, Block(Nodes, Map(NodeLine, f.nodes)) + Block(Edges, Map(EdgeLine, f.edges)))
            == Some(AfterNodes(st, f))
  {
    var nodes, edges := Block(Nodes, Map(NodeLine, f.nodes)), Block(Edges, Map(EdgeLine, f.edges));
    FitParts(nodes, edges);
    RunConcat(st, nodes, edges);
    NodesBlockRuns(st, f);
    EdgesBlockRuns(Opened(WithNodes(st, f.nodes), Nodes), f);
  }

  lemma {:induction false} FabricRuns(st: State, f: FabricSpec)
    requires st.banner && Domains !in st.seen && Nodes !in st.seen && Edges !in st.seen
    requires st.spec.fabric == FabricSpec(f.generations, [], [], []) && FabricWritable(f) && Fit(FabricBlock(f))
    ensures Run(st, FabricBlock(f)) == Some(AfterNodes(AfterDomains(st, f.domains), f))
    ensures AfterNodes(AfterDomains(st, f.domains), f).spec == st.spec.(fabric := f)
  {
    var domains := OptionalBlock(Domains, Map(DomainLine, f.domains));
    var rest := Block(Nodes, Map(NodeLine, f.nodes)) + Block(Edges, Map(EdgeLine, f.edges));
    assert FabricBlock(f) == domains + rest;
    FitParts(domains, rest);
    RunConcat(st, domains, rest);
    DomainsBlockRuns(st, f.domains);
    NodesAndEdgesRun(AfterDomains(st, f.domains), f);
  }

  // ----- bindings -----

  function AfterBindings(st: State, bindings: seq<BindingSpec>): State {
    if bindings == [] then st else Opened(WithBindings(st, bindings), Bindings)
  }

  lemma {:induction false} BindingsBlockRuns(st: State, bindings: seq<BindingSpec>)
    requires st.banner && Bindings !in st.seen && st.spec.bindings == [] && BindingsWritable(bindings)
    requires Fit(OptionalBlock(Bindings, Map(BindingLine, bindings)))
    ensures Run(st, OptionalBlock(Bindings, Map(BindingLine, bindings))) == Some(AfterBindings(st, bindings))
  {
    if bindings != [] {
      BlockRuns(st, Bindings, Map(BindingLine, bindings));
      BindingsRun(Opened(st, Bindings), bindings);
    }
  }

  // ----- the policy -----

  function AfterFields(st: State, p: PolicySpec): State {
    Opened(WithPolicyOf(st, p.(forbiddenNodes := [], forbiddenTiers := [], forbiddenDomains := [])), PolicySection)
  }

  lemma {:induction false} PolicyFieldsRun(st: State, p: PolicySpec)
    requires st.banner && PolicySection !in st.seen && PolicyWritable(p)
             && st.spec.policy == DefaultPolicy().(generation := p.generation)
    requires Fit(Block(PolicySection, PolicyLines(p)))
    ensures Run(st, Block(PolicySection, PolicyLines(p))) == Some(AfterFields(st, p))
  {
    BlockRuns(st, PolicySection, PolicyLines(p));
    PolicyRun(Opened(st, PolicySection), p);
    AllTaken(st.spec.policy, p, |PolicyLines(p)|);
  }

  function AfterForbidden(st: State, p: PolicySpec): State {
    if ForbiddenLines(p, 0) == [] then st else Opened(WithPolicyOf(st, p), Forbidden)
  }

  lemma {:induction false} ForbiddenBlockRuns(st: State, p: PolicySpec)
    requires st.banner && Forbidden !in st.seen && PolicyWritable(p)
    requires st.spec.policy == p.(forbiddenNodes := [], forbiddenTiers := [], forbiddenDomains := [])
    requires Fit(OptionalBlock(Forbidden, ForbiddenLines(p, 0)))
    ensures Run(st, OptionalBlock(Forbidden, ForbiddenLines(p, 0))) == Some(AfterForbidden(st, p))
  {
    var lines := ForbiddenLines(p, 0);
    if lines != [] {
      BlockRuns(st, Forbidden, lines);
      ForbiddenRun(Opened(st, Forbidden), p, 0);
      AllForbidden(st.spec.policy, p);
    }
  }

  lemma {:induction false} NothingForbidden(p: PolicySpec)
    requires ForbiddenLines(p, 0) == []
    ensures p == p.(forbiddenNodes := [], forbiddenTiers := [], forbiddenDomains := [])
  {
    assert ForbiddenSet(p, 0) == [] && ForbiddenLines(p, 1) == [];
    assert ForbiddenSet(p, 1) == [] && ForbiddenLines(p, 2) == [];
    assert ForbiddenSet(p, 2) == [];
  }

  lemma {:induction false} PolicyRuns(st: State, p: PolicySpec)
    requires st.banner && PolicySection !in st.seen && Forbidden !in st.seen && PolicyWritable(p)
    requires st.spec.policy == DefaultPolicy().(generation := p.generation) && Fit(PolicyBlock(p))
    ensures Run(st, PolicyBlock(p)) == Some(AfterForbidden(AfterFields(st, p), p))
    ensures AfterForbidden(AfterFields(st, p), p).spec == st.spec.(policy := p)
  {
    var fields, forbidden := Block(PolicySection, PolicyLines(p)), OptionalBlock(Forbidden, ForbiddenLines(p, 0));
    FitParts(fields, forbidden);
    RunConcat(st, fields, forbidden);
    PolicyFieldsRun(st, p);
    ForbiddenBlockRuns(AfterFields(st, p), p);
    if ForbiddenLines(p, 0) == [] {
      NothingForbidden(p);
    }
  }

  // ----- the whole declaration -----

  function StrippedSpec(spec: RequestSpec): RequestSpec {
    spec.(collective := spec.collective.(groups := Map(Stripped, spec.collective.groups)))
  }

  function FrontLines(spec: RequestSpec): seq<string> {
    HeaderLines(spec) + CollectiveBlock(spec.collective) + FabricBlock(spec.fabric)
  }

  function BackLines(spec: RequestSpec): seq<string> {
    OptionalBlock(Bindings, Map(BindingLine, spec.bindings)) + PolicyBlock(spec.policy)
  }

  /** Where the reader stands after the fabric. */
  ghost predicate Halfway(spec: RequestSpec, st: State) {
    && st.banner && Bindings !in st.seen && PolicySection !in st.seen && Forbidden !in st.seen && st.spec.bindings == []
    && st.spec.policy == DefaultPolicy().(generation := spec.policy.generation)
    && st.spec.(bindings := spec.bindings, policy := spec.policy) == StrippedSpec(spec)
  }

  /** Where the reader stands after the groups. */
  ghost predicate Started(spec: RequestSpec, st: State) {
    && st.banner && st.seen == {CollectiveSection, Groups}
    && st.spec == StrippedSpec(spec).(fabric := FabricSpec(spec.fabric.generations, [], [], []), bindings := [],
                                      policy := DefaultPolicy().(generation := spec.policy.generation))
  }

  lemma {:induction false} StartRuns(spec: RequestSpec) returns (st: State)
    requires SpecWritable(spec) && Fit(HeaderLines(spec) + CollectiveBlock(spec.collective))
    ensures Run(Initial(), HeaderLines(spec) + CollectiveBlock(spec.collective)) == Some(st) && Started(spec, st)
  {
    var h, c := HeaderLines(spec), CollectiveBlock(spec.collective);
    FitParts(h, c);
    HeadersRun(spec);
    CollectiveRuns(AfterHeaders(spec), spec.collective);
    st := AfterCollective(AfterHeaders(spec), spec.collective);
    RunConcat(Initial(), h, c);
  }

  lemma {:induction false} FabricPart(spec: RequestSpec, st: State) returns (next: State)
    requires FabricWritable(spec.fabric) && Fit(FabricBlock(spec.fabric)) && Started(spec, st)
    ensures Run(st, FabricBlock(spec.fabric)) == Some(next) && Halfway(spec, next)
  {
    FabricRuns(st, spec.fabric);
    next := AfterNodes(AfterDomains(st, spec.fabric.domains), spec.fabric);
  }

  lemma {:induction false} FrontRuns(spec: RequestSpec) returns (st: State)
    requires SpecWritable(spec) && Fit(FrontLines(spec))
    ensures Run(Initial(), FrontLines(spec)) == Some(st) && Halfway(spec, st)
  {
    var start, f := HeaderLines(spec) + CollectiveBlock(spec.collective), FabricBlock(spec.fabric);
    FitParts(start, f);
    var s1 := StartRuns(spec);
    st := FabricPart(spec, s1);
    RunConcat(Initial(), start, f);
  }

  lemma {:induction false} BackRuns(spec: RequestSpec, st: State) returns (end: State)
    requires SpecWritable(spec) && Fit(BackLines(spec)) && Halfway(spec, st)
    ensures Run(st, BackLines(spec)) == Some(end) && end.banner && end.spec == StrippedSpec(spec)
  {
    var b, p := OptionalBlock(Bindings, Map(BindingLine, spec.bindings)), PolicyBlock(spec.policy);
    FitParts(b, p);
    BindingsBlockRuns(st, spec.bindings);
    var next := AfterBindings(st, spec.bindings);
    PolicyRuns(next, spec.policy);
    end := AfterForbidden(AfterFields(next, spec.policy), spec.policy);
    RunConcat(st, b, p);
  }

  /** Everything written is read again; of a group, what the writer keeps. */
  lemma {:induction false} SpecRuns(spec: RequestSpec) returns (end: State)
    requires SpecWritable(spec) && Fit(SpecLines(spec))
    ensures Run(Initial(), SpecLines(spec)) == Some(end) && end.banner && end.spec == StrippedSpec(spec)
  {
    SpecLinesHalves(spec);
    FitParts(FrontLines(spec), BackLines(spec));
    var st := FrontRuns(spec);
    end := BackRuns(spec, st);
    RunConcat(Initial(), FrontLines(spec), BackLines(spec));
  }

  lemma SpecLinesHalves(spec: RequestSpec)
    ensures SpecLines(spec) == FrontLines(spec) + BackLines(spec)
  {
    Assoc(FrontLines(spec), OptionalBlock(Bindings, Map(BindingLine, spec.bindings)), PolicyBlock(spec.policy));
  }

  // ----- no line holds a newline -----

  lemma {:induction false} NamedLineFree(id: nat, keys: seq<string>, row: Row)
    requires IsId(id) && |keys| == |row| && Keys(keys) && Writable(row)
    ensures Free(NamedLine(id, keys, row), '\n')
  {
    FieldsWordy(keys, row);
    NamedParts(id, Fields(keys, row));
    SoundIsTidy(NamedLine(id, keys, row));
  }

  lemma {:induction false} LoneLineFree(keys: seq<string>, i: nat, value: string)
    requires Keys(keys) && i < |keys| && Word(value)
    ensures Free(FieldsLine(keys, Lone(|keys|, i, value)), '\n')
  {
    LoneFields(keys, i, value);
    FieldsWordy(keys, Lone(|keys|, i, value));
    RenderSound(Fields(keys, Lone(|keys|, i, value)));
    SoundIsTidy(FieldsLine(keys, Lone(|keys|, i, value)));
  }

  lemma FreeConcat(a: seq<string>, b: seq<string>)
    requires ItemsFree(a, '\n') && ItemsFree(b, '\n')
    ensures ItemsFree(a + b, '\n')
  {
  }

  lemma {:induction false} BlockFree(s: Section, entries: seq<string>)
    requires s != Outside && ItemsFree(entries, '\n')
    ensures ItemsFree(Block(s, entries), '\n') && ItemsFree(OptionalBlock(s, entries), '\n')
  {
    SectionReadsBack(s);
    WordIsSolid(SectionName(s));
    assert ItemsFree(["", SectionLine(s)], '\n');
    FreeConcat(["", SectionLine(s)], entries);
  }

  lemma {:induction false} HeadersFree(spec: RequestSpec)
    ensures ItemsFree(HeaderLines(spec), '\n')
  {
    assert Word("cpath-request");
    WordThen("cpath-request", 1);
    SoundIsTidy(BannerLine());
    forall i | 0 <= i < |LABELS|
      ensures Free(LabelLines(spec)[i], '\n')
    {
      LabelIsWord(LABELS[i]);
      WordThen(LabelName(LABELS[i]), GenerationOf(spec, LABELS[i]));
      SoundIsTidy(LabelLines(spec)[i]);
    }
    FreeConcat([BannerLine()], LabelLines(spec));
  }

  lemma {:induction false} CollectiveFree(c: CollectiveSpec)
    requires CollectiveWritable(c)
    ensures ItemsFree(CollectiveBlock(c), '\n')
  {
    ShortTables();
    CollectiveReadsBack(c, c);
    FieldsWordy(COLLECTIVE_KEYS, CollectiveRow(c));
    RenderSound(Fields(COLLECTIVE_KEYS, CollectiveRow(c)));
    SoundIsTidy(FieldsLine(COLLECTIVE_KEYS, CollectiveRow(c)));
    BlockFree(CollectiveSection, [FieldsLine(COLLECTIVE_KEYS, CollectiveRow(c))]);
    GroupsFree(c.groups);
    BlockFree(Groups, Map(GroupLine, c.groups));
    FreeConcat(Block(CollectiveSection, [FieldsLine(COLLECTIVE_KEYS, CollectiveRow(c))]),
        Block(Groups, Map(GroupLine, c.groups)));
  }

  lemma {:induction false} GroupsFree(groups: seq<Group>)
    requires GroupsWritable(groups)
    ensures ItemsFree(Map(GroupLine, groups), '\n')
  {
    forall i | 0 <= i < |groups|
      ensures Free(GroupLine(groups[i]), '\n')
    {
      assert GroupWritable(groups[i]);
      GroupTable();
      GroupReadsBack(groups[i]);
      NamedLineFree(groups[i].id, GROUP_KEYS, GroupRow(groups[i]));
    }
  }

  lemma {:induction false} DomainsFree(f: FabricSpec)
    requires FabricWritable(f)
    ensures ItemsFree(Map(DomainLine, f.domains), '\n')
  {
    forall i | 0 <= i < |f.domains|
      ensures Free(DomainLine(f.domains[i]), '\n')
    {
      assert DomainNamed(f.domains[i]);
      ShortTables();
      DomainReadsBack(f.domains[i]);
      NamedLineFree(f.domains[i].id, DOMAIN_KEYS, DomainRow(f.domains[i]));
    }
  }

  lemma {:induction false} NodesFree(f: FabricSpec)
    requires FabricWritable(f)
    ensures ItemsFree(Map(NodeLine, f.nodes), '\n')
  {
    forall i | 0 <= i < |f.nodes|
      ensures Free(NodeLine(f.nodes[i]), '\n')
    {
      assert NodeWritable(f.nodes[i]);
      NodeTable();
      NodeReadsBack(f.nodes[i]);
      NamedLineFree(f.nodes[i].id, NODE_KEYS, NodeRow(f.nodes[i]));
    }
  }

  lemma {:induction false} EdgesFree(f: FabricSpec)
    requires FabricWritable(f)
    ensures ItemsFree(Map(EdgeLine, f.edges), '\n')
  {
    forall i | 0 <= i < |f.edges|
      ensures Free(EdgeLine(f.edges[i]), '\n')
    {
      assert EdgeFits(f.edges[i]);
      EdgeTable();
      EdgeIsWritable(f.edges[i]);
      NamedLineFree(f.edges[i].id, EDGE_KEYS, EdgeRow(f.edges[i]));
    }
  }

  lemma {:induction false} FabricFree(f: FabricSpec)
    requires FabricWritable(f)
    ensures ItemsFree(FabricBlock(f), '\n')
  {
    DomainsFree(f);
    NodesFree(f);
    EdgesFree(f);
    var d, n, e := Map(DomainLine, f.domains), Map(NodeLine, f.nodes), Map(EdgeLine, f.edges);
    BlockFree(Domains, d);
    BlockFree(Nodes, n);
    BlockFree(Edges, e);
    FreeConcat(OptionalBlock(Domains, d), Block(Nodes, n));
    FreeConcat(OptionalBlock(Domains, d) + Block(Nodes, n), Block(Edges, e));
  }

  lemma {:induction false} BindingsFree(s: seq<BindingSpec>)
    requires BindingsWritable(s)
    ensures ItemsFree(OptionalBlock(Bindings, Map(BindingLine, s)), '\n')
  {
    forall i | 0 <= i < |s|
      ensures Free(BindingLine(s[i]), '\n')
    {
      assert BindingWritable(s[i]);
      ShortTables();
      BindingReadsBack(s[i]);
      NamedLineFree(s[i].participant, BINDING_KEYS, BindingRow(s[i]));
    }
    BlockFree(Bindings, Map(BindingLine, s));
  }

  lemma {:induction false} PolicyFree(p: PolicySpec)
    requires PolicyWritable(p)
    ensures ItemsFree(PolicyBlock(p), '\n')
  {
    forall i | 0 <= i < |PolicyLines(p)|
      ensures Free(PolicyLines(p)[i], '\n')
    {
      PolicyFieldReadsBack(DefaultPolicy(), p, i);
      PolicyTable();
      LoneLineFree(POLICY_KEYS, i, PolicyValue(p, i));
    }
    BlockFree(PolicySection, PolicyLines(p));
    ForbiddenFree(p, 0);
    BlockFree(Forbidden, ForbiddenLines(p, 0));
    FreeConcat(Block(PolicySection, PolicyLines(p)), OptionalBlock(Forbidden, ForbiddenLines(p, 0)));
  }

  lemma {:induction false} ForbiddenLineFree(p: PolicySpec, i: nat)
    requires PolicyWritable(p) && i < 3 && ForbiddenSet(p, i) != []
    ensures Free(ForbiddenLine(p, i), '\n')
  {
    FieldReadsBack(ForbiddenSet(p, i));
    ShortTables();
    LoneLineFree(FORBIDDEN_KEYS, i, Listed(ForbiddenSet(p, i)));
  }

  lemma {:induction false} ForbiddenFree(p: PolicySpec, i: nat)
    requires PolicyWritable(p) && i <= 3
    ensures ItemsFree(ForbiddenLines(p, i), '\n')
    decreases 3 - i
  {
    if i < 3 {
      ForbiddenFree(p, i + 1);
      var here := if ForbiddenSet(p, i) == [] then [] else [ForbiddenLine(p, i)];
      if ForbiddenSet(p, i) != [] {
        ForbiddenLineFree(p, i);
      }
      FreeConcat(here, ForbiddenLines(p, i + 1));
    }
  }

  lemma {:induction false} SpecFree(spec: RequestSpec)
    requires SpecWritable(spec)
    ensures ItemsFree(SpecLines(spec), '\n')
  {
    HeadersFree(spec);
    CollectiveFree(spec.collective);
    FabricFree(spec.fabric);
    BindingsFree(spec.bindings);
    PolicyFree(spec.policy);
    var h, c, f := HeaderLines(spec), CollectiveBlock(spec.collective), FabricBlock(spec.fabric);
    var b, p := OptionalBlock(Bindings, Map(BindingLine, spec.bindings)), PolicyBlock(spec.policy);
    FreeConcat(h, c);
    FreeConcat(h + c, f);
    FreeConcat(h + c + f, b);
    FreeConcat(h + c + f + b, p);
  }
}
