/** Writing a request and reading it again (src/dsl.cpp:861-1084). */
module RequestRoundTrip {
  import opened Candidates
  import opened Finite
  import opened Sorting
  import opened Collectives
  import opened LogicalEdges
  import opened CollectiveBuild
  import opened Declarations
  import opened Identifiers
  import opened FabricBuild
  import opened RequestBuild
  import opened TextFields
  import opened TextTables
  import opened TextLines
  import opened RequestEntries
  import opened RequestText
  import opened RequestEncoding
  import opened BlockReading
  import opened SpecReading

  // ----- what reading establishes -----

  predicate GenerationsRead(spec: RequestSpec) {
    && spec.planGeneration < U64_LIMIT && spec.policy.generation < U64_LIMIT
       && spec.fabric.generations.topology < U64_LIMIT
    && spec.fabric.generations.domains < U64_LIMIT && spec.fabric.generations.capacity < U64_LIMIT
  }

  ghost predicate GroupsRead(groups: seq<Group>) {
    forall i, j | 0 <= i < j < |groups| :: groups[i].id != groups[j].id
  }

  ghost predicate NodesRead(nodes: seq<NodeSpec>) {
    forall i {:trigger nodes[i]} | 0 <= i < |nodes| :: PlacementOk(nodes[i].placement)
  }

  ghost predicate Readable(spec: RequestSpec) {
    GenerationsRead(spec) && GroupsRead(spec.collective.groups) && NodesRead(spec.fabric.nodes)
  }

  lemma NodeRead(id: nat, row: Row)
    requires |row| == 7 && ReadNode(id, row).Some?
    ensures PlacementOk(ReadNode(id, row).value.placement)
  {
  }

  lemma {:induction false} NamedKeeps(spec: RequestSpec, section: Section, id: nat, row: Row, next: RequestSpec)
    requires Readable(spec) && Named(section) && |row| == |KeysOf(section)|
             && AddNamed(spec, section, id, row) == Some(next)
    ensures Readable(next)
  {
    match section
    case Groups => GroupKeeps(spec.collective, id, row);
    case Domains =>
    case Nodes => NodeKeeps(spec.fabric, id, row);
    case Edges =>
    case Bindings =>
  }

  lemma {:induction false} GroupKeeps(c: CollectiveSpec, id: nat, row: Row)
    requires |row| == 5 && GroupsRead(c.groups) && AddGroup(c, id, row).Some?
    ensures GroupsRead(AddGroup(c, id, row).value.groups)
  {
    assert ReadGroup(id, row).value.id == id;
  }

  lemma {:induction false} NodeKeeps(f: FabricSpec, id: nat, row: Row)
    requires |row| == 7 && NodesRead(f.nodes) && AddNode(f, id, row).Some?
    ensures NodesRead(AddNode(f, id, row).value.nodes) && AddNode(f, id, row).value.generations == f.generations
  {
    NodeRead(id, row);
  }

  lemma {:induction false} FieldsKeep(st: State, row: Row, next: RequestSpec)
    requires Readable(st.spec) && !Named(st.section) && |row| == |KeysOf(st.section)|
             && SetFields(st, row) == Some(next)
    ensures Readable(next)
  {
  }

  lemma {:induction false} HandleKeeps(st: State, line: string, next: State)
    requires Readable(st.spec) && line != [] && Handle(st, line) == Some(next)
    ensures Readable(next.spec)
  {
    if line[0] == '[' || !st.banner || st.section == Outside {
    } else if Named(st.section) {
      var cut := ValueEnd(line, 0);
      var id, entries := ReadId(line[..cut]), ReadFrom(line[cut..], 0, []);
      var row := RowOf(KeysOf(st.section), entries.value);
      NamedKeeps(st.spec, st.section, id.value, row.value, next.spec);
    } else {
      var entries := ReadFrom(line, 0, []);
      var row := RowOf(KeysOf(st.section), entries.value);
      FieldsKeep(st, row.value, next.spec);
    }
  }

  lemma {:induction false} StepKeeps(st: State, raw: string, next: State)
    requires Readable(st.spec) && Step(st, raw) == Some(next)
    ensures Readable(next.spec)
  {
    var line := Trimmed(raw);
    if !TextLines.Ignored(line) {
      HandleKeeps(st, line, next);
    }
  }

  lemma {:induction false} RunKeeps(st: State, lines: seq<string>, end: State)
    requires Readable(st.spec) && Run(st, lines) == Some(end)
    ensures Readable(end.spec)
    decreases |lines|
  {
    if lines != [] {
      var next := Step(st, lines[0]).value;
      StepKeeps(st, lines[0], next);
      RunKeeps(next, lines[1..], end);
    }
  }

  lemma {:induction false} ParsedIsReadable(text: string, spec: RequestSpec)
    requires ParseSpec(text) == Some(spec)
    ensures Readable(spec)
  {
    RunKeeps(Initial(), Split(text, '\n'), Run(Initial(), Split(text, '\n')).value);
  }

  // ----- what was read and built can be written -----

  function GroupKey(g: Group): nat {
    g.id
  }

  lemma {:induction false} GroupIdsKept(groups: seq<Group>, c: Collective)
    requires GroupsRead(groups) && Built(groups) == Some(c)
    ensures GroupsRead(c.groups)
  {
    BuiltIs(groups, c);
    var canon := CanonAll(groups);
    assert Injective(Map(GroupKey, canon));
    SortPermutes(GroupLess, canon);
    KeysCarry(GroupKey, canon, c.groups);
    forall i, j | 0 <= i < j < |c.groups|
      ensures c.groups[i].id != c.groups[j].id
    {
      assert Map(GroupKey, c.groups)[i] != Map(GroupKey, c.groups)[j];
    }
  }

  lemma {:induction false} CollectiveCanBeWritten(spec: CollectiveSpec, c: BuiltCollective)
    requires GroupsRead(spec.groups) && CollectiveOf(spec) == Some(c)
    ensures CollectiveWritable(spec.(groups := c.form.groups))
  {
    GroupsReordered(spec, c);
    GroupIdsKept(spec.groups, c.form);
    BuiltStays(spec.groups, c.form);
    BuiltIs(c.form.groups, c.form);
    var groups := c.form.groups;
    forall i | 0 <= i < |groups|
      ensures GroupWritable(groups[i])
    {
      assert GroupNamed(groups[i]) && Accepted(groups[i]) && WellFormed(groups[i]);
    }
  }

  lemma {:induction false} FabricCanBeWritten(spec: FabricSpec, g: FabricGraph)
    requires NodesRead(spec.nodes) && Graph(spec) == Some(g)
    ensures FabricWritable(DeclaredFabric(g))
  {
    GraphPermutes(spec, g);
    GraphStays(spec, g);
    AcceptedIff(DeclaredFabric(g));
    NodesCarry(spec.nodes, g.nodes);
    forall i | 0 <= i < |g.domains|
      ensures DomainNamed(g.domains[i])
    {
      assert DomainOk(g.domains, g.domains[i]);
    }
    forall i | 0 <= i < |g.edges|
      ensures EdgeFits(g.edges[i])
    {
      assert EdgeResolves(g.domains, g.nodes, g.edges[i]);
    }
    forall i | 0 <= i < |g.nodes|
      ensures NodeWritable(g.nodes[i])
    {
      assert NodeNamed(g.nodes[i]) && PlacementOk(g.nodes[i].placement);
    }
  }

  lemma {:induction false} NodesCarry(a: seq<NodeSpec>, b: seq<NodeSpec>)
    requires NodesRead(a) && multiset(a) == multiset(b)
    ensures NodesRead(b)
  {
    SameElements(a, b);
    forall i | 0 <= i < |b|
      ensures PlacementOk(b[i].placement)
    {
      assert b[i] in a;
    }
  }

  lemma {:induction false} DeclaredDomainsNamed(g: FabricGraph, ids: seq<nat>)
    requires FabricWritable(DeclaredFabric(g))
    requires forall i {:trigger ids[i]} | 0 <= i < |ids| :: Declares(DomainKey, g.domains, ids[i])
    ensures AllIds(ids)
  {
    forall i | 0 <= i < |ids|
      ensures IsId(ids[i])
    {
      assert Declares(DomainKey, g.domains, ids[i]);
      var k :| 0 <= k < |g.domains| && DomainKey(g.domains[k]) == ids[i];
      assert DomainNamed(DeclaredFabric(g).domains[k]);
    }
  }

  lemma {:induction false} BindingsCanBeWritten(s: seq<BindingSpec>, participants: seq<nat>, g: FabricGraph)
    requires FabricWritable(DeclaredFabric(g)) && BindingsOf(s, participants, g) == Some(s)
    ensures BindingsWritable(s)
  {
    forall i | 0 <= i < |s|
      ensures BindingWritable(s[i])
    {
      assert BindingFits(s[i]) && BindingResolves(participants, g, s[i]);
      DeclaredDomainsNamed(g, s[i].domains);
    }
  }

  lemma {:induction false} RequestCanBeWritten(spec: RequestSpec, r: PlanningRequest)
    requires Readable(spec) && RequestOf(spec) == Some(r)
    ensures SpecWritable(DeclaredRequest(r))
  {
    CollectiveCanBeWritten(spec.collective, r.collective);
    FabricCanBeWritten(spec.fabric, r.fabric);
    BindingsStay(spec.bindings, r.collective.form.participants, r.fabric);
    BindingsCanBeWritten(r.bindings, r.collective.form.participants, r.fabric);
    PolicyCanBeWritten(r.policy);
    GenerationsCanBeWritten(DeclaredRequest(r));
  }

  lemma PolicyCanBeWritten(p: PolicySpec)
    requires PolicyOk(p)
    ensures PolicyWritable(p)
  {
  }

  lemma GenerationsCanBeWritten(spec: RequestSpec)
    requires GenerationsRead(spec)
    ensures GenerationsWritable(spec)
  {
  }

  // ----- the round trip -----

  /** The written lines and the written text stay within the reader's bounds. */
  predicate Fits(r: PlanningRequest) {
    Fit(SpecLines(DeclaredRequest(r))) && |TextOf(r)| <= MAX_INPUT
  }

  /** Only trees declare a root or a direction. */
  predicate PlainGroups(r: PlanningRequest) {
    forall i {:trigger r.collective.form.groups[i]} | 0 <= i < |r.collective.form.groups| ::
      Stripped(r.collective.form.groups[i]) == r.collective.form.groups[i]
  }

  lemma {:induction false} LongLineStops(st: State, lines: seq<string>, i: nat)
    requires i < |lines| && |lines[i]| > MAX_LINE
    ensures Run(st, lines) == None
    decreases |lines|
  {
    var next := Step(st, lines[0]);
    if i > 0 && next.Some? {
      RunCons(st, lines, next.value);
      LongLineStops(next.value, lines[1..], i - 1);
    }
  }

  lemma {:induction false} TrailingBlank(st: State, lines: seq<string>)
    ensures Run(st, lines + [""]) == Run(st, lines)
  {
    RunConcat(st, lines, [""]);
    if Run(st, lines).Some? {
      RunOne(Run(st, lines).value, "");
      LineReading.BlankStep(Run(st, lines).value);
    }
  }

  /** What the reader makes of a written request. */
  lemma {:induction false} WrittenReads(r: PlanningRequest)
    requires SpecWritable(DeclaredRequest(r))
    ensures ParseSpec(TextOf(r)) == if Fits(r) then Some(StrippedSpec(DeclaredRequest(r))) else None
  {
    var spec := DeclaredRequest(r);
    var lines := SpecLines(spec);
    SpecFree(spec);
    LinesReadBack(lines);
    TrailingBlank(Initial(), lines);
    assert lines[0] == BannerLine() && TextOf(r) != [];
    if Fit(lines) {
      var end := SpecRuns(spec);
    } else {
      var i :| 0 <= i < |lines| && |lines[i]| > MAX_LINE;
      LongLineStops(Initial(), lines, i);
    }
  }

  lemma {:induction false} PlainStays(r: PlanningRequest)
    requires PlainGroups(r)
    ensures StrippedSpec(DeclaredRequest(r)) == DeclaredRequest(r)
  {
    assert Map(Stripped, r.collective.form.groups) == r.collective.form.groups;
  }

  lemma {:induction false} StrippedIsPlain(groups: seq<Group>, c: Collective, i: nat)
    requires Built(Map(Stripped, groups)) == Some(c) && i < |c.groups|
    ensures Stripped(c.groups[i]) == c.groups[i]
  {
    var plain := Map(Stripped, groups);
    BuiltIs(plain, c);
    SortPermutes(GroupLess, CanonAll(plain));
    SameElements(c.groups, CanonAll(plain));
    assert c.groups[i] in CanonAll(plain);
    var k :| 0 <= k < |plain| && Canon(plain[k]) == c.groups[i];
    CanonOfStripped(groups[k]);
  }

  lemma CanonOfStripped(g: Group)
    ensures Stripped(Canon(Stripped(g))) == Canon(Stripped(g))
  {
  }

  lemma {:induction false} StrippedGivesPlain(spec: RequestSpec, r: PlanningRequest)
    requires RequestOf(StrippedSpec(spec)) == Some(r)
    ensures PlainGroups(r)
  {
    forall i | 0 <= i < |r.collective.form.groups|
      ensures Stripped(r.collective.form.groups[i]) == r.collective.form.groups[i]
    {
      StrippedIsPlain(spec.collective.groups, r.collective.form, i);
    }
  }

  /**
    Writing a request that was read and reading it again gives the same request, exactly when the text stays within the
    reader's bounds and only trees declare a root or a direction.
   */
  lemma {:induction false} RoundTripIff(text: string, r: PlanningRequest)
    requires ParseRequest(text) == Some(r)
    ensures ParseRequest(TextOf(r)) == Some(r) <==> Fits(r) && PlainGroups(r)
  {
    var spec := ParseSpec(text).value;
    ParsedIsReadable(text, spec);
    RequestCanBeWritten(spec, r);
    WrittenReads(r);
    if Fits(r) && PlainGroups(r) {
      PlainStays(r);
      RequestStays(spec, r);
    }
    if ParseRequest(TextOf(r)) == Some(r) {
      StrippedGivesPlain(DeclaredRequest(r), r);
    }
  }
}
