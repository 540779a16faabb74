/** Writing the request text (src/dsl.cpp:850-1084). */
module RequestEncoding {
  import opened Candidates
  import opened Finite
  import opened Collectives
  import opened Declarations
  import opened Identifiers
  import opened RequestBuild
  import opened TextFields
  import opened TextTables
  import opened TextLines
  import opened RequestEntries
  import opened RequestText

  // ----- lines -----

  function BannerLine(): string {
    "cpath-request" + [' '] + Decimal(1)
  }

  function HeaderLine(l: Label, n: nat): string {
    LabelName(l) + [' '] + Decimal(n)
  }

  function SectionLine(s: Section): string {
    ['['] + SectionName(s) + [']']
  }

  function NamedLine(id: nat, keys: seq<string>, row: Row): string
    requires |keys| == |row|
  {
    Name(id) + Tail(Fields(keys, row))
  }

  function FieldsLine(keys: seq<string>, row: Row): string
    requires |keys| == |row|
  {
    Render(Fields(keys, row))
  }

  function GroupLine(g: Group): string {
    NamedLine(g.id, GROUP_KEYS, GroupRow(g))
  }

  function DomainLine(d: DomainSpec): string {
    NamedLine(d.id, DOMAIN_KEYS, DomainRow(d))
  }

  function NodeLine(n: NodeSpec): string {
    NamedLine(n.id, NODE_KEYS, NodeRow(n))
  }

  function EdgeLine(e: EdgeSpec): string {
    NamedLine(e.id, EDGE_KEYS, EdgeRow(e))
  }

  function BindingLine(b: BindingSpec): string {
    NamedLine(b.participant, BINDING_KEYS, BindingRow(b))
  }

  function PolicyLine(p: PolicySpec, i: nat): string
    requires i < 12
  {
    FieldsLine(POLICY_KEYS, Lone(12, i, PolicyValue(p, i)))
  }

  function ForbiddenLine(p: PolicySpec, i: nat): string
    requires i < 3
  {
    FieldsLine(FORBIDDEN_KEYS, Lone(3, i, Listed(ForbiddenSet(p, i))))
  }

  // ----- blocks of lines -----

  /** A blank line, the section's name and its entries. */
  function Block(s: Section, entries: seq<string>): seq<string> {
    ["", SectionLine(s)] + entries
  }

  /** A section that is left out when it has no entries. */
  function OptionalBlock(s: Section, entries: seq<string>): seq<string> {
    if entries == [] then [] else Block(s, entries)
  }

  /** The generations in the order they are written. */
  const LABELS: seq<Label> := [PlanLabel, TopologyLabel, DomainLabel, CapacityLabel, PolicyLabel]

  function GenerationOf(spec: RequestSpec, l: Label): nat {
    match l
    case PlanLabel => spec.planGeneration
    case TopologyLabel => spec.fabric.generations.topology
    case DomainLabel => spec.fabric.generations.domains
    case CapacityLabel => spec.fabric.generations.capacity
    case PolicyLabel => spec.policy.generation
  }

  function LabelLines(spec: RequestSpec): seq<string> {
    seq(|LABELS|, i requires 0 <= i < |LABELS| => HeaderLine(LABELS[i], GenerationOf(spec, LABELS[i])))
  }

  function HeaderLines(spec: RequestSpec): seq<string> {
    [BannerLine()] + LabelLines(spec)
  }

  function PolicyLines(p: PolicySpec): seq<string> {
    seq(if p.allowedTiers == [] then 11 else 12, i requires 0 <= i < 12 => PolicyLine(p, i))
  }

  /** The lines of the sets that are not empty, from the i-th on. */
  function ForbiddenLines(p: PolicySpec, i: nat): seq<string>
    requires i <= 3
    decreases 3 - i
  {
    if i == 3 then []
    else (if ForbiddenSet(p, i) == [] then [] else [ForbiddenLine(p, i)]) + ForbiddenLines(p, i + 1)
  }

  function CollectiveBlock(c: CollectiveSpec): seq<string> {
    Block(CollectiveSection, [FieldsLine(COLLECTIVE_KEYS, CollectiveRow(c))]) + Block(Groups, Map(GroupLine, c.groups))
  }

  function FabricBlock(f: FabricSpec): seq<string> {
    OptionalBlock(Domains, Map(DomainLine, f.domains)) + Block(Nodes, Map(NodeLine, f.nodes))
        + Block(Edges, Map(EdgeLine, f.edges))
  }

  function PolicyBlock(p: PolicySpec): seq<string> {
    Block(PolicySection, PolicyLines(p)) + OptionalBlock(Forbidden, ForbiddenLines(p, 0))
  }

  function SpecLines(spec: RequestSpec): seq<string> {
    HeaderLines(spec) + CollectiveBlock(spec.collective) + FabricBlock(spec.fabric)
    + OptionalBlock(Bindings, Map(BindingLine, spec.bindings)) + PolicyBlock(spec.policy)
  }

  /** The text of a request. */
  function TextOf(r: PlanningRequest): string {
    Unlines(SpecLines(DeclaredRequest(r)))
  }

  // ----- the writer -----

  /** append_list. */
  method AppendList(items: seq<string>) returns (out: string)
    ensures out == Join(items, ',')
  {
    out := [];
    for i := 0 to |items|
      invariant out == Join(items[..i], ',')
    {
      assert items[..i + 1] == items[..i] + [items[i]];
      if i > 0 {
        JoinSnoc(items[..i], ',', items[i]);
        out := out + [','];
      }
      out := out + items[i];
    }
    assert items[..|items|] == items;
  }

  method AppendFields(start: string, keys: seq<string>, row: Row) returns (out: string)
    requires |keys| == |row|
    ensures out == start + Tail(Fields(keys, row))
  {
    out := start;
    for i := 0 to |keys|
      invariant out + Tail(Fields(keys[i..], row[i..])) == start + Tail(Fields(keys, row))
    {
      TailOfFields(keys[i..], row[i..]);
      if row[i].Some? {
        out := out + [' '] + Show(Assignment(keys[i], row[i].value));
      }
    }
  }

  lemma {:induction false} TailOfFields(keys: seq<string>, row: Row)
    requires |keys| == |row| && keys != []
    ensures Tail(Fields(keys, row)) ==
            (if row[0].Some? then [' '] + Show(Assignment(keys[0], row[0].value)) else [])
                + Tail(Fields(keys[1..], row[1..]))
  {
    var all, rest := Fields(keys, row), Fields(keys[1..], row[1..]);
    if row[0].Some? {
      assert all[1..] == rest;
    } else {
      assert all == rest;
    }
  }

  method AppendLines(before: string, lines: seq<string>) returns (out: string)
    ensures out == before + Unlines(lines)
  {
    out := before;
    for i := 0 to |lines|
      invariant out == before + Unlines(lines[..i])
    {
      assert lines[..i + 1] == lines[..i] + [lines[i]];
      UnlinesConcat(lines[..i], [lines[i]]);
      assert Unlines([lines[i]]) == lines[i] + ['\n'];
      out := out + lines[i] + ['\n'];
    }
    assert lines[..|lines|] == lines;
  }

  method WriteGroups(groups: seq<Group>) returns (lines: seq<string>)
    ensures lines == Map(GroupLine, groups)
  {
    lines := [];
    for i := 0 to |groups|
      invariant lines == Map(GroupLine, groups[..i])
    {
      var g := groups[i];
      var members := AppendList(Map(Name, g.members));
      var root := if g.pattern == Tree then Some(if g.root.Some? then Name(g.root.value) else []) else None;
      var direction := if g.pattern == Tree then Some(DirectionName(g.direction)) else None;
      var row := [Some(Decimal(g.level)), Some(PatternName(g.pattern)), root, direction, Some(members)];
      assert row == GroupRow(g);
      var line := AppendFields(Name(g.id), GROUP_KEYS, row);
      assert groups[..i + 1] == groups[..i] + [g];
      lines := lines + [line];
    }
    assert groups[..|groups|] == groups;
  }

  method Append<T>(before: seq<string>, line: T -> string, items: seq<T>) returns (lines: seq<string>)
    ensures lines == before + Map(line, items)
  {
    lines := before;
    for i := 0 to |items|
      invariant lines == before + Map(line, items[..i])
    {
      lines := lines + [line(items[i])];
      assert items[..i + 1] == items[..i] + [items[i]];
    }
    assert items[..|items|] == items;
  }

  method WriteFabric(f: FabricSpec) returns (lines: seq<string>)
    ensures lines == FabricBlock(f)
  {
    lines := [];
    if f.domains != [] {
      lines := Append(["", SectionLine(Domains)], DomainLine, f.domains);
    }
    lines := Append(lines + ["", SectionLine(Nodes)], NodeLine, f.nodes);
    lines := Append(lines + ["", SectionLine(Edges)], EdgeLine, f.edges);
  }

  method WriteBindings(bindings: seq<BindingSpec>) returns (lines: seq<string>)
    ensures lines == OptionalBlock(Bindings, Map(BindingLine, bindings))
  {
    lines := [];
    if bindings != [] {
      lines := Append(["", SectionLine(Bindings)], BindingLine, bindings);
    }
  }

  /** encode_request_text. */
  method WriteRequest(r: PlanningRequest) returns (out: string)
    ensures out == TextOf(r)
  {
    var spec := DeclaredRequest(r);
    var groups := WriteGroups(spec.collective.groups);
    var collective := Block(CollectiveSection, [FieldsLine(COLLECTIVE_KEYS, CollectiveRow(spec.collective))])
        + Block(Groups, groups);
    var fabric := WriteFabric(spec.fabric);
    var bindings := WriteBindings(spec.bindings);
    out := AppendLines("", HeaderLines(spec) + collective + fabric + bindings + PolicyBlock(spec.policy));
  }
}
