/** Reading the request text (src/dsl.cpp:241-848). */
module RequestText {
  import opened Saturating
  import opened Candidates
  import opened Collectives
  import opened Declarations
  import opened Identifiers
  import opened RequestBuild
  import opened TextFields
  import opened TextTables
  import opened TextLines
  import opened RequestEntries
  import Requests

  // ----- sections and headers -----

  datatype Section =
    Outside | CollectiveSection | Groups | Domains | Nodes | Edges | Bindings | PolicySection | Forbidden

  function SectionName(s: Section): string {
    match s
    case Outside => ""
    case CollectiveSection => "collective"
    case Groups => "groups"
    case Domains => "domains"
    case Nodes => "nodes"
    case Edges => "edges"
    case Bindings => "bindings"
    case PolicySection => "policy"
    case Forbidden => "forbidden"
  }

  function ReadSection(text: string): Option<Section> {
    if text == "collective" then Some(CollectiveSection)
    else if text == "groups" then Some(Groups)
    else if text == "domains" then Some(Domains)
    else if text == "nodes" then Some(Nodes)
    else if text == "edges" then Some(Edges)
    else if text == "bindings" then Some(Bindings)
    else if text == "policy" then Some(PolicySection)
    else if text == "forbidden" then Some(Forbidden)
    else None
  }

  /** The generations a header line can set. */
  datatype Label = PlanLabel | TopologyLabel | DomainLabel | CapacityLabel | PolicyLabel

  function LabelName(l: Label): string {
    match l
    case PlanLabel => "plan-generation"
    case TopologyLabel => "topology-generation"
    case DomainLabel => "failure-domain-generation"
    case CapacityLabel => "capacity-evidence-generation"
    case PolicyLabel => "policy-generation"
  }

  function ReadLabel(text: string): Option<Label> {
    if text == "plan-generation" then Some(PlanLabel)
    else if text == "topology-generation" then Some(TopologyLabel)
    else if text == "failure-domain-generation" then Some(DomainLabel)
    else if text == "capacity-evidence-generation" then Some(CapacityLabel)
    else if text == "policy-generation" then Some(PolicyLabel)
    else None
  }

  function SetGeneration(spec: RequestSpec, l: Label, n: nat): RequestSpec {
    match l
    case PlanLabel => spec.(planGeneration := n)
    case TopologyLabel => spec.(fabric := spec.fabric.(generations := spec.fabric.generations.(topology := n)))
    case DomainLabel => spec.(fabric := spec.fabric.(generations := spec.fabric.generations.(domains := n)))
    case CapacityLabel => spec.(fabric := spec.fabric.(generations := spec.fabric.generations.(capacity := n)))
    case PolicyLabel => spec.(policy := spec.policy.(generation := n))
  }

  // ----- the reader's state -----

  datatype State = State(spec: RequestSpec, banner: bool, declared: bool, section: Section, seen: set<Section>)

  function DefaultPolicy(): PolicySpec {
    PolicySpec(0, 8, 1, Shared, Diversity.Ignored, Rack, Requests.AnyEvidence, 1000, 0, COST_CEILING, false, 0x4_0000,
        [], [], [], [])
  }

  function Initial(): State {
    State(RequestSpec(CollectiveSpec(0, RingKind, 0, []), FabricSpec(Generations(0, 0, 0), [], [], []), DefaultPolicy(),
        0, []),
          false, false, Outside, {})
  }

  // ----- lines outside the sections -----

  function FirstWord(line: string): string {
    line[..ValueEnd(line, 0)]
  }

  function AfterWord(line: string): string {
    line[SkipBlanks(line, ValueEnd(line, 0))..]
  }

  function HandleBanner(st: State, line: string): Option<State> {
    if FirstWord(line) == "cpath-request" && ReadU64(AfterWord(line)) == Some(1) then Some(st.(banner := true))
        else None
  }

  function HandleHeader(st: State, line: string): Option<State> {
    var keyword, number := ReadLabel(FirstWord(line)), ReadU64(AfterWord(line));
    if keyword.None? || number.None? then None else Some(st.(spec :=
        SetGeneration(st.spec, keyword.value, number.value)))
  }

  function HandleSection(st: State, line: string): Option<State> {
    if |line| < 3 || line[|line| - 1] != ']' then None
    else
      var section := ReadSection(line[1..|line| - 1]);
      if section.None? || section.value in st.seen then None
      else Some(st.(section := section.value, seen := st.seen + {section.value}))
  }

  // ----- entries -----

  function AddGroup(c: CollectiveSpec, id: nat, row: Row): Option<CollectiveSpec>
    requires |row| == 5
  {
    var group := ReadGroup(id, row);
    if |c.groups| >= MAX_GROUPS || (exists i | 0 <= i < |c.groups| :: c.groups[i].id == id) || group.None? then None
    else Some(c.(groups := c.groups + [group.value]))
  }

  function AddDomain(f: FabricSpec, id: nat, row: Row): Option<FabricSpec>
    requires |row| == 2
  {
    var domain := ReadDomain(id, row);
    if |f.domains| >= MAX_DOMAINS || domain.None? then None else Some(f.(domains := f.domains + [domain.value]))
  }

  function AddNode(f: FabricSpec, id: nat, row: Row): Option<FabricSpec>
    requires |row| == 7
  {
    var node := ReadNode(id, row);
    if |f.nodes| >= Requests.MAX_NODES || node.None? then None else Some(f.(nodes := f.nodes + [node.value]))
  }

  function AddEdge(f: FabricSpec, id: nat, row: Row): Option<FabricSpec>
    requires |row| == 9
  {
    var edge := ReadEdge(id, row);
    if |f.edges| >= MAX_EDGES || edge.None? then None else Some(f.(edges := f.edges + [edge.value]))
  }

  function AddBinding(s: seq<BindingSpec>, id: nat, row: Row): Option<seq<BindingSpec>>
    requires |row| == 3
  {
    var binding := ReadBinding(id, row);
    if |s| >= MAX_BINDINGS || binding.None? then None else Some(s + [binding.value])
  }

  function WithCollective(spec: RequestSpec, c: Option<CollectiveSpec>): Option<RequestSpec> {
    if c.None? then None else Some(spec.(collective := c.value))
  }

  function WithFabric(spec: RequestSpec, f: Option<FabricSpec>): Option<RequestSpec> {
    if f.None? then None else Some(spec.(fabric := f.value))
  }

  function WithPolicy(spec: RequestSpec, p: Option<PolicySpec>): Option<RequestSpec> {
    if p.None? then None else Some(spec.(policy := p.value))
  }

  /** The keys an entry of the section may carry. */
  function KeysOf(section: Section): seq<string> {
    match section
    case Outside => []
    case CollectiveSection => COLLECTIVE_KEYS
    case Groups => GROUP_KEYS
    case Domains => DOMAIN_KEYS
    case Nodes => NODE_KEYS
    case Edges => EDGE_KEYS
    case Bindings => BINDING_KEYS
    case PolicySection => POLICY_KEYS
    case Forbidden => FORBIDDEN_KEYS
  }

  /** Sections whose entries start with an identifier. */
  predicate Named(section: Section) {
    section == Groups || section == Domains || section == Nodes || section == Edges || section == Bindings
  }

  /** The declaration with one more named entry. */
  function AddNamed(spec: RequestSpec, section: Section, id: nat, row: Row): Option<RequestSpec>
    requires Named(section) && |row| == |KeysOf(section)|
  {
    match section
    case Groups => WithCollective(spec, AddGroup(spec.collective, id, row))
    case Domains => WithFabric(spec, AddDomain(spec.fabric, id, row))
    case Nodes => WithFabric(spec, AddNode(spec.fabric, id, row))
    case Edges => WithFabric(spec, AddEdge(spec.fabric, id, row))
    case Bindings =>
      var bindings := AddBinding(spec.bindings, id, row);
      if bindings.None? then None else Some(spec.(bindings := bindings.value))
  }

  function HandleNamed(st: State, line: string): Option<State>
    requires Named(st.section)
  {
    var cut := ValueEnd(line, 0);
    var id, entries := ReadId(line[..cut]), ReadFrom(line[cut..], 0, []);
    if id.None? || entries.None? then None
    else
      var row := RowOf(KeysOf(st.section), entries.value);
      if row.None? then None
      else
        var spec := AddNamed(st.spec, st.section, id.value, row.value);
        if spec.None? then None else Some(st.(spec := spec.value))
  }

  /** The declaration with the fields of one more line; the collective is declared once. */
  function SetFields(st: State, row: Row): Option<RequestSpec>
    requires !Named(st.section) && |row| == |KeysOf(st.section)|
  {
    match st.section
    case Outside => None
    case CollectiveSection => if st.declared then None else WithCollective(st.spec,
        ReadCollective(st.spec.collective, row))
    case PolicySection => WithPolicy(st.spec, ReadPolicy(st.spec.policy, row))
    case Forbidden => WithPolicy(st.spec, ReadForbidden(st.spec.policy, row))
  }

  function HandleFields(st: State, line: string): Option<State>
    requires !Named(st.section)
  {
    var entries := ReadFrom(line, 0, []);
    if entries.None? then None
    else
      var row := RowOf(KeysOf(st.section), entries.value);
      if row.None? then None
      else
        var spec := SetFields(st, row.value);
        if spec.None? then None else Some(st.(spec := spec.value, declared := st.declared
            || st.section == CollectiveSection))
  }

  // ----- the whole text -----

  /** A line that is neither blank nor a comment. */
  function Handle(st: State, line: string): Option<State>
    requires line != []
  {
    if line[0] == '[' then HandleSection(st, line)
    else if !st.banner then HandleBanner(st, line)
    else if st.section == Outside then HandleHeader(st, line)
    else if Named(st.section) then HandleNamed(st, line)
    else HandleFields(st, line)
  }

  function Step(st: State, raw: string): Option<State> {
    if |raw| > MAX_LINE then None
    else
      var line := Trimmed(raw);
      if TextLines.Ignored(line) then Some(st) else Handle(st, line)
  }

  function Run(st: State, lines: seq<string>): Option<State>
    decreases |lines|
  {
    if lines == [] then Some(st)
    else
      match Step(st, lines[0])
      case None => None
      case Some(next) => Run(next, lines[1..])
  }

  /** The declaration a text spells out, or None when it is refused. */
  function ParseSpec(text: string): Option<RequestSpec> {
    if text == [] || |text| > MAX_INPUT then None
    else
      match Run(Initial(), Split(text, '\n'))
      case None => None
      case Some(st) => if st.banner then Some(st.spec) else None
  }

  ghost function ParseRequest(text: string): Option<PlanningRequest> {
    match ParseSpec(text)
    case None => None
    case Some(spec) => RequestOf(spec)
  }

  // ----- the reader -----

  method ReadText(text: string) returns (r: Option<RequestSpec>)
    ensures r == ParseSpec(text)
  {
    if text == [] || |text| > MAX_INPUT {
      return None;
    }
    var st, offset := Initial(), 0;
    assert text[0..] == text;
    while offset <= |text|
      invariant offset <= |text| + 1
      invariant Run(Initial(), Split(text, '\n')) == if offset <= |text| then Run(st, Split(text[offset..], '\n'))
                else Some(st)
      decreases |text| + 1 - offset
    {
      var newline := FindSeparator(text, '\n', offset);
      NextLine(st, text, offset, newline);
      var next := ReadLine(st, text[offset..newline]);
      if next.None? {
        return None;
      }
      st, offset := next.value, newline + 1;
    }
    r := if st.banner then Some(st.spec) else None;
  }

  lemma {:induction false} NextLine(st: State, text: string, offset: nat, newline: nat)
    requires offset <= newline <= |text| && Free(text[offset..newline], '\n')
             && (newline < |text| ==> text[newline] == '\n')
    ensures Run(st, Split(text[offset..], '\n')) ==
            match Step(st, text[offset..newline])
            case None => None
            case Some(next) => if newline < |text| then Run(next, Split(text[newline + 1..], '\n')) else Some(next)
  {
    var rest := text[offset..];
    assert rest[..newline - offset] == text[offset..newline];
    SplitFirst(rest, '\n', newline - offset);
    var lines := Split(rest, '\n');
    if newline < |text| {
      assert rest[newline - offset + 1..] == text[newline + 1..];
      assert lines[1..] == Split(text[newline + 1..], '\n');
    } else {
      assert lines[1..] == [];
    }
  }

  method ReadLine(st: State, raw: string) returns (r: Option<State>)
    ensures r == Step(st, raw)
  {
    if |raw| > MAX_LINE {
      return None;
    }
    var line := TrimLine(raw);
    if TextLines.Ignored(line) {
      return Some(st);
    }
    r := Handle(st, line);
  }

  method ReadRequest(text: string) returns (r: Option<PlanningRequest>)
    ensures r == ParseRequest(text)
  {
    var spec := ReadText(text);
    if spec.None? {
      return None;
    }
    r := BuildRequest(spec.value);
  }
}
