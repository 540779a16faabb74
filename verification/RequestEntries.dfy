/** What the entries of each section say, read and written (src/dsl.cpp:448-839, 874-1084). */
module RequestEntries {
  import opened Candidates
  import opened Finite
  import opened Collectives
  import opened Declarations
  import opened Identifiers
  import opened FabricBuild
  import opened RequestBuild
  import opened TextFields
  import opened TextTables
  import opened Requests

  const U32_LIMIT: nat := 0x1_0000_0000

  // ----- enumerations -----

  function KindName(k: CollectiveKind): string {
    match k
    case RingKind => "ring"
    case TreeKind => "tree"
    case PairwiseKind => "pairwise"
    case AllToAllKind => "alltoall"
    case Hierarchical => "hierarchical"
  }

  function ReadKind(text: string): Option<CollectiveKind> {
    if text == "ring" then Some(RingKind)
    else if text == "tree" then Some(TreeKind)
    else if text == "pairwise" then Some(PairwiseKind)
    else if text == "alltoall" then Some(AllToAllKind)
    else if text == "hierarchical" then Some(Hierarchical)
    else None
  }

  function PatternName(p: Pattern): string {
    match p
    case Ring => "ring"
    case Tree => "tree"
    case Pairwise => "pairwise"
    case AllToAll => "alltoall"
  }

  function ReadPattern(text: string): Option<Pattern> {
    if text == "ring" then Some(Ring)
    else if text == "tree" then Some(Tree)
    else if text == "pairwise" then Some(Pairwise)
    else if text == "alltoall" then Some(AllToAll)
    else None
  }

  function DirectionName(d: Direction): string {
    match d
    case Forward => "forward"
    case Reverse => "reverse"
    case Bidirectional => "bidirectional"
  }

  function ReadDirection(text: string): Option<Direction> {
    if text == "forward" then Some(Forward)
    else if text == "reverse" then Some(Reverse)
    else if text == "bidirectional" then Some(Bidirectional)
    else None
  }

  function DomainKindName(k: DomainKind): string {
    match k
    case Device => "device"
    case Host => "host"
    case Rack => "rack"
    case Pod => "pod"
    case Site => "site"
  }

  function ReadDomainKind(text: string): Option<DomainKind> {
    if text == "device" then Some(Device)
    else if text == "host" then Some(Host)
    else if text == "rack" then Some(Rack)
    else if text == "pod" then Some(Pod)
    else if text == "site" then Some(Site)
    else None
  }

  function EvidenceName(e: Evidence): string {
    match e
    case Unknown => "unknown"
    case Synthetic => "synthetic"
    case Measured => "measured"
  }

  function ReadEvidence(text: string): Option<Evidence> {
    if text == "unknown" then Some(Unknown)
    else if text == "synthetic" then Some(Synthetic)
    else if text == "measured" then Some(Measured)
    else None
  }

  function DisjointnessName(d: Disjointness): string {
    match d
    case Shared => "none"
    case EdgeDisjoint => "edge"
    case NodeDisjoint => "node"
  }

  function ReadDisjointness(text: string): Option<Disjointness> {
    if text == "none" then Some(Shared)
    else if text == "edge" then Some(EdgeDisjoint)
    else if text == "node" then Some(NodeDisjoint)
    else None
  }

  function DiversityName(d: Diversity): string {
    match d
    case Ignored => "none"
    case Preferred => "preferred"
    case Required => "required"
  }

  function ReadDiversity(text: string): Option<Diversity> {
    if text == "none" then Some(Ignored)
    else if text == "preferred" then Some(Preferred)
    else if text == "required" then Some(Required)
    else None
  }

  function FloorName(e: EvidenceFloor): string {
    match e
    case AnyEvidence => "any"
    case SyntheticOrBetter => "synthetic-or-better"
    case MeasuredOnly => "measured"
  }

  function ReadFloor(text: string): Option<EvidenceFloor> {
    if text == "any" then Some(AnyEvidence)
    else if text == "synthetic-or-better" || text == "synthetic" then Some(SyntheticOrBetter)
    else if text == "measured" then Some(MeasuredOnly)
    else None
  }

  function BoolName(b: bool): string {
    if b then "1" else "0"
  }

  function ReadBool(text: string): Option<bool> {
    if text == "0" then Some(false) else if text == "1" then Some(true) else None
  }

  lemma CollectiveNames(k: CollectiveKind, p: Pattern, d: Direction)
    ensures ReadKind(KindName(k)) == Some(k) && Word(KindName(k))
    ensures ReadPattern(PatternName(p)) == Some(p) && Word(PatternName(p))
    ensures ReadDirection(DirectionName(d)) == Some(d) && Word(DirectionName(d))
  {
  }

  lemma FabricNames(k: DomainKind, e: Evidence)
    ensures ReadDomainKind(DomainKindName(k)) == Some(k) && Word(DomainKindName(k))
    ensures ReadEvidence(EvidenceName(e)) == Some(e) && Word(EvidenceName(e))
  {
  }

  lemma PolicyNames(d: Disjointness, v: Diversity, e: EvidenceFloor, b: bool)
    ensures ReadDisjointness(DisjointnessName(d)) == Some(d) && Word(DisjointnessName(d))
    ensures ReadDiversity(DiversityName(v)) == Some(v) && Word(DiversityName(v))
    ensures ReadFloor(FloorName(e)) == Some(e) && Word(FloorName(e))
    ensures ReadBool(BoolName(b)) == Some(b) && Word(BoolName(b))
  {
  }

  lemma NotEligible()
    ensures ReadBool(BoolName(false)) == Some(false) && Word(BoolName(false))
  {
  }

  // ----- fields -----

  function ReadU64(text: string): Option<nat> {
    ReadNumber(text, U64_LIMIT)
  }

  function ReadU32(text: string): Option<nat> {
    ReadNumber(text, U32_LIMIT)
  }

  /** A field that must be there. */
  function Needed<T>(field: Option<string>, read: string -> Option<T>): Option<T> {
    if field.None? then None else read(field.value)
  }

  /** A field with a value to fall back on. */
  function Fallback<T>(field: Option<string>, read: string -> Option<T>, otherwise: T): Option<T> {
    if field.None? then Some(otherwise) else read(field.value)
  }

  /** A field that may be left out. */
  function Maybe(field: Option<string>, read: string -> Option<nat>): Option<Option<nat>> {
    if field.None? then Some(None)
    else
      match read(field.value)
      case None => None
      case Some(x) => Some(Some(x))
  }

  function ReadAll(items: seq<string>, most: nat): Option<seq<nat>>
    requires most <= MAX_NAME
  {
    if items == [] then Some([])
    else
      var first, rest := ReadName(items[0], most), ReadAll(items[1..], most);
      if first.None? || rest.None? then None else Some([first.value] + rest.value)
  }

  function ReadIds(text: string): Option<seq<nat>> {
    ReadAll(ListItems(text, ','), MAX_NAME)
  }

  function ReadShorts(text: string): Option<seq<nat>> {
    ReadAll(ListItems(text, ','), MAX_SHORT)
  }

  /** A list of names, as append_list writes it. */
  function Listed(ids: seq<nat>): string {
    Join(Map(Name, ids), ',')
  }

  ghost predicate AllNamed(ids: seq<nat>, most: nat) {
    forall i {:trigger ids[i]} | 0 <= i < |ids| :: ValidName(Name(ids[i]), most)
  }

  lemma {:induction false} NamesReadBack(ids: seq<nat>, most: nat)
    requires most <= MAX_NAME && AllNamed(ids, most)
    ensures ReadAll(Map(Name, ids), most) == Some(ids)
    decreases |ids|
  {
    if ids != [] {
      var names := Map(Name, ids);
      assert names[1..] == Map(Name, ids[1..]) && names[0] == Name(ids[0]);
      NamesReadBack(ids[1..], most);
      ReadNameExact(names[0], most, ids[0]);
      ReadAllCons(names, most, ids[0], ids[1..]);
      assert [ids[0]] + ids[1..] == ids;
    }
  }

  lemma {:induction false} ReadAllCons(items: seq<string>, most: nat, first: nat, rest: seq<nat>)
    requires most <= MAX_NAME && items != [] && ReadName(items[0], most) == Some(first)
             && ReadAll(items[1..], most) == Some(rest)
    ensures ReadAll(items, most) == Some([first] + rest)
  {
  }

  lemma {:induction false} ListReadsBack(ids: seq<nat>, most: nat)
    requires most <= MAX_NAME && AllNamed(ids, most) && ids != []
    ensures Word(Listed(ids)) && ReadAll(ListItems(Listed(ids), ','), most) == Some(ids)
  {
    var names := Map(Name, ids);
    forall i | 0 <= i < |names|
      ensures Word(names[i]) && Free(names[i], ',')
    {
      NameIsWord(Name(ids[i]), most);
    }
    JoinIsWord(names);
    SplitJoined(names, ',');
    NamesReadBack(ids, most);
  }

  lemma {:induction false} IdReadsBack(id: nat)
    requires IsId(id)
    ensures Word(Name(id)) && ReadId(Name(id)) == Some(id)
  {
    NameIsWord(Name(id), MAX_NAME);
    ReadNameExact(Name(id), MAX_NAME, id);
  }

  lemma {:induction false} ShortReadsBack(id: nat)
    requires IsShort(id)
    ensures Word(Name(id)) && ReadShort(Name(id)) == Some(id)
  {
    NameIsWord(Name(id), MAX_SHORT);
    ReadNameExact(Name(id), MAX_SHORT, id);
  }

  lemma {:induction false} CountReadsBack(n: nat)
    ensures Word(Decimal(n)) && (n < U64_LIMIT ==> ReadU64(Decimal(n)) == Some(n))
            && (n < U32_LIMIT ==> ReadU32(Decimal(n)) == Some(n))
  {
    DecimalIsWord(n);
    if n < U64_LIMIT {
      NumberReadsBack(n, U64_LIMIT);
    }
    if n < U32_LIMIT {
      NumberReadsBack(n, U32_LIMIT);
    }
  }

  lemma {:induction false} CountField(n: nat, otherwise: nat)
    requires n < U64_LIMIT
    ensures Fallback(Some(Decimal(n)), ReadU64, otherwise) == Some(n)
  {
    CountReadsBack(n);
  }

  function Written(id: Option<nat>): Option<string> {
    if id.None? then None else Some(Name(id.value))
  }

  lemma {:induction false} MaybeIdReadsBack(id: Option<nat>)
    requires OptionalId(id)
    ensures Maybe(Written(id), ReadId) == Some(id) && (id.Some? ==> Word(Name(id.value)))
  {
    if id.Some? {
      IdReadsBack(id.value);
    }
  }

  lemma {:induction false} MaybeShortReadsBack(id: Option<nat>)
    requires OptionalShort(id)
    ensures Maybe(Written(id), ReadShort) == Some(id) && (id.Some? ==> Word(Name(id.value)))
  {
    if id.Some? {
      ShortReadsBack(id.value);
    }
  }

  // ----- the collective -----

  const COLLECTIVE_KEYS: seq<string> := ["id", "kind", "demand"]

  function ReadCollective(c: CollectiveSpec, row: Row): Option<CollectiveSpec>
    requires |row| == 3
  {
    var id, kind, demand := Needed(row[0], ReadId), Fallback(row[1], ReadKind, c.kind), Fallback(row[2], ReadU64, 0);
    if id.None? || kind.None? || demand.None? || demand.value > MAX_CAPACITY then None
    else Some(c.(id := id.value, kind := kind.value, demand := demand.value))
  }

  function CollectiveRow(c: CollectiveSpec): Row {
    [Some(Name(c.id)), Some(KindName(c.kind)), if c.demand > 0 then Some(Decimal(c.demand)) else None]
  }

  lemma {:induction false} CollectiveReadsBack(c: CollectiveSpec, d: CollectiveSpec)
    requires IsId(d.id) && d.demand <= MAX_CAPACITY
    ensures Writable(CollectiveRow(d)) && ReadCollective(c, CollectiveRow(d)) == Some(d.(groups := c.groups))
  {
    IdReadsBack(d.id);
    CollectiveNames(d.kind, Ring, Forward);
    CountReadsBack(d.demand);
  }

  // ----- groups -----

  const GROUP_KEYS: seq<string> := ["level", "pattern", "root", "direction", "members"]

  function ReadGroup(id: nat, row: Row): Option<Group>
    requires |row| == 5
  {
    var level, pattern, root := Needed(row[0], ReadU32), Needed(row[1], ReadPattern), Maybe(row[2], ReadId);
    var direction, members := Fallback(row[3], ReadDirection, Forward), Needed(row[4], ReadIds);
    if level.None? || pattern.None? || root.None? || direction.None? || members.None? || |members.value| > MAX_MEMBERS
        then None
    else Some(Group(id, level.value, pattern.value, direction.value, root.value, members.value))
  }

  function GroupRow(g: Group): Row {
    [Some(Decimal(g.level)), Some(PatternName(g.pattern)),
     if g.pattern == Tree then Some(if g.root.Some? then Name(g.root.value) else []) else None,
     if g.pattern == Tree then Some(DirectionName(g.direction)) else None, Some(Listed(g.members))]
  }

  /** What the writer keeps of a group: root and direction only of a tree. */
  function Stripped(g: Group): Group {
    if g.pattern == Tree then g else g.(root := None, direction := Forward)
  }

  predicate GroupWritable(g: Group) {
    && GroupNamed(g) && g.level < U32_LIMIT && g.members != [] && |g.members| <= MAX_MEMBERS
       && (g.pattern == Tree ==> g.root.Some?)
  }

  lemma {:induction false} GroupReadsBack(g: Group)
    requires GroupWritable(g)
    ensures Writable(GroupRow(g)) && ReadGroup(g.id, GroupRow(g)) == Some(Stripped(g))
  {
    CountReadsBack(g.level);
    CollectiveNames(RingKind, g.pattern, g.direction);
    if g.pattern == Tree {
      IdReadsBack(g.root.value);
    }
    AllIdsNamed(g.members);
    ListReadsBack(g.members, MAX_NAME);
  }

  lemma {:induction false} AllIdsNamed(s: seq<nat>)
    ensures AllIds(s) ==> AllNamed(s, MAX_NAME)
    ensures AllShort(s) ==> AllNamed(s, MAX_SHORT)
  {
    forall i | 0 <= i < |s|
      ensures AllIds(s) ==> ValidName(Name(s[i]), MAX_NAME)
      ensures AllShort(s) ==> ValidName(Name(s[i]), MAX_SHORT)
    {
      assert AllIds(s) ==> IsId(s[i]);
      assert AllShort(s) ==> IsShort(s[i]);
    }
  }

  // ----- domains -----

  const DOMAIN_KEYS: seq<string> := ["kind", "parent"]

  function ReadDomain(id: nat, row: Row): Option<DomainSpec>
    requires |row| == 2
  {
    var kind, parent := Fallback(row[0], ReadDomainKind, Device), Maybe(row[1], ReadId);
    if kind.None? || parent.None? then None else Some(DomainSpec(id, parent.value, kind.value))
  }

  function DomainRow(d: DomainSpec): Row {
    [Some(DomainKindName(d.kind)), Written(d.parent)]
  }

  lemma {:induction false} DomainReadsBack(d: DomainSpec)
    requires DomainNamed(d)
    ensures Writable(DomainRow(d)) && ReadDomain(d.id, DomainRow(d)) == Some(d)
  {
    FabricNames(d.kind, Unknown);
    MaybeIdReadsBack(d.parent);
  }

  // ----- nodes -----

  const NODE_KEYS: seq<string> := ["site", "pod", "rack", "host", "device", "tier", "eligible"]

  function ReadNode(id: nat, row: Row): Option<NodeSpec>
    requires |row| == 7
  {
    var site, pod := Maybe(row[0], ReadShort), Maybe(row[1], ReadShort);
    var rack, host := Maybe(row[2], ReadShort), Maybe(row[3], ReadShort);
    var device, tier := Fallback(row[4], ReadU32, 0), Maybe(row[5], ReadShort);
    var eligible := Fallback(row[6], ReadBool, true);
    if site.None? || pod.None? || rack.None? || host.None? || device.None? || tier.None? || eligible.None? then None
    else
      var supplied := row[0].Some? || row[1].Some? || row[2].Some? || row[3].Some? || row[4].Some?;
      Some(NodeSpec(id, Placement(site.value, pod.value, rack.value, host.value, device.value, supplied), tier.value,
          eligible.value))
  }

  function NodeRow(n: NodeSpec): Row {
    var p := n.placement;
    (if p.supplied then [Written(p.site), Written(p.pod), Written(p.rack), Written(p.host), Some(Decimal(p.device))]
     else [None, None, None, None, None])
    + [Written(n.tier), if n.eligible then None else Some(BoolName(false))]
  }

  /** What reading establishes about a placement. */
  predicate PlacementOk(p: Placement) {
    p.device < U32_LIMIT && (!p.supplied ==> p == Placement(None, None, None, None, 0, false))
  }

  lemma {:induction false} NodeReadsBack(n: NodeSpec)
    requires NodeNamed(n) && PlacementOk(n.placement)
    ensures |NodeRow(n)| == 7 && Writable(NodeRow(n)) && ReadNode(n.id, NodeRow(n)) == Some(n)
  {
    var p := n.placement;
    MaybeShortReadsBack(p.site);
    MaybeShortReadsBack(p.pod);
    MaybeShortReadsBack(p.rack);
    MaybeShortReadsBack(p.host);
    MaybeShortReadsBack(n.tier);
    CountReadsBack(p.device);
    NotEligible();
  }

  // ----- edges -----

  const EDGE_KEYS: seq<string> := ["from", "to", "capacity", "latency", "reserved", "tier", "domain", "evidence",
      "eligible"]

  function ReadEdge(id: nat, row: Row): Option<EdgeSpec>
    requires |row| == 9
  {
    var from, to := Needed(row[0], ReadId), Needed(row[1], ReadId);
    var capacity, latency, reserved := Fallback(row[2], ReadU64, 0), Fallback(row[3], ReadU64, 0),
        Fallback(row[4], ReadU64, 0);
    var tier, domain := Maybe(row[5], ReadShort), Maybe(row[6], ReadId);
    var evidence, eligible := Fallback(row[7], ReadEvidence, Unknown), Fallback(row[8], ReadBool, true);
    if from.None? || to.None? || capacity.None? || latency.None? || reserved.None? || tier.None? || domain.None?
       || evidence.None? || eligible.None? then None
    else Some(EdgeSpec(id, from.value, to.value, capacity.value, latency.value, reserved.value, tier.value,
        domain.value,
                       evidence.value, eligible.value))
  }

  function EdgeRow(e: EdgeSpec): Row {
    [Some(Name(e.from)), Some(Name(e.to)), Some(Decimal(e.capacity)), Some(Decimal(e.latency)),
     if e.reserved > 0 then Some(Decimal(e.reserved)) else None, Written(e.tier), Written(e.domain),
     Some(EvidenceName(e.evidence)), if e.eligible then None else Some(BoolName(false))]
  }

  lemma {:induction false} EdgeEnds(e: EdgeSpec)
    requires EdgeFits(e)
    ensures Needed(EdgeRow(e)[0], ReadId) == Some(e.from) && Needed(EdgeRow(e)[1], ReadId) == Some(e.to)
    ensures Maybe(EdgeRow(e)[5], ReadShort) == Some(e.tier) && Maybe(EdgeRow(e)[6], ReadId) == Some(e.domain)
  {
    IdReadsBack(e.from);
    IdReadsBack(e.to);
    MaybeShortReadsBack(e.tier);
    MaybeIdReadsBack(e.domain);
  }

  lemma {:induction false} EdgeFigures(e: EdgeSpec)
    requires EdgeFits(e)
    ensures Fallback(EdgeRow(e)[2], ReadU64, 0) == Some(e.capacity)
            && Fallback(EdgeRow(e)[3], ReadU64, 0) == Some(e.latency)
    ensures Fallback(EdgeRow(e)[4], ReadU64, 0) == Some(e.reserved)
  {
    CountField(e.capacity, 0);
    CountField(e.latency, 0);
    CountField(e.reserved, 0);
  }

  lemma {:induction false} EdgeMarks(e: EdgeSpec)
    ensures Fallback(EdgeRow(e)[7], ReadEvidence, Unknown) == Some(e.evidence)
    ensures Fallback(EdgeRow(e)[8], ReadBool, true) == Some(e.eligible)
  {
    FabricNames(Device, e.evidence);
    NotEligible();
  }

  lemma {:induction false} EdgeReadsBack(e: EdgeSpec)
    requires EdgeFits(e)
    ensures ReadEdge(e.id, EdgeRow(e)) == Some(e)
  {
    EdgeEnds(e);
    EdgeFigures(e);
    EdgeMarks(e);
  }

  lemma {:induction false} EdgeIsWritable(e: EdgeSpec)
    requires EdgeFits(e)
    ensures Writable(EdgeRow(e))
  {
    IdReadsBack(e.from);
    IdReadsBack(e.to);
    CountReadsBack(e.capacity);
    CountReadsBack(e.latency);
    CountReadsBack(e.reserved);
    MaybeShortReadsBack(e.tier);
    MaybeIdReadsBack(e.domain);
    FabricNames(Device, e.evidence);
    NotEligible();
  }


  // ----- bindings -----

  const BINDING_KEYS: seq<string> := ["node", "domains", "tiers"]

  function ReadBinding(id: nat, row: Row): Option<BindingSpec>
    requires |row| == 3
  {
    var node, domains, tiers := Needed(row[0], ReadId), Fallback(row[1], ReadIds, []), Fallback(row[2], ReadShorts, []);
    if node.None? || domains.None? || tiers.None? then None
    else Some(BindingSpec(id, node.value, domains.value, tiers.value))
  }

  /** A list is written unless it is empty. */
  function ListField(ids: seq<nat>): Option<string> {
    if ids == [] then None else Some(Listed(ids))
  }

  function BindingRow(b: BindingSpec): Row {
    [Some(Name(b.node)), ListField(b.domains), ListField(b.tiers)]
  }

  lemma {:induction false} FieldReadsBack(ids: seq<nat>)
    ensures AllIds(ids) ==> Fallback(ListField(ids), ReadIds, []) == Some(ids)
    ensures AllShort(ids) ==> Fallback(ListField(ids), ReadShorts, []) == Some(ids)
    ensures (AllIds(ids) || AllShort(ids)) && ids != [] ==> Word(Listed(ids))
  {
    AllIdsNamed(ids);
    if AllIds(ids) && ids != [] {
      ListReadsBack(ids, MAX_NAME);
    }
    if AllShort(ids) && ids != [] {
      ListReadsBack(ids, MAX_SHORT);
    }
  }

  lemma {:induction false} BindingReadsBack(b: BindingSpec)
    requires IsId(b.node) && AllIds(b.domains) && AllShort(b.tiers)
    ensures Writable(BindingRow(b)) && ReadBinding(b.participant, BindingRow(b)) == Some(b)
  {
    IdReadsBack(b.node);
    FieldReadsBack(b.domains);
    FieldReadsBack(b.tiers);
  }

  // ----- the policy, one field per line -----

  const POLICY_KEYS: seq<string> :=
    ["max-hops", "paths-per-logical-edge", "disjointness", "domain-diversity", "domain-diversity-level", "evidence",
     "latency-weight-milli", "congestion-weight-milli", "max-path-cost", "allow-unverified-capacity",
     "max-search-expansions", "allowed-tiers"]

  function ReadFigures(p: PolicySpec, row: Row): Option<PolicySpec>
    requires |row| == 12
  {
    var hops, paths := Fallback(row[0], ReadU64, p.maxHops), Fallback(row[1], ReadU64, p.paths);
    var latency, congestion := Fallback(row[6], ReadU64, p.latencyWeight),
        Fallback(row[7], ReadU64, p.congestionWeight);
    var cost, expansions := Fallback(row[8], ReadU64, p.maxPathCost), Fallback(row[10], ReadU64, p.maxExpansions);
    if hops.None? || paths.None? || latency.None? || congestion.None? || cost.None? || expansions.None? then None
    else Some(p.(maxHops := hops.value, paths := paths.value, latencyWeight := latency.value,
                 congestionWeight := congestion.value, maxPathCost := cost.value, maxExpansions := expansions.value))
  }

  function ReadModes(p: PolicySpec, row: Row): Option<PolicySpec>
    requires |row| == 12
  {
    var disjointness := Fallback(row[2], ReadDisjointness, p.disjointness);
    var diversity := Fallback(row[3], ReadDiversity, p.diversity);
    var level, evidence := Fallback(row[4], ReadDomainKind, p.level), Fallback(row[5], ReadFloor, p.evidence);
    var unverified := Fallback(row[9], ReadBool, p.allowUnverified);
    if disjointness.None? || diversity.None? || level.None? || evidence.None? || unverified.None? then None
    else Some(p.(disjointness := disjointness.value, diversity := diversity.value, level := level.value,
                 evidence := evidence.value, allowUnverified := unverified.value))
  }

  /** A list grown by the entries of a field, within the bound on policy sets. */
  function Grow(set0: seq<nat>, field: Option<string>, read: string -> Option<seq<nat>>): Option<seq<nat>> {
    var more := Fallback(field, read, []);
    if more.None? || (more.value != [] && |set0| + |more.value| > MAX_SET) then None else Some(set0 + more.value)
  }

  function ReadPolicy(p: PolicySpec, row: Row): Option<PolicySpec>
    requires |row| == 12
  {
    match ReadFigures(p, row)
    case None => None
    case Some(q) =>
      var modes, tiers := ReadModes(q, row), Grow(p.allowedTiers, row[11], ReadShorts);
      if modes.None? || tiers.None? then None else Some(modes.value.(allowedTiers := tiers.value))
  }

  function PolicyValue(p: PolicySpec, i: nat): string
    requires i < 12
  {
    match i
    case 0 => Decimal(p.maxHops)
    case 1 => Decimal(p.paths)
    case 2 => DisjointnessName(p.disjointness)
    case 3 => DiversityName(p.diversity)
    case 4 => DomainKindName(p.level)
    case 5 => FloorName(p.evidence)
    case 6 => Decimal(p.latencyWeight)
    case 7 => Decimal(p.congestionWeight)
    case 8 => Decimal(p.maxPathCost)
    case 9 => BoolName(p.allowUnverified)
    case 10 => Decimal(p.maxExpansions)
    case _ => Listed(p.allowedTiers)
  }

  /** q with the i-th field taken from p. */
  function Taken(q: PolicySpec, p: PolicySpec, i: nat): PolicySpec
    requires i < 12
  {
    match i
    case 0 => q.(maxHops := p.maxHops)
    case 1 => q.(paths := p.paths)
    case 2 => q.(disjointness := p.disjointness)
    case 3 => q.(diversity := p.diversity)
    case 4 => q.(level := p.level)
    case 5 => q.(evidence := p.evidence)
    case 6 => q.(latencyWeight := p.latencyWeight)
    case 7 => q.(congestionWeight := p.congestionWeight)
    case 8 => q.(maxPathCost := p.maxPathCost)
    case 9 => q.(allowUnverified := p.allowUnverified)
    case 10 => q.(maxExpansions := p.maxExpansions)
    case _ => q.(allowedTiers := q.allowedTiers + p.allowedTiers)
  }

  predicate PolicyWritable(p: PolicySpec) {
    && p.maxHops < U64_LIMIT && p.paths < U64_LIMIT && p.latencyWeight < U64_LIMIT && p.congestionWeight < U64_LIMIT
    && p.maxPathCost < U64_LIMIT && p.maxExpansions < U64_LIMIT
    && AllShort(p.allowedTiers) && AllIds(p.forbiddenNodes) && AllShort(p.forbiddenTiers) && AllIds(p.forbiddenDomains)
    && |p.allowedTiers| <= MAX_SET && |p.forbiddenNodes| <= MAX_SET && |p.forbiddenTiers| <= MAX_SET
       && |p.forbiddenDomains| <= MAX_SET
  }

  predicate IsFigure(i: nat) {
    i == 0 || i == 1 || i == 6 || i == 7 || i == 8 || i == 10
  }

  lemma {:induction false} FigureReadsBack(q: PolicySpec, p: PolicySpec, i: nat, row: Row)
    requires i < 12 && PolicyWritable(p) && IsFigure(i) && row == Lone(12, i, PolicyValue(p, i))
    ensures ReadFigures(q, row) == Some(Taken(q, p, i)) && Word(PolicyValue(p, i))
  {
    CountReadsBack(p.maxHops);
    CountReadsBack(p.paths);
    CountReadsBack(p.latencyWeight);
    CountReadsBack(p.congestionWeight);
    CountReadsBack(p.maxPathCost);
    CountReadsBack(p.maxExpansions);
  }

  lemma {:induction false} ModeReadsBack(q: PolicySpec, p: PolicySpec, i: nat, row: Row)
    requires i < 11 && !IsFigure(i) && row == Lone(12, i, PolicyValue(p, i))
    ensures ReadModes(q, row) == Some(Taken(q, p, i)) && Word(PolicyValue(p, i))
  {
    PolicyNames(p.disjointness, p.diversity, p.evidence, p.allowUnverified);
    FabricNames(p.level, Unknown);
  }

  lemma NoFigures(q: PolicySpec, i: nat, row: Row, value: string)
    requires i < 12 && row == Lone(12, i, value)
    ensures !IsFigure(i) ==> ReadFigures(q, row) == Some(q)
    ensures i == 11 || IsFigure(i) ==> ReadModes(q, row) == Some(q)
    ensures i != 11 ==> Grow(q.allowedTiers, row[11], ReadShorts) == Some(q.allowedTiers)
  {
    GrowNothing(q.allowedTiers, ReadShorts);
  }

  lemma GrowNothing(ids: seq<nat>, read: string -> Option<seq<nat>>)
    ensures Grow(ids, None, read) == Some(ids)
  {
    assert ids + [] == ids;
  }

  lemma {:induction false} GrowFromNothing(ids: seq<nat>)
    requires ids != [] && |ids| <= MAX_SET
    ensures AllIds(ids) ==> Grow([], Some(Listed(ids)), ReadIds) == Some(ids)
    ensures AllShort(ids) ==> Grow([], Some(Listed(ids)), ReadShorts) == Some(ids)
    ensures AllIds(ids) || AllShort(ids) ==> Word(Listed(ids))
  {
    FieldReadsBack(ids);
    assert [] + ids == ids;
  }

  lemma PolicyComposed(q: PolicySpec, row: Row, a: PolicySpec, b: PolicySpec, tiers: seq<nat>)
    requires |row| == 12 && ReadFigures(q, row) == Some(a) && ReadModes(a, row) == Some(b)
    requires Grow(q.allowedTiers, row[11], ReadShorts) == Some(tiers)
    ensures ReadPolicy(q, row) == Some(b.(allowedTiers := tiers))
  {
  }

  lemma {:induction false} FigureLine(q: PolicySpec, p: PolicySpec, i: nat, row: Row)
    requires i < 12 && PolicyWritable(p) && IsFigure(i) && row == Lone(12, i, PolicyValue(p, i))
    ensures Word(PolicyValue(p, i)) && ReadPolicy(q, row) == Some(Taken(q, p, i))
  {
    var next := Taken(q, p, i);
    FigureReadsBack(q, p, i, row);
    NoFigures(next, i, row, PolicyValue(p, i));
    assert next.allowedTiers == q.allowedTiers;
    PolicyComposed(q, row, next, next, q.allowedTiers);
  }

  lemma {:induction false} ModeLine(q: PolicySpec, p: PolicySpec, i: nat, row: Row)
    requires i < 11 && !IsFigure(i) && row == Lone(12, i, PolicyValue(p, i))
    ensures Word(PolicyValue(p, i)) && ReadPolicy(q, row) == Some(Taken(q, p, i))
  {
    var next := Taken(q, p, i);
    NoFigures(q, i, row, PolicyValue(p, i));
    ModeReadsBack(q, p, i, row);
    assert next.allowedTiers == q.allowedTiers;
    PolicyComposed(q, row, q, next, q.allowedTiers);
  }

  lemma {:induction false} TiersLine(q: PolicySpec, p: PolicySpec, row: Row)
    requires PolicyWritable(p) && p.allowedTiers != [] && q.allowedTiers == []
             && row == Lone(12, 11, Listed(p.allowedTiers))
    ensures Word(Listed(p.allowedTiers)) && ReadPolicy(q, row) == Some(q.(allowedTiers := p.allowedTiers))
  {
    NoFigures(q, 11, row, Listed(p.allowedTiers));
    GrowFromNothing(p.allowedTiers);
    PolicyComposed(q, row, q, q, p.allowedTiers);
  }

  /** A line of the policy section sets its field and leaves the others. */
  lemma {:induction false} PolicyFieldReadsBack(q: PolicySpec, p: PolicySpec, i: nat)
    requires i < 12 && PolicyWritable(p) && (i == 11 ==> p.allowedTiers != [] && q.allowedTiers == [])
    ensures Word(PolicyValue(p, i)) && ReadPolicy(q, Lone(12, i, PolicyValue(p, i))) == Some(Taken(q, p, i))
  {
    var row := Lone(12, i, PolicyValue(p, i));
    if IsFigure(i) {
      FigureLine(q, p, i, row);
    } else if i < 11 {
      ModeLine(q, p, i, row);
    } else {
      TiersLine(q, p, row);
      assert [] + p.allowedTiers == p.allowedTiers;
    }
  }

  // ----- forbidden resources, one set per line -----

  const FORBIDDEN_KEYS: seq<string> := ["nodes", "tiers", "domains"]

  function ReadForbidden(p: PolicySpec, row: Row): Option<PolicySpec>
    requires |row| == 3
  {
    var nodes, tiers := Grow(p.forbiddenNodes, row[0], ReadIds), Grow(p.forbiddenTiers, row[1], ReadShorts);
    var domains := Grow(p.forbiddenDomains, row[2], ReadIds);
    if nodes.None? || tiers.None? || domains.None? then None
    else Some(p.(forbiddenNodes := nodes.value, forbiddenTiers := tiers.value, forbiddenDomains := domains.value))
  }

  function ForbiddenSet(p: PolicySpec, i: nat): seq<nat>
    requires i < 3
  {
    match i
    case 0 => p.forbiddenNodes
    case 1 => p.forbiddenTiers
    case _ => p.forbiddenDomains
  }

  function Forbidding(q: PolicySpec, p: PolicySpec, i: nat): PolicySpec
    requires i < 3
  {
    match i
    case 0 => q.(forbiddenNodes := p.forbiddenNodes)
    case 1 => q.(forbiddenTiers := p.forbiddenTiers)
    case _ => q.(forbiddenDomains := p.forbiddenDomains)
  }

  lemma {:induction false} ForbiddenReadsBack(q: PolicySpec, p: PolicySpec, i: nat)
    requires i < 3 && PolicyWritable(p) && ForbiddenSet(p, i) != [] && ForbiddenSet(q, i) == []
    ensures Word(Listed(ForbiddenSet(p, i)))
    ensures ReadForbidden(q, Lone(3, i, Listed(ForbiddenSet(p, i)))) == Some(Forbidding(q, p, i))
  {
    GrowFromNothing(ForbiddenSet(p, i));
    GrowNothing(q.forbiddenNodes, ReadIds);
    GrowNothing(q.forbiddenTiers, ReadShorts);
    GrowNothing(q.forbiddenDomains, ReadIds);
    ForbiddenGrows(q, p, i, Lone(3, i, Listed(ForbiddenSet(p, i))));
  }

  lemma {:induction false} ForbiddenGrows(q: PolicySpec, p: PolicySpec, i: nat, row: Row)
    requires i < 3 && |row| == 3
    requires Grow(q.forbiddenNodes, row[0], ReadIds) == Some(if i == 0 then p.forbiddenNodes else q.forbiddenNodes)
    requires Grow(q.forbiddenTiers, row[1], ReadShorts) == Some(if i == 1 then p.forbiddenTiers else q.forbiddenTiers)
    requires Grow(q.forbiddenDomains, row[2], ReadIds) ==
             Some(if i == 2 then p.forbiddenDomains else q.forbiddenDomains)
    ensures ReadForbidden(q, row) == Some(Forbidding(q, p, i))
  {
  }
}
