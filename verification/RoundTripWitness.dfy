/** A request text that does not survive being written and read again: a ring that declares a root. */
module RoundTripWitness {
  import opened Candidates
  import opened Finite
  import opened Sorting
  import opened Collectives
  import opened LogicalEdges
  import opened CollectiveBuild
  import opened CanonicalLists
  import opened Declarations
  import opened Identifiers
  import opened FabricBuild
  import opened RequestBuild
  import opened TextFields
  import opened TextTables
  import opened TextLines
  import opened RequestEntries
  import opened RequestText
  import opened RequestEncoding
  import opened LineReading
  import opened BlockReading
  import opened SpecReading
  import opened RequestRoundTrip

  // ----- two participants on a ring -----

  ghost predicate TwoIds(a: nat, b: nat) {
    a < b && IsId(a) && IsId(b)
  }

  lemma {:induction false} TwoNames() returns (a: nat, b: nat)
    ensures TwoIds(a, b) && Name(a) == "a" && Name(b) == "b"
  {
    a, b := Position("a", MAX_NAME), Position("b", MAX_NAME);
    ReadBack("a", MAX_NAME);
    ReadBack("b", MAX_NAME);
    PositionsInOrder("a", "b", MAX_NAME);
  }

  function Ringed(a: nat, b: nat): Group {
    Group(a, 0, Ring, Forward, Some(a), [a, b])
  }

  function RingForm(a: nat, b: nat): Collective {
    Collective([Ringed(a, b)], [Implied(a, b, 0), Implied(b, a, 0)], 1, [a, b])
  }

  lemma {:induction false} RingIsCanonical(a: nat, b: nat)
    requires a < b
    ensures var g := Ringed(a, b); Accepted(g) && Canon(g) == g && WellFormed(g)
  {
    var m := [a, b];
    RepeatsIff(m);
    assert SmallestAt(m, Smallest(m)) && m[0] < m[1];
    assert Rotated(m) == m;
  }

  lemma {:induction false} RingEdgesAre(a: nat, b: nat)
    requires a < b
    ensures CanonicalEdges([Ringed(a, b)], RingForm(a, b).edges)
  {
    var g, edges := Ringed(a, b), RingForm(a, b).edges;
    forall e: Implied
      ensures e in edges <==> Earliest([g], e)
    {
      RingMeans(g, a, b, e.src, e.dst);
      assert [g][0] == g;
      assert ImpliedBy([g], e) <==> Implies(g, e.src, e.dst) && e.stage == 0 by {
        ImpliedSnoc([], g, e);
        assert [] + [g] == [g];
      }
    }
  }

  lemma RingMeans(g: Group, a: nat, b: nat, src: nat, dst: nat)
    requires g == Ringed(a, b)
    ensures Implies(g, src, dst) <==> (src, dst) == (a, b) || (src, dst) == (b, a)
  {
    assert g.members[0] == a && g.members[1] == b && Succ(2, 0) == 1 && Succ(2, 1) == 0;
  }

  lemma {:induction false} RingIsBuilt(a: nat, b: nat)
    requires a < b
    ensures Built([Ringed(a, b)]) == Some(RingForm(a, b))
  {
    var g, c := Ringed(a, b), RingForm(a, b);
    RingIsCanonical(a, b);
    RingEdgesAre(a, b);
    assert CanonAll([g]) == [g];
    OneOrdered(g);
    RingCounts(a, b);
    BuiltIs([g], c);
  }

  lemma {:induction false} OneOrdered(g: Group)
    ensures Ordered([g]) == Some([g])
  {
    SortPermutes(GroupLess, [g]);
    SameElements(Sort(GroupLess, [g]), [g]);
    assert Sort(GroupLess, [g])[0] in [g];
    assert Sort(GroupLess, [g]) == [g];
  }

  lemma {:induction false} RingCounts(a: nat, b: nat)
    requires a < b
    ensures var c := RingForm(a, b);
            StageCount(c.edges) == 1 && TotalCount(c.groups) == 2 && CanonicalParticipants(c.edges, c.participants)
  {
    var c := RingForm(a, b);
    var e := c.edges;
    assert e[..1] == [e[0]] && e[..1][..0] == [] && StageCount([]) == 1 && StageCount(e[..1]) == 1;
    assert c.groups[..0] == [] && TotalCount([]) == 0;
    forall x
      ensures x in c.participants <==> Endpoint(e, x)
    {
      assert e[0].src == a && e[0].dst == b;
    }
  }

  // ----- a request around it -----

  function RootedSpec(a: nat, b: nat): RequestSpec {
    Initial().spec.(planGeneration := 1, policy := DefaultPolicy().(generation := 1),
                    collective := CollectiveSpec(a, RingKind, 0, [Ringed(a, b)]))
  }

  lemma {:induction false} DefaultsAreFine()
    ensures CanonPolicy(DefaultPolicy().(generation := 1)) == DefaultPolicy().(generation := 1)
    ensures PolicyOk(DefaultPolicy().(generation := 1))
  {
    SortUniqueExact([]);
  }

  lemma {:induction false} EmptyFabric(f: FabricSpec)
    requires f.domains == [] && f.nodes == [] && f.edges == []
    ensures Graph(f).Some?
  {
    AcceptedIff(f);
  }

  lemma {:induction false} NoBindings(participants: seq<nat>, g: FabricGraph)
    ensures BindingsOf([], participants, g) == Some([])
  {
    var s := Map(CanonBinding, []);
    assert multiset(s) == multiset([]);
    AscendingIsRanked(BindingKey, s, []);
  }

  lemma {:induction false} RootedIsBuilt(a: nat, b: nat) returns (r: PlanningRequest)
    requires TwoIds(a, b)
    ensures RequestOf(RootedSpec(a, b)) == Some(r) && !PlainGroups(r)
  {
    var spec := RootedSpec(a, b);
    RingIsBuilt(a, b);
    RingNamed(a, b);
    DefaultsAreFine();
    EmptyFabric(spec.fabric);
    var collective := BuiltCollective(a, RingKind, 0, RingForm(a, b));
    var fabric := Graph(spec.fabric).value;
    NoBindings([a, b], fabric);
    r := PlanningRequest(collective, fabric, DefaultPolicy().(generation := 1), 1, []);
    assert r.collective.form.groups[0] == Ringed(a, b) && Stripped(Ringed(a, b)).root == None;
  }

  lemma {:induction false} RingNamed(a: nat, b: nat)
    requires TwoIds(a, b)
    ensures GroupsNamed([Ringed(a, b)])
  {
    assert AllIds([a, b]);
    assert GroupNamed(Ringed(a, b));
  }

  // ----- its text -----

  function RootedRow(a: nat, b: nat): Row {
    [Some(Decimal(0)), Some("ring"), Some(Name(a)), None, Some(Listed([a, b]))]
  }

  function OwnLine(a: nat): string {
    FieldsLine(COLLECTIVE_KEYS, CollectiveRow(CollectiveSpec(a, RingKind, 0, [])))
  }

  function RingLine(a: nat, b: nat): string {
    NamedLine(a, GROUP_KEYS, RootedRow(a, b))
  }

  function Front(n: nat): seq<string> {
    [BannerLine(), HeaderLine(PlanLabel, n), HeaderLine(PolicyLabel, n)]
  }

  function RootedLines(a: nat, b: nat): seq<string> {
    Front(1) + (Block(CollectiveSection, [OwnLine(a)]) + Block(Groups, [RingLine(a, b)]))
  }

  lemma {:induction false} RowIsRead(a: nat, b: nat)
    requires TwoIds(a, b)
    ensures Writable(RootedRow(a, b)) && ReadGroup(a, RootedRow(a, b)) == Some(Ringed(a, b))
  {
    CountReadsBack(0);
    IdReadsBack(a);
    CollectiveNames(RingKind, Ring, Forward);
    assert AllIds([a, b]);
    AllIdsNamed([a, b]);
    ListReadsBack([a, b], MAX_NAME);
  }

  // ----- its lines are short -----

  ghost predicate Brief(entries: seq<Assignment>) {
    forall i {:trigger entries[i]} | 0 <= i < |entries| :: |entries[i].key| <= 30 && |entries[i].value| <= 200
  }

  lemma {:induction false} BriefTail(entries: seq<Assignment>)
    requires Brief(entries)
    ensures |Tail(entries)| <= 232 * |entries|
    decreases |entries|
  {
    if entries != [] {
      BriefTail(entries[1..]);
    }
  }

  lemma {:induction false} BriefFields(keys: seq<string>, row: Row)
    requires |keys| == |row| && forall i {:trigger keys[i]} | 0 <= i < |keys| :: |keys[i]| <= 30
    requires forall i {:trigger row[i]} | 0 <= i < |row| :: row[i].Some? ==> |row[i].value| <= 200
    ensures Brief(Fields(keys, row)) && |Fields(keys, row)| <= |keys|
    decreases |keys|
  {
    if keys != [] {
      BriefFields(keys[1..], row[1..]);
    }
  }

  lemma {:induction false} BriefLine(id: nat, keys: seq<string>, row: Row)
    requires IsId(id) && |keys| == |row| <= 9 && forall i {:trigger keys[i]} | 0 <= i < |keys| :: |keys[i]| <= 30
    requires forall i {:trigger row[i]} | 0 <= i < |row| :: row[i].Some? ==> |row[i].value| <= 200
    ensures |NamedLine(id, keys, row)| <= MAX_LINE && |FieldsLine(keys, row)| <= MAX_LINE
  {
    BriefFields(keys, row);
    BriefTail(Fields(keys, row));
    if Fields(keys, row) != [] {
      TailIsRendered(Fields(keys, row));
    }
  }

  lemma {:induction false} BriefHeaders(n: nat)
    requires n < 10
    ensures |BannerLine()| <= MAX_LINE && |HeaderLine(PlanLabel, n)| <= MAX_LINE
            && |HeaderLine(PolicyLabel, n)| <= MAX_LINE
  {
    assert |Decimal(1)| == 1 && |Decimal(n)| == 1 && |LabelName(PlanLabel)| == 15 && |LabelName(PolicyLabel)| == 17;
  }

  lemma {:induction false} BriefNames(a: nat, b: nat)
    requires TwoIds(a, b)
    ensures |Name(a)| <= 64 && |Listed([a, b])| <= 129
  {
    var names := Map(Name, [a, b]);
    assert names[0] == Name(a) && names[1..] == [Name(b)];
    assert Join(names, ',') == Name(a) + [','] + Join([Name(b)], ',');
  }

  lemma {:induction false} BriefEntries(a: nat, b: nat)
    requires TwoIds(a, b)
    ensures |RingLine(a, b)| <= MAX_LINE && |OwnLine(a)| <= MAX_LINE
  {
    BriefNames(a, b);
    assert |Decimal(0)| == 1;
    BriefLine(a, GROUP_KEYS, RootedRow(a, b));
    BriefLine(a, COLLECTIVE_KEYS, CollectiveRow(CollectiveSpec(a, RingKind, 0, [])));
  }

  // ----- reading it -----

  function Fronted(n: nat): State {
    var st := Initial();
    st.(banner := true, spec := st.spec.(planGeneration := n, policy := DefaultPolicy().(generation := n)))
  }

  lemma {:induction false} LabelRead(st: State, l: Label, n: nat, next: State)
    requires n < 10 && (l == PlanLabel || l == PolicyLabel) && st.banner && st.section == Outside
    requires next == st.(spec := SetGeneration(st.spec, l, n))
    ensures Step(st, HeaderLine(l, n)) == Some(next)
  {
    BriefHeaders(n);
    HeaderStep(st, l, n);
  }

  lemma {:induction false} BannerRead(n: nat, next: State)
    requires n < 10 && next == Initial().(banner := true)
    ensures Step(Initial(), BannerLine()) == Some(next)
  {
    BriefHeaders(n);
    BannerStep(Initial());
  }

  lemma {:induction false} LabelsRead(st: State, n: nat)
    requires n < 10 && st == Initial().(banner := true)
    ensures Run(st, [HeaderLine(PlanLabel, n), HeaderLine(PolicyLabel, n)]) == Some(Fronted(n))
  {
    var next := st.(spec := SetGeneration(st.spec, PlanLabel, n));
    LabelRead(st, PlanLabel, n, next);
    LabelRead(next, PolicyLabel, n, Fronted(n));
    TwoSteps(st, next, Fronted(n), HeaderLine(PlanLabel, n), HeaderLine(PolicyLabel, n));
  }

  lemma {:induction false} TwoSteps(s0: State, s1: State, s2: State, x: string, y: string)
    requires Step(s0, x) == Some(s1) && Step(s1, y) == Some(s2)
    ensures Run(s0, [x, y]) == Some(s2)
  {
    assert [x, y][1..] == [y];
    RunCons(s0, [x, y], s1);
    RunOne(s1, y);
  }

  lemma {:induction false} FrontRead(n: nat)
    requires n < 10
    ensures Run(Initial(), Front(n)) == Some(Fronted(n))
  {
    var next := Initial().(banner := true);
    BannerRead(n, next);
    LabelsRead(next, n);
    assert Front(n)[1..] == [HeaderLine(PlanLabel, n), HeaderLine(PolicyLabel, n)];
    RunCons(Initial(), Front(n), next);
  }

  lemma {:induction false} OwnRead(st: State, a: nat)
    requires st.banner && !st.declared && CollectiveSection !in st.seen && IsId(a) && |OwnLine(a)| <= MAX_LINE
             && st.spec.collective.groups == []
    ensures Run(st, Block(CollectiveSection, [OwnLine(a)])) ==
            Some(Opened(st, CollectiveSection).(spec := st.spec.(collective := CollectiveSpec(a, RingKind, 0, [])),
                declared := true))
  {
    ShortSection(CollectiveSection, OwnLine(a));
    BlockRuns(st, CollectiveSection, [OwnLine(a)]);
    RunOne(Opened(st, CollectiveSection), OwnLine(a));
    CollectiveStep(Opened(st, CollectiveSection), CollectiveSpec(a, RingKind, 0, []));
  }

  lemma {:induction false} ShortSection(s: Section, line: string)
    requires |line| <= MAX_LINE
    ensures Fit(Block(s, [line]))
  {
    assert |SectionName(s)| <= 10;
    var lines := Block(s, [line]);
    assert lines[0] == "" && lines[1] == SectionLine(s) && lines[2] == line;
  }

  lemma {:induction false} RingRead(st: State, a: nat, b: nat)
    requires st.banner && Groups !in st.seen && TwoIds(a, b) && |RingLine(a, b)| <= MAX_LINE
             && st.spec.collective.groups == []
    ensures Run(st, Block(Groups, [RingLine(a, b)])) == Some(WithGroups(Opened(st, Groups), [Ringed(a, b)]))
  {
    ShortSection(Groups, RingLine(a, b));
    BlockRuns(st, Groups, [RingLine(a, b)]);
    var inside := Opened(st, Groups);
    RunOne(inside, RingLine(a, b));
    RingStep(inside, a, b);
  }

  lemma {:induction false} RingStep(st: State, a: nat, b: nat)
    requires st.banner && st.section == Groups && TwoIds(a, b) && |RingLine(a, b)| <= MAX_LINE
             && st.spec.collective.groups == []
    ensures Step(st, RingLine(a, b)) == Some(WithGroups(st, [Ringed(a, b)]))
  {
    RowIsRead(a, b);
    GroupTable();
    NamedStep(st, a, RootedRow(a, b), RingLine(a, b));
    RingAdded(st.spec.collective, a, b, RootedRow(a, b));
  }

  lemma RingAdded(c: CollectiveSpec, a: nat, b: nat, row: Row)
    requires |row| == 5 && c.groups == [] && ReadGroup(a, row) == Some(Ringed(a, b))
    ensures AddGroup(c, a, row) == Some(c.(groups := [Ringed(a, b)]))
  {
    assert [] + [Ringed(a, b)] == [Ringed(a, b)];
  }

  lemma {:induction false} RootedRead(a: nat, b: nat) returns (end: State)
    requires TwoIds(a, b)
    ensures Run(Initial(), RootedLines(a, b)) == Some(end) && end.banner && end.spec == RootedSpec(a, b)
  {
    BriefEntries(a, b);
    FrontRead(1);
    var s1 := Fronted(1);
    OwnRead(s1, a);
    var s2 := Opened(s1, CollectiveSection).(spec := s1.spec.(collective := CollectiveSpec(a, RingKind, 0, [])),
        declared := true);
    RingRead(s2, a, b);
    end := WithGroups(Opened(s2, Groups), [Ringed(a, b)]);
    RunConcat(s1, Block(CollectiveSection, [OwnLine(a)]), Block(Groups, [RingLine(a, b)]));
    RunConcat(Initial(), Front(1), Block(CollectiveSection, [OwnLine(a)]) + Block(Groups, [RingLine(a, b)]));
  }

  lemma {:induction false} FrontFree(n: nat)
    ensures ItemsFree(Front(n), '\n')
  {
    BannerFree();
    HeaderFree(PlanLabel, n);
    HeaderFree(PolicyLabel, n);
  }

  lemma {:induction false} BannerFree()
    ensures Free(BannerLine(), '\n')
  {
    assert Word("cpath-request");
    WordThen("cpath-request", 1);
    SoundIsTidy(BannerLine());
  }

  lemma {:induction false} HeaderFree(l: Label, n: nat)
    ensures Free(HeaderLine(l, n), '\n')
  {
    LabelIsWord(l);
    WordThen(LabelName(l), n);
    SoundIsTidy(HeaderLine(l, n));
  }

  lemma {:induction false} EntriesFree(a: nat, b: nat)
    requires TwoIds(a, b)
    ensures Free(OwnLine(a), '\n') && Free(RingLine(a, b), '\n')
  {
    ShortTables();
    GroupTable();
    var c := CollectiveSpec(a, RingKind, 0, []);
    CollectiveReadsBack(c, c);
    FieldsWordy(COLLECTIVE_KEYS, CollectiveRow(c));
    RenderSound(Fields(COLLECTIVE_KEYS, CollectiveRow(c)));
    SoundIsTidy(OwnLine(a));
    RowIsRead(a, b);
    NamedLineFree(a, GROUP_KEYS, RootedRow(a, b));
  }

  lemma {:induction false} RootedFree(a: nat, b: nat)
    requires TwoIds(a, b)
    ensures ItemsFree(RootedLines(a, b), '\n')
  {
    FrontFree(1);
    EntriesFree(a, b);
    BlockFree(CollectiveSection, [OwnLine(a)]);
    BlockFree(Groups, [RingLine(a, b)]);
    FreeConcat(Block(CollectiveSection, [OwnLine(a)]), Block(Groups, [RingLine(a, b)]));
    FreeConcat(Front(1), Block(CollectiveSection, [OwnLine(a)]) + Block(Groups, [RingLine(a, b)]));
  }

  lemma {:induction false} TextLength(lines: seq<string>)
    requires Fit(lines)
    ensures |Unlines(lines)| <= (MAX_LINE + 1) * |lines|
    decreases |lines|
  {
    if lines != [] {
      TextLength(lines[1..]);
    }
  }

  lemma {:induction false} RootedFits(a: nat, b: nat)
    requires TwoIds(a, b)
    ensures |RootedLines(a, b)| == 9 && Fit(RootedLines(a, b)) && 0 < |Unlines(RootedLines(a, b))| <= MAX_INPUT
  {
    BriefHeaders(1);
    BriefEntries(a, b);
    ShortSection(CollectiveSection, OwnLine(a));
    ShortSection(Groups, RingLine(a, b));
    FitConcat(Block(CollectiveSection, [OwnLine(a)]), Block(Groups, [RingLine(a, b)]));
    FitConcat(Front(1), Block(CollectiveSection, [OwnLine(a)]) + Block(Groups, [RingLine(a, b)]));
    TextLength(RootedLines(a, b));
  }

  lemma FitConcat(a: seq<string>, b: seq<string>)
    requires Fit(a) && Fit(b)
    ensures Fit(a + b)
  {
  }

  /** The root of the ring is read, but not written: the request does not come back. */
  lemma {:induction false} RootedRingIsLost() returns (text: string, r: PlanningRequest)
    ensures ParseRequest(text) == Some(r) && ParseRequest(TextOf(r)) != Some(r)
  {
    var a, b := TwoNames();
    var lines := RootedLines(a, b);
    text := Unlines(lines);
    RootedFits(a, b);
    RootedFree(a, b);
    LinesReadBack(lines);
    TrailingBlank(Initial(), lines);
    var end := RootedRead(a, b);
    r := RootedIsBuilt(a, b);
    RoundTripIff(text, r);
  }
}
