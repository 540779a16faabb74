/** How the reader takes the lines of the writer, one by one. */
module LineReading {
  import opened Candidates
  import opened Finite
  import opened Declarations
  import opened Identifiers
  import opened TextFields
  import opened TextTables
  import opened TextLines
  import opened RequestEntries
  import opened RequestText
  import opened RequestEncoding

  // ----- keywords -----

  /** Words that differ in length or in their first two characters. */
  predicate Apart(a: string, b: string) {
    |a| != |b| || (|a| >= 2 && |b| >= 2 && (a[0] != b[0] || a[1] != b[1]))
  }

  lemma ApartDiffer(keys: seq<string>)
    requires forall i, j {:trigger Apart(keys[i], keys[j])} | 0 <= i < j < |keys| :: Apart(keys[i], keys[j])
    ensures Injective(keys)
  {
    forall i, j | 0 <= i < j < |keys|
      ensures keys[i] != keys[j]
    {
      assert Apart(keys[i], keys[j]);
    }
  }

  lemma ShortTables()
    ensures Keys(COLLECTIVE_KEYS) && Keys(DOMAIN_KEYS) && Keys(BINDING_KEYS) && Keys(FORBIDDEN_KEYS)
  {
    ApartDiffer(COLLECTIVE_KEYS);
    ApartDiffer(DOMAIN_KEYS);
    ApartDiffer(BINDING_KEYS);
    ApartDiffer(FORBIDDEN_KEYS);
  }

  lemma GroupTable()
    ensures Keys(GROUP_KEYS)
  {
    ApartDiffer(GROUP_KEYS);
  }

  lemma NodeTable()
    ensures Keys(NODE_KEYS)
  {
    ApartDiffer(NODE_KEYS);
  }

  lemma EdgeTable()
    ensures Keys(EDGE_KEYS)
  {
    ApartDiffer(EDGE_KEYS);
  }

  lemma FirstPolicyWords()
    ensures Word("max-hops") && Word("paths-per-logical-edge") && Word("disjointness") && Word("domain-diversity")
  {
  }

  lemma NextPolicyWords()
    ensures Word("domain-diversity-level") && Word("evidence") && Word("latency-weight-milli")
            && Word("congestion-weight-milli")
  {
  }

  lemma LastPolicyWords()
    ensures Word("max-path-cost") && Word("allow-unverified-capacity") && Word("max-search-expansions")
            && Word("allowed-tiers")
  {
  }

  lemma PolicyKeysDiffer()
    ensures Injective(POLICY_KEYS)
  {
    ApartDiffer(POLICY_KEYS);
  }

  lemma PolicyTable()
    ensures Keys(POLICY_KEYS)
  {
    PolicyKeysDiffer();
    FirstPolicyWords();
    NextPolicyWords();
    LastPolicyWords();
  }

  lemma SectionReadsBack(s: Section)
    requires s != Outside
    ensures ReadSection(SectionName(s)) == Some(s) && Word(SectionName(s))
  {
  }

  lemma LabelReadsBack(l: Label)
    ensures ReadLabel(LabelName(l)) == Some(l)
  {
  }

  lemma GenerationWords()
    ensures Word("plan-generation") && Word("topology-generation") && Word("failure-domain-generation")
    ensures Word("capacity-evidence-generation") && Word("policy-generation")
  {
  }

  lemma LabelIsWord(l: Label)
    ensures Word(LabelName(l))
  {
    GenerationWords();
  }

  // ----- lines the reader takes as they are -----

  predicate LineChar(c: char) {
    PlainChar(c) || c == ' ' || c == '='
  }

  predicate Sound(line: string) {
    && line != [] && PlainChar(line[0]) && PlainChar(line[|line| - 1])
       && forall i | 0 <= i < |line| :: LineChar(line[i])
  }

  lemma SoundIsTidy(line: string)
    requires Sound(line)
    ensures Tidy(line) && line[0] != '['
  {
  }

  lemma SoundPair(a: string, c: char, b: string)
    requires Sound(a) && Sound(b) && (c == ' ' || c == '=')
    ensures Sound(a + [c] + b)
  {
    var line := a + [c] + b;
    assert line[|line| - 1] == b[|b| - 1];
  }

  ghost predicate Wordy(entries: seq<Assignment>) {
    forall i {:trigger entries[i]} | 0 <= i < |entries| :: Word(entries[i].key) && Word(entries[i].value)
  }

  lemma {:induction false} FieldsWordy(keys: seq<string>, row: Row)
    requires |keys| == |row| && Keys(keys) && Writable(row)
    ensures Wordy(Fields(keys, row))
    decreases |keys|
  {
    if keys != [] {
      FieldsWordy(keys[1..], row[1..]);
      assert FieldOk(row[0]);
    }
  }

  lemma {:induction false} TailSound(start: string, entries: seq<Assignment>)
    requires Sound(start) && Wordy(entries)
    ensures Sound(start + Tail(entries))
    decreases |entries|
  {
    if entries == [] {
      assert start + Tail(entries) == start;
    } else {
      var a := entries[0];
      SoundPair(a.key, '=', a.value);
      SoundPair(start, ' ', Show(a));
      TailSound(start + [' '] + Show(a), entries[1..]);
      assert start + Tail(entries) == (start + [' '] + Show(a)) + Tail(entries[1..]);
    }
  }

  lemma {:induction false} RenderSound(entries: seq<Assignment>)
    requires entries != [] && Wordy(entries)
    ensures Sound(Render(entries))
  {
    var a := entries[0];
    SoundPair(a.key, '=', a.value);
    TailSound(Show(a), entries[1..]);
    if |entries| > 1 {
      TailIsRendered(entries[1..]);
      assert Render(entries) == Show(a) + Tail(entries[1..]);
    } else {
      assert Render(entries) == Show(a) + Tail([]);
    }
  }

  lemma {:induction false} StepSound(st: State, line: string)
    requires Sound(line) && |line| <= MAX_LINE
    ensures Step(st, line) == if !st.banner then HandleBanner(st, line) else if st.section == Outside
            then HandleHeader(st, line)
                              else if Named(st.section) then HandleNamed(st, line) else HandleFields(st, line)
  {
    SoundIsTidy(line);
    TidyStays(line);
  }

  lemma {:induction false} BlankStep(st: State)
    ensures Step(st, "") == Some(st)
  {
    assert Trimmed("") == "";
  }

  /** A word, a blank and a number. */
  lemma {:induction false} WordThen(w: string, n: nat)
    requires Word(w)
    ensures var line := w + [' '] + Decimal(n); Sound(line) && FirstWord(line) == w && AfterWord(line) == Decimal(n)
  {
    DecimalIsWord(n);
    SoundPair(w, ' ', Decimal(n));
    WordEnds(w, Decimal(n));
  }

  lemma {:induction false} WordEnds(w: string, v: string)
    requires Word(w) && Word(v)
    ensures var line := w + [' '] + v; FirstWord(line) == w && AfterWord(line) == v
  {
    var line := w + [' '] + v;
    WordIsSolid(w);
    WordIsSolid(v);
    assert line[|w|] == ' ' && line[|w| + 1] == v[0];
    EndIs(line, 0, |w|);
    SkipBlanksIs(line, |w|, |w| + 1);
  }

  lemma {:induction false} BannerStep(st: State)
    requires !st.banner && |BannerLine()| <= MAX_LINE
    ensures Step(st, BannerLine()) == Some(st.(banner := true))
  {
    assert Word("cpath-request");
    WordThen("cpath-request", 1);
    StepSound(st, BannerLine());
    CountReadsBack(1);
  }

  lemma {:induction false} HeaderStep(st: State, l: Label, n: nat)
    requires st.banner && st.section == Outside && n < U64_LIMIT && |HeaderLine(l, n)| <= MAX_LINE
    ensures Step(st, HeaderLine(l, n)) == Some(st.(spec := SetGeneration(st.spec, l, n)))
  {
    LabelIsWord(l);
    LabelReadsBack(l);
    WordThen(LabelName(l), n);
    StepSound(st, HeaderLine(l, n));
    CountReadsBack(n);
  }

  lemma {:induction false} SectionStep(st: State, s: Section)
    requires s != Outside && s !in st.seen && |SectionLine(s)| <= MAX_LINE
    ensures Step(st, SectionLine(s)) == Some(st.(section := s, seen := st.seen + {s}))
  {
    var line := SectionLine(s);
    SectionReadsBack(s);
    WordIsSolid(SectionName(s));
    assert line[0] == '[' && line[|line| - 1] == ']' && line[1..|line| - 1] == SectionName(s);
    TidyStays(line);
  }

  lemma {:induction false} NamedParts(id: nat, entries: seq<Assignment>)
    requires IsId(id) && Wordy(entries)
    ensures var line := Name(id) + Tail(entries);
            Sound(line) && ValueEnd(line, 0) == |Name(id)| && line[..|Name(id)|] == Name(id)
                && line[|Name(id)|..] == Tail(entries)
  {
    var line := Name(id) + Tail(entries);
    IdReadsBack(id);
    TailSound(Name(id), entries);
    WordIsSolid(Name(id));
    assert entries != [] ==> line[|Name(id)|] == ' ';
    EndIs(line, 0, |Name(id)|);
  }

  function Advanced(st: State, spec: Option<RequestSpec>): Option<State> {
    if spec.None? then None else Some(st.(spec := spec.value))
  }

  /** A named entry is taken as the row it was written from. */
  lemma {:induction false} NamedStep(st: State, id: nat, row: Row, line: string)
    requires st.banner && Named(st.section) && IsId(id) && |row| == |KeysOf(st.section)| && Keys(KeysOf(st.section))
             && Writable(row)
    requires line == NamedLine(id, KeysOf(st.section), row) && |line| <= MAX_LINE
    ensures Step(st, line) == Advanced(st, AddNamed(st.spec, st.section, id, row))
  {
    var entries := Fields(KeysOf(st.section), row);
    FieldsWordy(KeysOf(st.section), row);
    NamedParts(id, entries);
    StepSound(st, line);
    IdReadsBack(id);
    FieldsProper(KeysOf(st.section), row);
    TailReadsBack(entries);
    RowReadsBack(KeysOf(st.section), row);
  }

  /** So is a line of fields. */
  lemma {:induction false} FieldsStep(st: State, row: Row, line: string)
    requires st.banner && !Named(st.section) && st.section != Outside && |row| == |KeysOf(st.section)|
    requires Keys(KeysOf(st.section)) && Writable(row) && Fields(KeysOf(st.section), row) != []
    requires line == FieldsLine(KeysOf(st.section), row) && |line| <= MAX_LINE
    ensures var spec := SetFields(st, row);
            Step(st, line) == if spec.None? then None
                              else Some(st.(spec := spec.value, declared := st.declared
                                  || st.section == CollectiveSection))
  {
    var entries := Fields(KeysOf(st.section), row);
    FieldsWordy(KeysOf(st.section), row);
    RenderSound(entries);
    StepSound(st, line);
    FieldsProper(KeysOf(st.section), row);
    RenderedLineReadsBack(entries);
    RowReadsBack(KeysOf(st.section), row);
  }
}
