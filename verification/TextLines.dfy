/** The lines of the request text (src/dsl.cpp:245-311). */
module TextLines {
  import opened Candidates
  import opened TextFields

  const MAX_LINE: nat := 4096
  const MAX_INPUT: nat := 0x200_0000

  function WithoutReturn(raw: string): string {
    if raw != [] && raw[|raw| - 1] == '\r' then raw[..|raw| - 1] else raw
  }

  /** Where the text ends once trailing blanks are dropped, not before `begin`. */
  function TrimEnd(raw: string, begin: nat, end: nat): (r: nat)
    requires begin <= end <= |raw|
    ensures begin <= r <= end
  {
    if end > begin && IsSpace(raw[end - 1]) then TrimEnd(raw, begin, end - 1) else end
  }

  /** A line without its carriage return and without surrounding blanks. */
  function Trimmed(raw: string): string {
    var line := WithoutReturn(raw);
    var begin := SkipBlanks(line, 0);
    line[begin..TrimEnd(line, begin, |line|)]
  }

  predicate Ignored(line: string) {
    line == [] || line[0] == '#'
  }

  /** A line that trimming leaves alone and that is not a comment. */
  predicate Tidy(line: string) {
    && line != [] && !IsSpace(line[0]) && line[0] != '#' && Free(line, '\n')
    && !IsSpace(line[|line| - 1]) && line[|line| - 1] != '\r'
  }

  lemma {:induction false} TidyStays(line: string)
    requires Tidy(line)
    ensures Trimmed(line) == line && !Ignored(line)
  {
    assert line[0..|line|] == line;
  }

  method TrimLine(raw: string) returns (line: string)
    ensures line == Trimmed(raw)
  {
    var text := raw;
    if raw != [] && raw[|raw| - 1] == '\r' {
      text := raw[..|raw| - 1];
    }
    var begin := 0;
    while begin < |text| && IsSpace(text[begin])
      invariant begin <= |text| && SkipBlanks(text, begin) == SkipBlanks(text, 0)
    {
      begin := begin + 1;
    }
    var end := |text|;
    while end > begin && IsSpace(text[end - 1])
      invariant begin <= end <= |text| && TrimEnd(text, begin, end) == TrimEnd(text, begin, |text|)
    {
      end := end - 1;
    }
    line := text[begin..end];
  }

  // ----- lines written one after the other -----

  /** Every line followed by a newline. */
  function Unlines(lines: seq<string>): string {
    if lines == [] then [] else lines[0] + ['\n'] + Unlines(lines[1..])
  }

  lemma {:induction false} UnlinesIsJoin(lines: seq<string>)
    ensures Unlines(lines) == Join(lines + [[]], '\n')
    decreases |lines|
  {
    if lines != [] {
      UnlinesIsJoin(lines[1..]);
      assert (lines + [[]])[1..] == lines[1..] + [[]];
    }
  }

  /** The reader sees the written lines and an empty one after the last newline. */
  lemma {:induction false} LinesReadBack(lines: seq<string>)
    requires ItemsFree(lines, '\n')
    ensures Split(Unlines(lines), '\n') == lines + [[]]
  {
    UnlinesIsJoin(lines);
    SplitJoined(lines + [[]], '\n');
  }

  lemma {:induction false} UnlinesConcat(a: seq<string>, b: seq<string>)
    ensures Unlines(a + b) == Unlines(a) + Unlines(b)
    decreases |a|
  {
    if a == [] {
      assert a + b == b;
    } else {
      UnlinesConcat(a[1..], b);
      assert (a + b)[1..] == a[1..] + b;
    }
  }
}
