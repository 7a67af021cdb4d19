/** The case list that discovery prints, and how the host reads it back. */
module Discovery {
  import opened Protocol
  import opened Framing
  import opened CaseOrder
  import opened DeviceRun
  import opened Supervisor
  import opened TextTools

  const PREFIX: Str := "list-case:"
  const LINE_MAX := 255

  /** One printed line, cut to the 256-byte line buffer. */
  function ListLine(id: Ident): Str {
    Cut(PREFIX + Triple(id), LINE_MAX)
  }

  function Printed(ids: seq<Ident>): Str {
    if ids == [] then "" else ListLine(ids[0]) + "\n" + Printed(ids[1..])
  }

  function StripReturn(line: Str): Str {
    if line != [] && line[|line| - 1] == '\r' then line[..|line| - 1] else line
  }

  /** A carriage return before the line's end belongs to the end, not to the line; only one does. */
  lemma StripReturnMeaning(line: Str)
    ensures StripReturn(line + "\r") == line
    ensures (forall shorter: Str :: line != shorter + "\r") ==> StripReturn(line) == line
  {
    if line != [] && line[|line| - 1] == '\r' {
      assert line == line[..|line| - 1] + "\r";
    }
  }

  function StripAll(lines: seq<Str>): seq<Str> {
    if lines == [] then [] else [StripReturn(lines[0])] + StripAll(lines[1..])
  }

  /** The lines of a text, without their ends; an unterminated last line counts unless it is empty. */
  function Lines(text: Str): seq<Str> {
    var residue := Residue<Char8>('\n', [], text);
    StripAll(Pieces<Char8>('\n', [], text)) + (if residue == [] then [] else [residue])
  }

  /** The three dot-separated parts; the name keeps its dots. */
  function SplitCase(text: Str): Option<TestCase> {
    var first := SplitOnce('.', text);
    if first.None? then None else
    var second := SplitOnce('.', first.value.1);
    if second.None? then None else Some(TestCase(first.value.0, second.value.0, second.value.1))
  }

  /** Nothing for a line without the prefix; a line with it must hold a case. */
  function ParseLine(line: Str): Result<Option<TestCase>, Str> {
    if !(PREFIX <= line) then Ok(None)
    else
      var c := SplitCase(TrimEnd(TrimStart(line[|PREFIX|..])));
      if c.None? then Err(line) else Ok(c)
  }

  function LineCases(line: Str): Result<seq<TestCase>, Str> {
    var r := ParseLine(line);
    if r.Err? then Err(r.error) else Ok(if r.value.None? then [] else [r.value.value])
  }

  /** The host's reading of everything discovery printed. */
  method ParseDiscovery(stdout: Str) returns (r: Result<seq<TestCase>, Str>)
    ensures r == Interpret(LineCases, Lines(stdout))
  {
    var lines := Lines(stdout);
    var cases: seq<TestCase> := [];
    assert lines[..0] == [];
    for k := 0 to |lines|
      invariant Interpret(LineCases, lines[..k]) == Ok(cases)
    {
      assert lines == lines[..k] + [lines[k]] + lines[k + 1..] && lines[..k + 1] == lines[..k] + [lines[k]];
      var parsed := ParseLine(lines[k]);
      if parsed.Err? {
        InterpretStops(LineCases, lines[..k], lines[k], lines[k + 1..]);
        return Err(parsed.error);
      }
      InterpretSnoc(LineCases, lines[..k], lines[k]);
      if parsed.value.Some? {
        cases := cases + [parsed.value.value];
      } else {
        EmptyIsNeutral(cases);
      }
    }
    assert lines[..|lines|] == lines;
    r := Ok(cases);
  }

  /** Named in full, without white space, and short enough for the line buffer. */
  predicate Printable(id: Ident) {
    && id.suite.Some? && id.group.Some? && id.name.Some?
    && (forall i :: 0 <= i < |Triple(id)| ==> !IsSpace(Triple(id)[i]))
    && |PREFIX + Triple(id)| <= LINE_MAX
  }

  function CaseOf(id: Ident): TestCase {
    TestCase(OrUnknown(id.suite), OrUnknown(id.group), OrUnknown(id.name))
  }

  predicate DotFree(id: Ident) {
    '.' !in OrUnknown(id.suite) && '.' !in OrUnknown(id.group)
  }

  lemma SplitRecovered(suite: Str, group: Str, name: Str)
    ensures var c := SplitCase(suite + "." + (group + "." + name));
            c.Some? && (c.value == TestCase(suite, group, name) <==> '.' !in suite && '.' !in group)
  {
    var tail := group + "." + name;
    assert tail[|group|] == '.';
    SplitFinds('.', suite, tail);
    SplitLeaves('.', suite, tail);
    SplitFinds('.', group, name);
  }

  /** What a printed line is parsed as: its prefix and white space never get in the way. */
  lemma PrintedLine(id: Ident)
    requires Printable(id)
    ensures PREFIX <= ListLine(id) && TrimEnd(TrimStart(ListLine(id)[|PREFIX|..])) == Triple(id)
  {
  }

  /** A printed line always yields one case, and the right one exactly when suite and group have no dot. */
  lemma OneLine(id: Ident)
    requires Printable(id)
    ensures var r := LineCases(ListLine(id));
            r.Ok? && |r.value| == 1 && (r.value[0] == CaseOf(id) <==> DotFree(id))
  {
    PrintedLine(id);
    var s, g, n := OrUnknown(id.suite), OrUnknown(id.group), OrUnknown(id.name);
    assert Triple(id) == s + "." + (g + "." + n);
    SplitRecovered(s, g, n);
  }

  function Cases(ids: seq<Ident>): seq<TestCase> {
    seq(|ids|, i requires 0 <= i < |ids| => CaseOf(ids[i]))
  }

  function ListLines(ids: seq<Ident>): seq<Str> {
    seq(|ids|, i requires 0 <= i < |ids| => ListLine(ids[i]))
  }

  lemma {:induction false} PrintedPieces(ids: seq<Ident>)
    requires forall id :: id in ids ==> Printable(id)
    ensures StripAll(Pieces<Char8>('\n', [], Printed(ids))) == ListLines(ids)
    ensures Residue<Char8>('\n', [], Printed(ids)) == []
  {
    if ids == [] {
    } else {
      PrintedPieces(ids[1..]);
      assert ListLines(ids) == [ListLine(ids[0])] + ListLines(ids[1..]);
      assert ids[0] in ids && ids == [ids[0]] + ids[1..];
      NoLineEnd(ids[0]);
      PiecesOfClosed<Char8>('\n', ListLine(ids[0]), Printed(ids[1..]));
    }
  }

  lemma NoLineEnd(id: Ident)
    requires Printable(id)
    ensures '\n' !in ListLine(id) && (ListLine(id) != [] ==> ListLine(id)[|ListLine(id)| - 1] != '\r')
  {
  }

  /** Discovery output is recovered in full, in order, if and only if no suite or group name contains a dot. */
  lemma DiscoveryRecovered(ids: seq<Ident>)
    requires forall id :: id in ids ==> Printable(id)
    ensures Interpret(LineCases, Lines(Printed(ids))) == Ok(Cases(ids)) <==> forall id :: id in ids ==> DotFree(id)
  {
    PrintedPieces(ids);
    EmptyIsNeutral(ListLines(ids));
    forall i | 0 <= i < |ids|
      ensures LineCases(ListLines(ids)[i]).Ok? && |LineCases(ListLines(ids)[i]).value| == 1
      ensures LineCases(ListLines(ids)[i]).value[0] == Cases(ids)[i] <==> DotFree(ids[i])
    {
      OneLine(ids[i]);
    }
    InterpretEach(LineCases, ListLines(ids));
    SameEverywhere(ids, Interpret(LineCases, ListLines(ids)).value);
  }

  lemma SameEverywhere(ids: seq<Ident>, cases: seq<TestCase>)
    requires |cases| == |ids| && forall i :: 0 <= i < |ids| ==> (cases[i] == Cases(ids)[i] <==> DotFree(ids[i]))
    ensures cases == Cases(ids) <==> forall id :: id in ids ==> DotFree(id)
  {
  }

  ghost predicate AllSpace(s: Str) {
    forall i :: 0 <= i < |s| ==> IsSpace(s[i])
  }

  lemma {:induction false} TrimStartMeaning(s: Str) returns (before: Str)
    ensures s == before + TrimStart(s) && AllSpace(before)
    ensures TrimStart(s) != [] ==> !IsSpace(TrimStart(s)[0])
  {
    if s == [] || !IsSpace(s[0]) {
      before := [];
    } else {
      before := TrimStartMeaning(s[1..]);
      Associative([s[0]], before, TrimStart(s));
      before := [s[0]] + before;
    }
  }

  lemma {:induction false} TrimEndMeaning(s: Str) returns (after: Str)
    ensures s == TrimEnd(s) + after && AllSpace(after)
    ensures TrimEnd(s) != [] ==> !IsSpace(TrimEnd(s)[|TrimEnd(s)| - 1])
  {
    if s == [] || !IsSpace(s[|s| - 1]) {
      after := [];
    } else {
      after := TrimEndMeaning(s[..|s| - 1]);
      Associative(TrimEnd(s), after, [s[|s| - 1]]);
      after := after + [s[|s| - 1]];
    }
  }

  function Trimmed(s: Str): Str {
    TrimEnd(TrimStart(s))
  }

  /** Trimming takes exactly the white space off both ends. */
  lemma TrimMeaning(s: Str) returns (before: Str, after: Str)
    ensures s == before + Trimmed(s) + after && AllSpace(before) && AllSpace(after)
    ensures Trimmed(s) != [] ==> !IsSpace(Trimmed(s)[0]) && !IsSpace(Trimmed(s)[|Trimmed(s)| - 1])
  {
    before := TrimStartMeaning(s);
    after := TrimEndMeaning(TrimStart(s));
    Associative(before, Trimmed(s), after);
    if Trimmed(s) != [] {
      assert TrimStart(s)[0] == Trimmed(s)[0];
    }
  }

  /** The two dots of a case: the first two of its text. */
  ghost predicate IsCase(text: Str, c: TestCase) {
    text == c.suite + ['.'] + (c.group + ['.'] + c.name) && '.' !in c.suite && '.' !in c.group
  }

  ghost predicate TwoDots(text: Str) {
    exists i, j :: 0 <= i < j < |text| && text[i] == '.' && text[j] == '.'
  }

  lemma SplitOnceMeaning(d: Char8, text: Str)
    ensures SplitOnce(d, text).None? <==> d !in text
    ensures SplitOnce(d, text).Some? ==>
              var parts := SplitOnce(d, text).value; text == parts.0 + [d] + parts.1 && d !in parts.0
  {
  }

  lemma NotBefore(head: Str, tail: Str, k: nat)
    requires '.' !in head && k < |head + ['.'] + tail| && (head + ['.'] + tail)[k] == '.'
    ensures k >= |head|
  {
  }

  lemma SplitFound(text: Str)
    requires SplitCase(text).Some?
    ensures IsCase(text, SplitCase(text).value)
  {
    SplitOnceMeaning('.', text);
    SplitOnceMeaning('.', SplitOnce('.', text).value.1);
  }

  lemma CaseIsSplit(text: Str, c: TestCase)
    requires IsCase(text, c)
    ensures SplitCase(text) == Some(c) && TwoDots(text)
  {
    var tail := c.group + ['.'] + c.name;
    SplitFinds('.', c.suite, tail);
    SplitFinds('.', c.group, c.name);
    assert tail[|c.group|] == '.' && text[|c.suite|] == '.' && text[|c.suite| + 1 + |c.group|] == '.';
  }

  lemma DotsSplit(text: Str, i: nat, j: nat)
    requires i < j < |text| && text[i] == '.' && text[j] == '.'
    ensures SplitCase(text).Some?
  {
    SplitOnceMeaning('.', text);
    var parts := SplitOnce('.', text).value;
    NotBefore(parts.0, parts.1, i);
    assert parts.1[j - |parts.0| - 1] == text[j];
    SplitOnceMeaning('.', parts.1);
  }

  /** The split finds the parts before, between and behind the first two dots, and fails without two dots. */
  lemma SplitMeaning(text: Str)
    ensures forall c :: SplitCase(text) == Some(c) <==> IsCase(text, c)
    ensures SplitCase(text).Some? <==> TwoDots(text)
  {
    if SplitCase(text).Some? {
      SplitFound(text);
    }
    forall c | IsCase(text, c) ensures SplitCase(text) == Some(c) && TwoDots(text) {
      CaseIsSplit(text, c);
    }
    if i, j :| 0 <= i < j < |text| && text[i] == '.' && text[j] == '.' {
      DotsSplit(text, i, j);
    }
  }

  /** A line of discovery output. */
  predicate Prefixed(line: Str) {
    "list-case:" <= line
  }

  function RestOf(line: Str): Str
    requires Prefixed(line)
  {
    Trimmed(line[10..])
  }

  /** A line without the prefix is skipped; one with it is a case if and only if its trimmed rest has two dots, and
      an error otherwise. */
  lemma LineMeaning(line: Str)
    ensures !Prefixed(line) ==> LineCases(line) == Ok([])
    ensures Prefixed(line) && !TwoDots(RestOf(line)) ==> LineCases(line) == Err(line)
    ensures Prefixed(line) && TwoDots(RestOf(line)) ==> exists c :: LineCases(line) == Ok([c]) && IsCase(RestOf(line), c)
  {
    if Prefixed(line) {
      SplitMeaning(RestOf(line));
    }
  }

  /** The cases of these lines, in order. */
  ghost predicate CasesOf(lines: seq<Str>, cases: seq<TestCase>) {
    if lines == [] then cases == []
    else if !Prefixed(lines[0]) then CasesOf(lines[1..], cases)
    else cases != [] && IsCase(RestOf(lines[0]), cases[0]) && CasesOf(lines[1..], cases[1..])
  }

  ghost predicate WellFormed(lines: seq<Str>) {
    forall i :: 0 <= i < |lines| && Prefixed(lines[i]) ==> TwoDots(RestOf(lines[i]))
  }

  /** Arbitrary lines are read if and only if every prefixed one is well-formed, and then as their cases in order. */
  lemma {:induction false} LinesMeaning(lines: seq<Str>)
    ensures Interpret(LineCases, lines).Ok? <==> WellFormed(lines)
    ensures WellFormed(lines) ==> CasesOf(lines, Interpret(LineCases, lines).value)
  {
    if lines == [] {
    } else {
      var rest := lines[1..];
      LineMeaning(lines[0]);
      LinesMeaning(rest);
      assert lines == [lines[0]] + rest;
      InterpretCons(LineCases, lines[0], rest);
      WellFormedCons(lines);
      if Prefixed(lines[0]) && WellFormed(lines) {
        var c :| LineCases(lines[0]) == Ok([c]) && IsCase(RestOf(lines[0]), c);
        assert ([c] + Interpret(LineCases, rest).value)[1..] == Interpret(LineCases, rest).value;
      } else if WellFormed(lines) {
        PrependLaws([], [], Interpret(LineCases, rest));
      }
    }
  }

  lemma WellFormedCons(lines: seq<Str>)
    requires lines != []
    ensures WellFormed(lines) <==> (Prefixed(lines[0]) ==> TwoDots(RestOf(lines[0]))) && WellFormed(lines[1..])
  {
    assert forall i :: 0 <= i < |lines| - 1 ==> lines[1..][i] == lines[i + 1];
  }

  /** A text made of these lines and an unterminated rest. */
  function TextOf(lines: seq<Str>, last: Str): Str {
    if lines == [] then last else lines[0] + ['\n'] + TextOf(lines[1..], last)
  }

  lemma {:induction false} LinesOfText(lines: seq<Str>, last: Str)
    requires '\n' !in last && forall line :: line in lines ==> '\n' !in line
    ensures StripAll(Pieces<Char8>('\n', [], TextOf(lines, last))) == StripAll(lines)
    ensures Residue<Char8>('\n', [], TextOf(lines, last)) == last
  {
    if lines == [] {
      PiecesOfOpen<Char8>('\n', [], last);
      EmptyIsNeutral(last);
    } else {
      assert lines == [lines[0]] + lines[1..] && lines[0] in lines;
      LinesOfText(lines[1..], last);
      PiecesOfClosed<Char8>('\n', lines[0], TextOf(lines[1..], last));
      assert ([lines[0]] + Pieces<Char8>('\n', [], TextOf(lines[1..], last)))[1..]
          == Pieces<Char8>('\n', [], TextOf(lines[1..], last));
    }
  }

  function ReadLines(lines: seq<Str>, last: Str): seq<Str> {
    StripAll(lines) + if last == [] then [] else [last]
  }

  /** Any text: its lines lose one carriage return each, the unterminated last one none, and it is read if and only
      if every prefixed line has two dots, as the cases of the prefixed lines in order. */
  lemma TextMeaning(lines: seq<Str>, last: Str)
    requires '\n' !in last && forall line :: line in lines ==> '\n' !in line
    ensures var r := Interpret(LineCases, Lines(TextOf(lines, last)));
            && (r.Ok? <==> WellFormed(ReadLines(lines, last)))
            && (r.Ok? ==> CasesOf(ReadLines(lines, last), r.value))
  {
    LinesOfText(lines, last);
    LinesMeaning(ReadLines(lines, last));
  }

  /** A line without the prefix can be put in or left out anywhere. */
  lemma OtherLinesAreSkipped(before: seq<Str>, noise: Str, after: seq<Str>)
    requires !Prefixed(noise)
    ensures Interpret(LineCases, before + [noise] + after) == Interpret(LineCases, before + after)
  {
    LineMeaning(noise);
    Associative(before, [noise], after);
    InterpretConcat(LineCases, before, [noise] + after);
    InterpretConcat(LineCases, before, after);
    InterpretCons(LineCases, noise, after);
    PrependLaws([], [], Interpret(LineCases, after));
  }
}
