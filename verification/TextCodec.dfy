/** The host's line codec. */
module TextCodec {
  import opened Protocol
  import opened Framing
  import opened TextTools

  /** The kinds of line, by the word they begin with. */
  datatype Tag = SuiteStartTag | CaseStartTag | SuiteEndTag | DoneTag | PassTag | SkipTag | FailTag | LogTag

  function Word(tag: Tag): Str {
    match tag
    case SuiteStartTag => "SUITE_START "
    case CaseStartTag => "CASE_START "
    case SuiteEndTag => "SUITE_END "
    case DoneTag => "DONE "
    case PassTag => "PASS "
    case SkipTag => "SKIP "
    case FailTag => "FAIL "
    case LogTag => "LOG "
  }

  const PASSED: Str := "passed="
  const FAILED: Str := "failed="
  const SKIPPED: Str := "skipped="

  function StatusTag(status: TestStatus): Tag {
    match status
    case Passed => PassTag
    case Failed => FailTag
    case Skipped => SkipTag
  }

  function CountWords(p: u32, f: u32, s: u32): Str {
    PASSED + Decimal(p) + " " + (FAILED + Decimal(f) + " " + (SKIPPED + Decimal(s)))
  }

  function TagOf(e: Event): Tag {
    match e
    case SuiteStart(_) => SuiteStartTag
    case CaseStart(_, _) => CaseStartTag
    case AssertFail(_, _, _, _, _) => FailTag
    case CaseEnd(_, _, status) => StatusTag(status)
    case SuiteEnd(_, _, _, _) => SuiteEndTag
    case Log(_) => LogTag
    case Done(_, _, _) => DoneTag
  }

  function Place(file: Str, line: u32): Str {
    file + ":" + Decimal(line)
  }

  function BodyOf(e: Event): Str {
    match e
    case SuiteStart(name) => name
    case CaseStart(suite, name) => suite + "." + name
    case AssertFail(suite, name, file, line, message) =>
      (suite + "." + name) + " " + (Place(file, line) + " " + message)
    case CaseEnd(suite, name, _) => suite + "." + name
    case SuiteEnd(name, p, f, s) => name + " " + CountWords(p, f, s)
    case Log(message) => message
    case Done(p, f, s) => CountWords(p, f, s)
  }

  /** An event's line, without its end. */
  function TextLine(e: Event): Str {
    Word(TagOf(e)) + BodyOf(e)
  }

  /** The last value given for each counter; anything unreadable counts as zero. */
  function ReadCounts(tokens: seq<Str>, p: u32, f: u32, s: u32): (u32, u32, u32) {
    if tokens == [] then (p, f, s)
    else
      var t, rest := tokens[0], tokens[1..];
      if PASSED <= t then ReadCounts(rest, ParseU32(t[|PASSED|..]), f, s)
      else if FAILED <= t then ReadCounts(rest, p, ParseU32(t[|FAILED|..]), s)
      else if SKIPPED <= t then ReadCounts(rest, p, f, ParseU32(t[|SKIPPED|..]))
      else ReadCounts(rest, p, f, s)
  }

  function ParseEnd(rest: Str, status: TestStatus): Option<Event> {
    var id := SplitOnce('.', rest);
    if id.None? then None else Some(CaseEnd(id.value.0, id.value.1, status))
  }

  /** A failed case, or a failed assertion when a place follows the name. */
  function ParseFail(rest: Str): Option<Event> {
    var first := SplitOnce(' ', rest);
    if first.None? then ParseEnd(rest, Failed)
    else
      var id := SplitOnce('.', first.value.0);
      if id.None? then None
      else
        var place := SplitOnce(' ', first.value.1);
        var file := if place.None? then first.value.1 else place.value.0;
        var message := if place.None? then "" else place.value.1;
        Some(AssertFail(id.value.0, id.value.1, file, 0, message))
  }

  function ParseCaseStart(rest: Str): Option<Event> {
    var id := SplitOnce('.', rest);
    if id.None? then None else Some(CaseStart(id.value.0, id.value.1))
  }

  function ParseSuiteEnd(rest: Str): Option<Event> {
    var parts := Words(rest);
    if parts == [] then None
    else var c := ReadCounts(parts[1..], 0, 0, 0); Some(SuiteEnd(parts[0], c.0, c.1, c.2))
  }

  function ParseDone(rest: Str): Option<Event> {
    var c := ReadCounts(Words(rest), 0, 0, 0);
    Some(Done(c.0, c.1, c.2))
  }

  /** The first tag, in the order they are tried, that a line begins with; log lines have no reading. */
  function SeenTag(line: Str): Option<Tag> {
    if line == "" || "===" <= line then None
    else if Word(SuiteStartTag) <= line then Some(SuiteStartTag)
    else if Word(CaseStartTag) <= line then Some(CaseStartTag)
    else if Word(SuiteEndTag) <= line then Some(SuiteEndTag)
    else if Word(DoneTag) <= line then Some(DoneTag)
    else if Word(PassTag) <= line then Some(PassTag)
    else if Word(SkipTag) <= line then Some(SkipTag)
    else if Word(FailTag) <= line then Some(FailTag)
    else None
  }

  function ParseBody(tag: Tag, rest: Str): Option<Event> {
    match tag
    case SuiteStartTag => Some(SuiteStart(rest))
    case CaseStartTag => ParseCaseStart(rest)
    case SuiteEndTag => ParseSuiteEnd(rest)
    case DoneTag => ParseDone(rest)
    case PassTag => ParseEnd(rest, Passed)
    case SkipTag => ParseEnd(rest, Skipped)
    case FailTag => ParseFail(rest)
    case LogTag => None
  }

  function ParseTextLine(line: Str): Option<Event> {
    var tag := SeenTag(line);
    if tag.None? || |Word(tag.value)| > |line| then None
    else ParseBody(tag.value, line[|Word(tag.value)|..])
  }

  function StripReturns(s: Str): Str {
    if s != [] && s[|s| - 1] == '\r' then StripReturns(s[..|s| - 1]) else s
  }

  /** One received line: never an error, at most one event. */
  function LineEvents(line: Str): Result<seq<Event>, CodecError> {
    var e := ParseTextLine(StripReturns(line));
    Ok(if e.None? then [] else [e.value])
  }

  /** All the events of a complete text. */
  function TextEvents(text: Str): Result<seq<Event>, CodecError> {
    Interpret(LineEvents, Pieces<Char8>('\n', [], text))
  }

  class TextCodec {
    var buf: Str

    constructor ()
      ensures buf == []
    {
      buf := [];
    }

    method Encode(e: Event) returns (text: Str)
      ensures text == TextLine(e) + "\n"
      ensures Plain(e) ==> TextEvents(text) == Ok([TextCarried(e)])
    {
      text := TextLine(e) + "\n";
      if Plain(e) {
        LineAlone(e);
      }
    }

    /** One line behind the ones already read. */
    method DecodeLine(line: Str, ghost done: seq<Str>, ghost out: seq<Event>) returns (events: seq<Event>)
      requires Interpret(LineEvents, done) == Ok(out)
      ensures Interpret(LineEvents, done + [line]) == Ok(out + events)
    {
      var e := ParseTextLine(StripReturns(line));
      events := if e.None? then [] else [e.value];
      InterpretSnoc<Char8, Event, CodecError>(LineEvents, done, line);
    }

    /** Splits off and parses every complete line. */
    method DecodeFeed(data: Str) returns (out: seq<Event>)
      modifies this
      ensures TextEvents(old(buf) + data) == Ok(out)
      ensures buf == Residue<Char8>('\n', [], old(buf) + data)
    {
      buf := buf + data;
      ghost var lines: seq<Str> := Pieces<Char8>('\n', [], buf);
      ghost var done: seq<Str> := [];
      out := [];
      while '\n' in buf
        invariant lines == done + Pieces<Char8>('\n', [], buf)
        invariant Residue<Char8>('\n', [], buf) == Residue<Char8>('\n', [], old(buf) + data)
        invariant Interpret(LineEvents, done) == Ok(out)
        decreases |buf|
      {
        var pos := FirstIndex<Char8>('\n', buf);
        var line: Str := buf[..pos];
        FirstPiece<Char8>('\n', buf);
        buf := buf[pos + 1..];
        Associative(done, [line], Pieces<Char8>('\n', [], buf));
        var events := DecodeLine(line, done, out);
        done := done + [line];
        out := out + events;
      }
      PiecesOfOpen<Char8>('\n', [], buf);
      EmptyIsNeutral(buf);
      EmptyIsNeutral(done);
    }
  }

  /** Free of line ends. */
  predicate OneLine(s: Str) {
    '\n' !in s && '\r' !in s
  }

  /** Identifier-like names and one-line messages; log lines have no reading on the host. */
  predicate Plain(e: Event) {
    match e
    case SuiteStart(name) => IsWord(name)
    case CaseStart(suite, name) => IsWord(suite) && IsWord(name) && '.' !in suite
    case AssertFail(suite, name, file, _, message) =>
      IsWord(suite) && IsWord(name) && '.' !in suite && IsWord(file) && OneLine(message)
    case CaseEnd(suite, name, _) => IsWord(suite) && IsWord(name) && '.' !in suite
    case SuiteEnd(name, _, _, _) => IsWord(name)
    case Log(_) => false
    case Done(_, _, _) => true
  }

  /** What survives the text form: the place of a failure becomes one string, its line number is lost. */
  function TextCarried(e: Event): Event {
    match e
    case AssertFail(suite, name, file, line, message) =>
      AssertFail(suite, name, Place(file, line), 0, message)
    case _ => e
  }

  lemma WordFacts(w: Str)
    requires IsWord(w)
    ensures OneLine(w) && ' ' !in w
  {
  }

  lemma TokenCounts(tag: Str, n: u32)
    requires tag == PASSED || tag == FAILED || tag == SKIPPED
    ensures IsWord(tag + Decimal(n)) && tag <= tag + Decimal(n)
    ensures ParseU32((tag + Decimal(n))[|tag|..]) == n
  {
    DecimalRoundTrip(n);
    WordConcat(tag, Decimal(n));
    assert (tag + Decimal(n))[|tag|..] == Decimal(n);
    ParseDecimal(n);
  }

  lemma CountTokens(p: u32, f: u32, s: u32)
    ensures Words(CountWords(p, f, s)) == [PASSED + Decimal(p), FAILED + Decimal(f), SKIPPED + Decimal(s)]
  {
    TokenCounts(PASSED, p);
    TokenCounts(FAILED, f);
    TokenCounts(SKIPPED, s);
    WordInFront(PASSED + Decimal(p), FAILED + Decimal(f) + " " + (SKIPPED + Decimal(s)));
    WordInFront(FAILED + Decimal(f), SKIPPED + Decimal(s));
    WordInFront(SKIPPED + Decimal(s), []);
  }

  lemma CountsRead(p: u32, f: u32, s: u32)
    ensures ReadCounts(Words(CountWords(p, f, s)), 0, 0, 0) == (p, f, s)
  {
    var tp, tf, ts := PASSED + Decimal(p), FAILED + Decimal(f), SKIPPED + Decimal(s);
    CountTokens(p, f, s);
    TokenCounts(PASSED, p);
    TokenCounts(FAILED, f);
    TokenCounts(SKIPPED, s);
    assert tf[0] == 'f' && ts[0] == 's';
    var none: seq<Str> := [];
    assert [tp, tf, ts][1..] == [tf, ts] && [tf, ts][1..] == [ts] && [ts][1..] == none;
    assert ReadCounts([ts], p, f, 0) == (p, f, s);
    assert ReadCounts([tf, ts], p, 0, 0) == (p, f, s);
  }

  lemma IdSplits(suite: Str, name: Str)
    requires IsWord(suite) && IsWord(name) && '.' !in suite
    ensures SplitOnce('.', suite + "." + name) == Some((suite, name))
    ensures IsWord(suite + "." + name)
  {
    SplitFinds('.', suite, name);
    WordConcat(suite, ".");
    WordConcat(suite + ".", name);
  }

  lemma FailParses(suite: Str, name: Str, place: Str, message: Str)
    requires IsWord(suite) && IsWord(name) && '.' !in suite && IsWord(place)
    ensures ParseFail((suite + "." + name) + " " + (place + " " + message)) ==
            Some(AssertFail(suite, name, place, 0, message))
  {
    IdSplits(suite, name);
    WordFacts(suite + "." + name);
    WordFacts(place);
    SplitFinds(' ', suite + "." + name, place + " " + message);
    SplitFinds(' ', place, message);
  }

  lemma EndParses(suite: Str, name: Str, status: TestStatus)
    requires IsWord(suite) && IsWord(name) && '.' !in suite
    ensures ParseBody(StatusTag(status), suite + "." + name) == Some(CaseEnd(suite, name, status))
  {
    IdSplits(suite, name);
    WordFacts(suite + "." + name);
  }

  lemma PlaceIsWord(file: Str, line: u32)
    requires IsWord(file)
    ensures IsWord(Place(file, line))
  {
    DecimalRoundTrip(line);
    WordConcat(file, ":");
    WordConcat(file + ":", Decimal(line));
  }

  /** A tagged line is recognised by its own tag only. */
  lemma TagIsSeen(tag: Tag, rest: Str)
    requires tag != LogTag
    ensures SeenTag(Word(tag) + rest) == Some(tag)
  {
    var line := Word(tag) + rest;
    assert line[0] == Word(tag)[0] && line[1] == Word(tag)[1];
    if |Word(tag)| > 6 {
      assert line[6] == Word(tag)[6];
    }
    assert Word(tag) <= line;
    assert Word(SuiteStartTag)[6] == 'S' && Word(SuiteEndTag)[6] == 'E';
  }

  lemma SuiteEndParses(name: Str, p: u32, f: u32, s: u32)
    requires IsWord(name)
    ensures ParseSuiteEnd(name + " " + CountWords(p, f, s)) == Some(SuiteEnd(name, p, f, s))
  {
    WordInFront(name, CountWords(p, f, s));
    CountsRead(p, f, s);
    assert ([name] + Words(CountWords(p, f, s)))[1..] == Words(CountWords(p, f, s));
  }

  ghost predicate BodyReadBack(e: Event) {
    ParseBody(TagOf(e), BodyOf(e)) == Some(TextCarried(e))
  }

  lemma IsReadBack(e: Event, tag: Tag, rest: Str, out: Event)
    requires tag == TagOf(e) && rest == BodyOf(e) && out == TextCarried(e)
    requires ParseBody(tag, rest) == Some(out)
    ensures BodyReadBack(e)
  {
  }

  lemma CaseStartReadBack(e: Event)
    requires Plain(e) && e.CaseStart?
    ensures BodyReadBack(e)
  {
    IdSplits(e.suite, e.name);
  }

  lemma CaseEndReadBack(e: Event)
    requires Plain(e) && e.CaseEnd?
    ensures BodyReadBack(e)
  {
    EndParses(e.suite, e.name, e.status);
  }

  lemma FailShape(e: Event)
    requires e.AssertFail?
    ensures TagOf(e) == FailTag
    ensures BodyOf(e) == (e.suite + "." + e.name) + " " + (Place(e.file, e.line) + " " + e.message)
    ensures TextCarried(e) == AssertFail(e.suite, e.name, Place(e.file, e.line), 0, e.message)
  {
  }

  lemma FailIsRead(tag: Tag, rest: Str, read: Option<Event>)
    requires tag.FailTag? && ParseFail(rest) == read
    ensures ParseBody(tag, rest) == read
  {
  }

  lemma FailReadBack(e: Event)
    requires Plain(e) && e.AssertFail?
    ensures BodyReadBack(e)
  {
    PlaceIsWord(e.file, e.line);
    FailShape(e);
    var rest := (e.suite + "." + e.name) + " " + (Place(e.file, e.line) + " " + e.message);
    FailParses(e.suite, e.name, Place(e.file, e.line), e.message);
    FailIsRead(FailTag, rest, Some(AssertFail(e.suite, e.name, Place(e.file, e.line), 0, e.message)));
    IsReadBack(e, FailTag, rest, TextCarried(e));
  }

  lemma CountsReadBack(e: Event)
    requires Plain(e) && (e.SuiteEnd? || e.Done?)
    ensures BodyReadBack(e)
  {
    if e.SuiteEnd? {
      SuiteEndParses(e.name, e.passed, e.failed, e.skipped);
    } else {
      CountsRead(e.passed, e.failed, e.skipped);
    }
  }

  lemma BodyRoundTrip(e: Event)
    requires Plain(e)
    ensures BodyReadBack(e)
  {
    if e.CaseStart? {
      CaseStartReadBack(e);
    } else if e.CaseEnd? {
      CaseEndReadBack(e);
    } else if e.AssertFail? {
      FailReadBack(e);
    } else if !e.SuiteStart? {
      CountsReadBack(e);
    }
  }

  lemma TaggedParses(tag: Tag, rest: Str, read: Event)
    requires tag != LogTag && ParseBody(tag, rest) == Some(read)
    ensures ParseTextLine(Word(tag) + rest) == Some(read)
  {
    TagIsSeen(tag, rest);
    assert (Word(tag) + rest)[|Word(tag)|..] == rest;
  }

  /** Every plain event's line is parsed back to it, up to the place of a failure. */
  lemma LineRoundTrip(e: Event)
    requires Plain(e)
    ensures ParseTextLine(TextLine(e)) == Some(TextCarried(e))
  {
    BodyRoundTrip(e);
    TaggedParses(TagOf(e), BodyOf(e), TextCarried(e));
  }

  lemma OneLineConcat(a: Str, b: Str)
    requires OneLine(a) && OneLine(b)
    ensures OneLine(a + b)
  {
  }

  lemma CountsAreOneLine(p: u32, f: u32, s: u32)
    ensures OneLine(CountWords(p, f, s))
  {
    TokenCounts(PASSED, p);
    TokenCounts(FAILED, f);
    TokenCounts(SKIPPED, s);
    WordFacts(PASSED + Decimal(p));
    WordFacts(FAILED + Decimal(f));
    WordFacts(SKIPPED + Decimal(s));
    OneLineConcat(PASSED + Decimal(p), " ");
    OneLineConcat(FAILED + Decimal(f), " ");
    OneLineConcat(FAILED + Decimal(f) + " ", SKIPPED + Decimal(s));
    OneLineConcat(PASSED + Decimal(p) + " ", FAILED + Decimal(f) + " " + (SKIPPED + Decimal(s)));
  }

  lemma IdIsOneLine(suite: Str, name: Str)
    requires IsWord(suite) && IsWord(name) && '.' !in suite
    ensures OneLine(suite + "." + name)
  {
  }

  lemma FailIsOneLine(id: Str, place: Str, message: Str)
    requires OneLine(id) && IsWord(place) && OneLine(message)
    ensures OneLine(id + " " + (place + " " + message))
  {
  }

  lemma SuiteEndIsOneLine(name: Str, p: u32, f: u32, s: u32)
    requires IsWord(name)
    ensures OneLine(name + " " + CountWords(p, f, s))
  {
    CountsAreOneLine(p, f, s);
    WordFacts(name);
    OneLineConcat(name, " ");
    OneLineConcat(name + " ", CountWords(p, f, s));
  }

  lemma BodyIsOneLine(e: Event)
    requires Plain(e)
    ensures OneLine(BodyOf(e))
  {
    match e
    case SuiteStart(name) => WordFacts(name);
    case CaseStart(suite, name) => IdIsOneLine(suite, name);
    case AssertFail(suite, name, file, line, message) =>
      IdIsOneLine(suite, name);
      PlaceIsWord(file, line);
      FailIsOneLine(suite + "." + name, Place(file, line), message);
    case CaseEnd(suite, name, _) => IdIsOneLine(suite, name);
    case SuiteEnd(name, p, f, s) => SuiteEndIsOneLine(name, p, f, s);
    case Done(p, f, s) => CountsAreOneLine(p, f, s);
  }

  /** A plain event takes one line of the stream, and no carriage return is stripped from it. */
  lemma ReceivedLine(line: Str)
    requires OneLine(line)
    ensures LineEvents(line) == Ok(if ParseTextLine(line).None? then [] else [ParseTextLine(line).value])
  {
  }

  lemma OneEvent(line: Str, read: Event)
    requires OneLine(line) && ParseTextLine(line) == Some(read)
    ensures '\n' !in line && LineEvents(line) == Ok([read])
  {
  }

  /** A tagged line with a body on one line. */
  lemma TaggedLine(tag: Tag, rest: Str, read: Event)
    requires tag != LogTag && OneLine(rest) && ParseBody(tag, rest) == Some(read)
    ensures '\n' !in Word(tag) + rest && LineEvents(Word(tag) + rest) == Ok([read])
  {
    OneLineConcat(Word(tag), rest);
    TaggedParses(tag, rest, read);
    OneEvent(Word(tag) + rest, read);
  }

  function FailText(suite: Str, name: Str, place: Str, message: Str): Str {
    Word(FailTag) + (suite + "." + name + " " + (place + " " + message))
  }

  /** A failed assertion is read back whatever word its place is. */
  lemma FailLine(suite: Str, name: Str, place: Str, message: Str)
    requires IsWord(suite) && IsWord(name) && '.' !in suite && IsWord(place) && OneLine(message)
    ensures '\n' !in FailText(suite, name, place, message)
    ensures LineEvents(FailText(suite, name, place, message)) == Ok([AssertFail(suite, name, place, 0, message)])
  {
    var rest := suite + "." + name + " " + (place + " " + message);
    IdIsOneLine(suite, name);
    FailIsOneLine(suite + "." + name, place, message);
    FailParses(suite, name, place, message);
    FailIsRead(FailTag, rest, Some(AssertFail(suite, name, place, 0, message)));
    TaggedLine(FailTag, rest, AssertFail(suite, name, place, 0, message));
  }

  lemma PlainLine(e: Event)
    requires Plain(e)
    ensures '\n' !in TextLine(e) && LineEvents(TextLine(e)) == Ok([TextCarried(e)])
  {
    BodyIsOneLine(e);
    OneLineConcat(Word(TagOf(e)), BodyOf(e));
    LineRoundTrip(e);
    OneEvent(TextLine(e), TextCarried(e));
  }

  function TextAll(events: seq<Event>): Str {
    if events == [] then [] else TextLine(events[0]) + ['\n'] + TextAll(events[1..])
  }

  function TextCarriedAll(events: seq<Event>): seq<Event> {
    seq(|events|, i requires 0 <= i < |events| => TextCarried(events[i]))
  }

  /** One line in front of a text contributes exactly its own reading. */
  lemma LineInFront(line: Str, out: seq<Event>, rest: Str)
    requires '\n' !in line && LineEvents(line) == Ok(out)
    ensures TextEvents(line + ['\n'] + rest) == Prepend(out, TextEvents(rest))
    ensures Residue<Char8>('\n', [], line + ['\n'] + rest) == Residue<Char8>('\n', [], rest)
  {
    PiecesOfClosed<Char8>('\n', line, rest);
    InterpretCons<Char8, Event, CodecError>(LineEvents, line, Pieces<Char8>('\n', [], rest));
  }

  lemma LineAlone(e: Event)
    requires Plain(e)
    ensures TextEvents(TextLine(e) + "\n") == Ok([TextCarried(e)])
  {
    PlainLine(e);
    LineInFront(TextLine(e), [TextCarried(e)], []);
    EmptyIsNeutral(TextLine(e) + ['\n']);
    EmptyIsNeutral([TextCarried(e)]);
  }

  lemma TextCarriedCons(e: Event, rest: seq<Event>)
    ensures TextCarriedAll([e] + rest) == [TextCarried(e)] + TextCarriedAll(rest)
  {
  }

  lemma {:induction false} EncodedText(events: seq<Event>)
    requires forall e :: e in events ==> Plain(e)
    ensures TextEvents(TextAll(events)) == Ok(TextCarriedAll(events))
    ensures Residue<Char8>('\n', [], TextAll(events)) == []
  {
    if events == [] {
      assert TextCarriedAll(events) == [];
    } else {
      var e, later := events[0], events[1..];
      assert e in events && events == [e] + later;
      EncodedText(later);
      PlainLine(e);
      LineInFront(TextLine(e), [TextCarried(e)], TextAll(later));
      TextCarriedCons(e, later);
    }
  }

  /** Any list of plain events, printed and fed in any chunks, comes back in order up to the place of a failure. */
  lemma TextStreamRoundTrip(events: seq<Event>, chunks: seq<Str>)
    requires forall e :: e in events ==> Plain(e)
    requires Flatten(chunks) == TextAll(events)
    ensures Fed<Char8, Event, CodecError>('\n', LineEvents, [], chunks) == Ok(TextCarriedAll(events))
    ensures Residue<Char8>('\n', [], Flatten(chunks)) == []
  {
    EncodedText(events);
    ChunkingIsInvisible<Char8, Event, CodecError>('\n', LineEvents, [], chunks);
  }

  /** A line is of a kind if and only if it begins with that kind's word; log lines are of none. */
  lemma SeenTagMeaning(line: Str)
    ensures SeenTag(line) == Some(SuiteStartTag) <==> "SUITE_START " <= line
    ensures SeenTag(line) == Some(CaseStartTag) <==> "CASE_START " <= line
    ensures SeenTag(line) == Some(SuiteEndTag) <==> "SUITE_END " <= line
    ensures SeenTag(line) == Some(DoneTag) <==> "DONE " <= line
    ensures SeenTag(line) == Some(PassTag) <==> "PASS " <= line
    ensures SeenTag(line) == Some(SkipTag) <==> "SKIP " <= line
    ensures SeenTag(line) == Some(FailTag) <==> "FAIL " <= line
    ensures SeenTag(line) != Some(LogTag)
  {
    if SeenTag(line).Some? {
      var tag := SeenTag(line).value;
      assert line == Word(tag) + line[|Word(tag)|..];
    }
    forall tag | tag != LogTag && Word(tag) <= line ensures SeenTag(line) == Some(tag) {
      assert line == Word(tag) + line[|Word(tag)|..];
      TagIsSeen(tag, line[|Word(tag)|..]);
    }
  }

  /** What follows the word decides the event, or that there is none. */
  lemma ParseMeaning(tag: Tag, rest: Str)
    requires tag != LogTag
    ensures ParseTextLine(Word(tag) + rest) == ParseBody(tag, rest)
  {
    TagIsSeen(tag, rest);
    assert (Word(tag) + rest)[|Word(tag)|..] == rest;
  }

  /** A case is named by everything before and behind the first dot; without one there is no event. */
  lemma NameMeaning(rest: Str, status: TestStatus)
    ensures ParseEnd(rest, status).None? <==> '.' !in rest
    ensures ParseCaseStart(rest).None? <==> '.' !in rest
    ensures forall suite: Str, name: Str :: ParseEnd(rest, status) == Some(CaseEnd(suite, name, status)) <==>
              rest == suite + ['.'] + name && '.' !in suite
    ensures forall suite: Str, name: Str :: ParseCaseStart(rest) == Some(CaseStart(suite, name)) <==>
              rest == suite + ['.'] + name && '.' !in suite
    ensures ParseEnd(rest, status).Some? ==> ParseEnd(rest, status).value.CaseEnd?
    ensures ParseCaseStart(rest).Some? ==> ParseCaseStart(rest).value.CaseStart?
  {
    forall suite: Str, name: Str | rest == suite + ['.'] + name && '.' !in suite
      ensures SplitOnce('.', rest) == Some((suite, name))
    {
      SplitFinds('.', suite, name);
    }
  }

  /** A failure line without a space ends a failed case; otherwise what precedes the first space names the case, what
      lies between it and the next is the place, and what follows is the message. */
  lemma FailMeaning(id: Str, more: Str, place: Str, message: Str)
    requires ' ' !in id && ' ' !in place
    ensures ParseFail(id) == ParseEnd(id, Failed)
    ensures '.' !in id ==> ParseFail(id + [' '] + more) == None
    ensures '.' in id ==>
              var name := SplitOnce('.', id).value;
              && ParseFail(id + [' '] + place) == Some(AssertFail(name.0, name.1, place, 0, ""))
              && ParseFail(id + [' '] + (place + [' '] + message)) == Some(AssertFail(name.0, name.1, place, 0, message))
  {
    SplitFinds(' ', id, more);
    SplitFinds(' ', id, place);
    SplitFinds(' ', id, place + [' '] + message);
    SplitFinds(' ', place, message);
  }

  /** The last token that gives a counter decides it; other tokens decide nothing. */
  lemma {:induction false} ReadCountsMeaning(tokens: seq<Str>, last: Str, p: u32, f: u32, s: u32)
    ensures var before, after := ReadCounts(tokens, p, f, s), ReadCounts(tokens + [last], p, f, s);
            && after.0 == (if "passed=" <= last then ParseU32(last[7..]) else before.0)
            && after.1 == (if "failed=" <= last then ParseU32(last[7..]) else before.1)
            && after.2 == (if "skipped=" <= last then ParseU32(last[8..]) else before.2)
    decreases |tokens|
  {
    if tokens == [] {
      var none: seq<Str> := [last][1..];
      assert none == [] && tokens + [last] == [last];
      Apart(last);
    } else {
      var rest := tokens[1..];
      var first := ReadCounts([tokens[0]], p, f, s);
      assert tokens == [tokens[0]] + rest && tokens + [last] == [tokens[0]] + (rest + [last]);
      NextToken(tokens[0], rest, p, f, s);
      NextToken(tokens[0], rest + [last], p, f, s);
      ReadCountsMeaning(rest, last, first.0, first.1, first.2);
    }
  }

  lemma NextToken(token: Str, rest: seq<Str>, p: u32, f: u32, s: u32)
    ensures var first := ReadCounts([token], p, f, s);
            ReadCounts([token] + rest, p, f, s) == ReadCounts(rest, first.0, first.1, first.2)
  {
    var none: seq<Str> := [token][1..];
    assert none == [] && ([token] + rest)[1..] == rest;
  }

  lemma Apart(token: Str)
    ensures PASSED <= token ==> !(FAILED <= token) && !(SKIPPED <= token)
    ensures FAILED <= token ==> !(SKIPPED <= token)
  {
    assert PASSED[0] == 'p' && FAILED[0] == 'f' && SKIPPED[0] == 's';
  }

  /** The name of a suite's end is its first word, and the counters start from zero. */
  lemma CountsMeaning(rest: Str)
    ensures Words(rest) == [] ==> ParseSuiteEnd(rest) == None
    ensures Words(rest) != [] ==>
              var c := ReadCounts(Words(rest)[1..], 0, 0, 0);
              ParseSuiteEnd(rest) == Some(SuiteEnd(Words(rest)[0], c.0, c.1, c.2))
    ensures ReadCounts([], 0, 0, 0) == (0, 0, 0)
  {
  }

  /** All carriage returns at the end of a line are taken off, and nothing else. */
  lemma {:induction false} StripMeaning(line: Str) returns (returns': Str)
    ensures line == StripReturns(line) + returns' && forall c :: c in returns' ==> c == '\r'
    ensures StripReturns(line) != [] ==> StripReturns(line)[|StripReturns(line)| - 1] != '\r'
  {
    if line == [] || line[|line| - 1] != '\r' {
      returns' := [];
    } else {
      returns' := StripMeaning(line[..|line| - 1]);
      Associative(StripReturns(line), returns', ['\r']);
      returns' := returns' + ['\r'];
    }
  }
}
