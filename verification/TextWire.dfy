/** The text stream and the COBS stream of one run tell the host the same story. */
module TextWire {
  import opened Protocol
  import opened Framing
  import opened CaseOrder
  import opened DeviceWire
  import opened RunnerModel
  import opened TextTools
  import opened DeviceRun
  import opened DeviceText
  import TextCodec
  import HostCodec
  import Payload

  /** Group and name as both paths show them. */
  function FullLeaf(id: Ident): Str {
    OrUnknown(id.group) + "." + OrUnknown(id.name)
  }

  predicate LegibleId(id: Ident) {
    && id.suite.Some? && IsWord(id.suite.value) && '.' !in id.suite.value
    && IsWord(OrUnknown(id.group)) && IsWord(OrUnknown(id.name))
  }

  predicate LegibleSuite(suite: CStr) {
    suite.Some? && IsWord(suite.value)
  }

  /** Identifier-like names and one-line messages. */
  predicate Legible(note: Note) {
    match note
    case Banner => true
    case SuiteOpen(suite) => LegibleSuite(suite)
    case CaseOpen(id) => LegibleId(id)
    case Failure(id, file, _, message) => LegibleId(id) && IsWord(OrUnknown(file)) && TextCodec.OneLine(message)
    case Ignored(id, message) => LegibleId(id) && TextCodec.OneLine(message)
    case CaseClose(id, _) => LegibleId(id)
    case SuiteClose(suite, _) => LegibleSuite(suite)
    case AllDone(_) => true
  }

  /** Short enough that neither path cuts anything. */
  predicate FitsBuffers(note: Note) {
    && |FullLine(note)| < BufferSize(note)
    && (note.CaseOpen? || note.Failure? || note.CaseClose? ==> |FullLeaf(note.id)| <= LEAF_MAX)
    && (note.Failure? ==> |Chars(note.id.suite)| <= 255 && |note.message| <= 255)
  }

  function PlaceText(file: CStr, line: int): Str {
    OrUnknown(file) + ":" + Signed(line)
  }

  /** What a note's line is read as: the same event as on the other path, except for the place of a failure. */
  function NoteEvents(note: Note): seq<Event> {
    if note.Failure? then
      [AssertFail(Chars(note.id.suite), Leaf(note.id), PlaceText(note.file, note.line), 0, note.message)]
    else if EventOfNote(note).None? then []
    else [EventOfNote(note).value]
  }

  ghost predicate ReadsRight(note: Note) {
    '\n' !in LineOf(note) && TextCodec.LineEvents(LineOf(note)) == Ok(NoteEvents(note))
  }

  lemma TripleSplits(id: Ident)
    ensures Triple(id) == OrUnknown(id.suite) + "." + FullLeaf(id)
  {
  }

  lemma LeafIsWord(id: Ident)
    requires LegibleId(id) && |FullLeaf(id)| <= LEAF_MAX
    ensures Leaf(id) == FullLeaf(id) && IsWord(Leaf(id))
  {
  }

  lemma SignedIsWord(v: int)
    ensures IsWord(Signed(v))
  {
    if v < 0 {
      DecimalRoundTrip(-v);
      WordConcat("-", Decimal(-v));
    } else {
      DecimalRoundTrip(v);
    }
  }

  /** A note whose line is the one the host would print for a plain event is read as that event. */
  lemma PrintedAlike(note: Note, e: Event)
    requires FullLine(note) == TextCodec.TextLine(e) && FitsBuffers(note) && TextCodec.Plain(e)
    requires NoteEvents(note) == [TextCodec.TextCarried(e)]
    ensures ReadsRight(note)
  {
    TextCodec.PlainLine(e);
  }

  lemma FailureNoted(id: Ident, file: CStr, line: int, message: Str)
    requires LegibleId(id) && |FullLeaf(id)| <= LEAF_MAX
    ensures NoteEvents(Failure(id, file, line, message)) ==
            [AssertFail(Chars(id.suite), FullLeaf(id), PlaceText(file, line), 0, message)]
  {
  }

  lemma ReadAlike(note: Note, line: Str, e: Event)
    requires FullLine(note) == line && FitsBuffers(note) && NoteEvents(note) == [e]
    requires '\n' !in line && TextCodec.LineEvents(line) == Ok([e])
    ensures ReadsRight(note)
  {
  }

  lemma CaseLine(word: Str, id: Ident)
    requires LegibleId(id) && |FullLeaf(id)| <= LEAF_MAX
    ensures word + Triple(id) == word + (Chars(id.suite) + "." + Leaf(id))
  {
  }

  lemma CaseOpenReads(id: Ident)
    requires Legible(CaseOpen(id)) && FitsBuffers(CaseOpen(id))
    ensures ReadsRight(CaseOpen(id))
  {
    LeafIsWord(id);
    CaseLine("CASE_START ", id);
    PrintedAlike(CaseOpen(id), CaseStart(Chars(id.suite), Leaf(id)));
  }

  lemma StatusWordAlike(status: TestStatus)
    ensures StatusWord(status) + " " == TextCodec.Word(TextCodec.StatusTag(status))
  {
  }

  lemma CaseCloseReads(id: Ident, status: TestStatus)
    requires Legible(CaseClose(id, status)) && FitsBuffers(CaseClose(id, status))
    ensures ReadsRight(CaseClose(id, status))
  {
    LeafIsWord(id);
    CaseLine(StatusWord(status) + " ", id);
    StatusWordAlike(status);
    PrintedAlike(CaseClose(id, status), CaseEnd(Chars(id.suite), Leaf(id), status));
  }

  lemma SuiteOpenReads(suite: CStr)
    requires Legible(SuiteOpen(suite)) && FitsBuffers(SuiteOpen(suite))
    ensures ReadsRight(SuiteOpen(suite))
  {
    PrintedAlike(SuiteOpen(suite), SuiteStart(Chars(suite)));
  }

  /** The device's counters are the host's. */
  lemma CountersAgree(head: Str, c: Counts)
    ensures Counters(head, c) ==
            head + " " + TextCodec.CountWords(Wrap32(c.passed), Wrap32(c.failed), Wrap32(c.skipped))
  {
    var p, f, s := Decimal(Wrap32(c.passed)), Decimal(Wrap32(c.failed)), Decimal(Wrap32(c.skipped));
    assert " passed=" == " " + TextCodec.PASSED && " failed=" == " " + TextCodec.FAILED
        && " skipped=" == " " + TextCodec.SKIPPED;
    CountersRegroup(head, " ", TextCodec.PASSED, p, TextCodec.FAILED, f, TextCodec.SKIPPED, s);
  }

  lemma CountersRegroup(head: Str, sp: Str, a: Str, p: Str, b: Str, f: Str, c: Str, s: Str)
    ensures head + (sp + a) + p + (sp + b) + f + (sp + c) + s == head + sp + (a + p + sp + (b + f + sp + (c + s)))
  {
  }

  lemma SuiteCloseReads(suite: CStr, c: Counts)
    requires Legible(SuiteClose(suite, c)) && FitsBuffers(SuiteClose(suite, c))
    ensures ReadsRight(SuiteClose(suite, c))
  {
    CountersAgree("SUITE_END " + Chars(suite), c);
    var words := TextCodec.CountWords(Wrap32(c.passed), Wrap32(c.failed), Wrap32(c.skipped));
    Associative("SUITE_END ", Chars(suite), " ");
    Associative("SUITE_END ", Chars(suite) + " ", words);
    PrintedAlike(SuiteClose(suite, c), SuiteEnd(Chars(suite), Wrap32(c.passed), Wrap32(c.failed), Wrap32(c.skipped)));
  }

  lemma AllDoneReads(c: Counts)
    requires FitsBuffers(AllDone(c))
    ensures ReadsRight(AllDone(c))
  {
    CountersAgree("DONE", c);
    assert "DONE" + " " == "DONE ";
    PrintedAlike(AllDone(c), Done(Wrap32(c.passed), Wrap32(c.failed), Wrap32(c.skipped)));
  }

  lemma FailureLine(id: Ident, file: CStr, line: int, message: Str)
    requires id.suite.Some?
    ensures FullLine(Failure(id, file, line, message)) ==
            TextCodec.FailText(Chars(id.suite), FullLeaf(id), PlaceText(file, line), message)
  {
  }

  lemma PlaceIsWord(file: CStr, line: int)
    requires IsWord(OrUnknown(file))
    ensures IsWord(PlaceText(file, line))
  {
    SignedIsWord(line);
    WordConcat(OrUnknown(file), ":");
    WordConcat(OrUnknown(file) + ":", Signed(line));
  }

  lemma FailureReads(id: Ident, file: CStr, line: int, message: Str)
    requires Legible(Failure(id, file, line, message)) && FitsBuffers(Failure(id, file, line, message))
    ensures ReadsRight(Failure(id, file, line, message))
  {
    var suite, leaf, place := Chars(id.suite), FullLeaf(id), PlaceText(file, line);
    LeafIsWord(id);
    PlaceIsWord(file, line);
    FailureNoted(id, file, line, message);
    FailureLine(id, file, line, message);
    TextCodec.FailLine(suite, leaf, place, message);
    ReadAlike(Failure(id, file, line, message), TextCodec.FailText(suite, leaf, place, message),
      AssertFail(suite, leaf, place, 0, message));
  }

  /** Lines that begin with another word are passed over. */
  lemma OtherLine(line: Str)
    requires TextCodec.OneLine(line) && line != "" && (line[0] == 'I' || "===" <= line)
    ensures TextCodec.LineEvents(line) == Ok([])
  {
    TextCodec.ReceivedLine(line);
    assert TextCodec.SeenTag(line) == None;
  }

  lemma BannerReads()
    ensures ReadsRight(Banner)
  {
  }

  lemma IgnoredReads(id: Ident, message: Str)
    requires LegibleId(id) && TextCodec.OneLine(message)
    requires FitsBuffers(Ignored(id, message))
    ensures ReadsRight(Ignored(id, message))
  {
    WordConcat(OrUnknown(id.suite), ".");
    WordConcat(OrUnknown(id.suite) + ".", OrUnknown(id.group));
    WordConcat(OrUnknown(id.suite) + "." + OrUnknown(id.group), ".");
    WordConcat(OrUnknown(id.suite) + "." + OrUnknown(id.group) + ".", OrUnknown(id.name));
    TextCodec.WordFacts(Triple(id));
    TextCodec.OneLineConcat("IGNORE ", Triple(id));
    TextCodec.OneLineConcat("IGNORE " + Triple(id), " ");
    TextCodec.OneLineConcat("IGNORE " + Triple(id) + " ", message);
    OtherLine(LineOf(Ignored(id, message)));
  }

  /** Every legible line that fits is read back as its event; banner and skip messages contribute nothing. */
  lemma NoteReads(note: Note)
    requires Legible(note) && FitsBuffers(note)
    ensures ReadsRight(note)
  {
    match note
    case Banner => BannerReads();
    case SuiteOpen(suite) => SuiteOpenReads(suite);
    case CaseOpen(id) => CaseOpenReads(id);
    case Failure(id, file, line, message) => FailureReads(id, file, line, message);
    case Ignored(id, message) => IgnoredReads(id, message);
    case CaseClose(id, status) => CaseCloseReads(id, status);
    case SuiteClose(suite, c) => SuiteCloseReads(suite, c);
    case AllDone(c) => AllDoneReads(c);
  }

  /** Everything but the file and line of a failure, which neither path carries in full. */
  function Placeless(e: Event): Event {
    if e.AssertFail? then AssertFail(e.suite, e.name, "", 0, e.message) else e
  }

  ghost predicate SameUpToPlace(a: seq<Event>, b: seq<Event>) {
    |a| == |b| && forall i :: 0 <= i < |a| ==> Placeless(a[i]) == Placeless(b[i])
  }

  ghost predicate Readable(steps: seq<Step>) {
    forall i :: 0 <= i < |steps| && steps[i].Say? ==> Legible(steps[i].note) && FitsBuffers(steps[i].note)
  }

  lemma LengthsFit(note: Note)
    requires Legible(note) && FitsBuffers(note)
    ensures note.SuiteOpen? || note.SuiteClose? ==> |Chars(note.suite)| <= 255
    ensures note.CaseOpen? || note.Failure? || note.CaseClose? ==> |Chars(note.id.suite)| <= 255
    ensures note.Failure? ==> |Chars(note.id.suite)| + |FullLeaf(note.id)| + |note.message| <= TEXT_MAX
  {
  }

  /** Note by note, the two paths carry the same event up to the place of a failure. */
  lemma NoteAgrees(note: Note)
    requires Legible(note) && FitsBuffers(note)
    ensures EventOfNote(note).None? ==> NoteEvents(note) == []
    ensures EventOfNote(note).Some? ==>
              var e := EventOfNote(note).value;
              Fits(Payload.MsgOf(e)) && |NoteEvents(note)| == 1
              && Placeless(Payload.Carried(e)) == Placeless(NoteEvents(note)[0])
  {
    LengthsFit(note);
    if note.CaseOpen? || note.Failure? || note.CaseClose? {
      LeafIsWord(note.id);
    }
  }

  /** What the text of a timeline is read as. */
  function Readings(steps: seq<Step>): seq<Event> {
    if steps == [] then []
    else
      var last := steps[|steps| - 1];
      Readings(steps[..|steps| - 1]) + if last.Say? then NoteEvents(last.note) else []
  }

  lemma LineBehind(text: Str, read: seq<Event>, line: Str, out: seq<Event>)
    requires Residue<Char8>('\n', [], text) == [] && TextCodec.TextEvents(text) == Ok(read)
    requires '\n' !in line && TextCodec.LineEvents(line) == Ok(out)
    ensures TextCodec.TextEvents(text + (line + "\n")) == Ok(read + out)
    ensures Residue<Char8>('\n', [], text + (line + "\n")) == []
  {
    EmptyIsNeutral(line + "\n");
    EmptyIsNeutral([line]);
    PiecesOfClosed<Char8>('\n', line, []);
    PiecesAppend<Char8>('\n', [], text, line + "\n");
    InterpretSnoc<Char8, Event, CodecError>(TextCodec.LineEvents, Pieces<Char8>('\n', [], text), line);
  }

  lemma {:induction false} TextReads(steps: seq<Step>)
    requires Readable(steps)
    ensures TextCodec.TextEvents(Text(steps)) == Ok(Readings(steps)) && Residue<Char8>('\n', [], Text(steps)) == []
  {
    if steps == [] {
    } else {
      var before, last := steps[..|steps| - 1], steps[|steps| - 1];
      TextReads(before);
      if last.Say? {
        NoteReads(last.note);
        LineBehind(Text(before), Readings(before), LineOf(last.note), NoteEvents(last.note));
      } else {
        EmptyIsNeutral(Text(before));
        EmptyIsNeutral(Readings(before));
      }
    }
  }

  lemma {:induction false} EventsAgree(steps: seq<Step>)
    requires Readable(steps)
    ensures AllFit(Events(steps)) && SameUpToPlace(Readings(steps), HostCodec.CarriedAll(Events(steps)))
  {
    if steps == [] {
    } else {
      var before, last := steps[..|steps| - 1], steps[|steps| - 1];
      EventsAgree(before);
      if last.Say? {
        NoteAgrees(last.note);
        if EventOfNote(last.note).Some? {
          CarriedSnoc(Events(before), EventOfNote(last.note).value);
        }
      }
    }
  }

  /** The text of a run and the COBS bytes of the same run, each received in any chunks, decode without error to
      the same events in the same order, up to the place of a failure. */
  lemma TextMatchesCobs(steps: seq<Step>, text: seq<Str>, bytes: seq<seq<byte>>)
    requires Readable(steps) && Flatten(text) == Text(steps) && Flatten(bytes) == Wire(Events(steps))
    ensures var t := Fed<Char8, Event, CodecError>('\n', TextCodec.LineEvents, [], text);
            var b := Fed(0, HostCodec.FrameEvents, [], bytes);
            && t == Ok(Readings(steps)) && b == Ok(HostCodec.CarriedAll(Events(steps)))
            && SameUpToPlace(t.value, b.value)
  {
    TextReads(steps);
    ChunkingIsInvisible<Char8, Event, CodecError>('\n', TextCodec.LineEvents, [], text);
    EventsAgree(steps);
    RunReachesHost(steps, bytes);
  }

  /** A case's start line is read as that case if and only if its suite has no dot. */
  lemma CaseStartLine(id: Ident)
    requires id.suite.Some? && IsWord(id.suite.value)
    requires |FullLine(CaseOpen(id))| < BufferSize(CaseOpen(id)) && |FullLeaf(id)| <= LEAF_MAX
    ensures TextCodec.ParseTextLine(LineOf(CaseOpen(id))) == Some(CaseStart(Chars(id.suite), Leaf(id)))
            <==> '.' !in id.suite.value
  {
    var rest := Chars(id.suite) + "." + FullLeaf(id);
    TripleSplits(id);
    SplitFinds('.', Chars(id.suite), FullLeaf(id));
    TextCodec.TagIsSeen(TextCodec.CaseStartTag, rest);
    assert (TextCodec.Word(TextCodec.CaseStartTag) + rest)[|TextCodec.Word(TextCodec.CaseStartTag)|..] == rest;
  }
}
