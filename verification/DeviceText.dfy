/** The harness side of the text path: one line per note, built in bounded buffers. */
module DeviceText {
  import opened Protocol
  import opened DeviceWire
  import opened CaseOrder
  import opened RunnerModel
  import opened TextTools
  import opened TextBuffers
  import opened DeviceRun

  function StatusWord(status: TestStatus): Str {
    match status
    case Passed => "PASS"
    case Failed => "FAIL"
    case Skipped => "SKIP"
  }

  /** The three counters behind a line's head; they are printed as 32-bit values. */
  function Counters(head: Str, c: Counts): Str {
    head + " passed=" + Decimal(Wrap32(c.passed)) + " failed=" + Decimal(Wrap32(c.failed))
    + " skipped=" + Decimal(Wrap32(c.skipped))
  }

  /** A note's line before it meets its buffer. */
  function FullLine(note: Note): Str {
    match note
    case Banner => "=== POT ==="
    case SuiteOpen(suite) => "SUITE_START " + Chars(suite)
    case CaseOpen(id) => "CASE_START " + Triple(id)
    case Failure(id, file, line, message) =>
      "FAIL " + Triple(id) + " " + OrUnknown(file) + ":" + Signed(line) + " " + message
    case Ignored(id, message) => "IGNORE " + Triple(id) + " " + message
    case CaseClose(id, status) => StatusWord(status) + " " + Triple(id)
    case SuiteClose(suite, c) => Counters("SUITE_END " + Chars(suite), c)
    case AllDone(c) => Counters("DONE", c)
  }

  /** The size of the buffer the line is built in; the banner needs none. */
  function BufferSize(note: Note): nat {
    match note
    case Banner => 12
    case SuiteOpen(_) => 128
    case CaseOpen(_) => 192
    case Failure(_, _, _, _) => 320
    case Ignored(_, _) => 256
    case CaseClose(_, _) => 256
    case SuiteClose(_, _) => 160
    case AllDone(_) => 160
  }

  /** The line the device prints: cut so that the terminator still fits. */
  function LineOf(note: Note): Str {
    Cut(FullLine(note), BufferSize(note) - 1)
  }

  /** Everything the device prints for a timeline. */
  function Text(steps: seq<Step>): Str {
    if steps == [] then []
    else
      var last := steps[|steps| - 1];
      Text(steps[..|steps| - 1]) + if last.Say? then LineOf(last.note) + "\n" else ""
  }

  /** One more piece behind the text that a buffer already holds, cut or not. */
  method PutStr(buf: array<Char8>, at: nat, s: CStr, ghost text: Str) returns (next: nat)
    requires at < buf.Length && buf[..at] == Cut(text, buf.Length - 1)
    modifies buf
    ensures next < buf.Length && buf[..next] == Cut(text + Chars(s), buf.Length - 1)
  {
    EmptyIsNeutral(text);
    CutOnce(text, Chars(s), buf.Length - 1);
    next := AppendStr(buf, buf.Length, at, s);
  }

  method PutLong(buf: array<Char8>, at: nat, v: int, ghost text: Str) returns (next: nat)
    requires at < buf.Length && buf[..at] == Cut(text, buf.Length - 1)
    requires -0x8000_0000_0000_0000 <= v < 0x8000_0000_0000_0000
    modifies buf
    ensures next < buf.Length && buf[..next] == Cut(text + Signed(v), buf.Length - 1)
  {
    CutOnce(text, Signed(v), buf.Length - 1);
    next := AppendLong(buf, buf.Length, at, v);
  }

  method PutTriple(buf: array<Char8>, start: nat, id: Ident, ghost text: Str) returns (at: nat)
    requires start < buf.Length && buf[..start] == Cut(text, buf.Length - 1)
    modifies buf
    ensures at < buf.Length && buf[..at] == Cut(text + Triple(id), buf.Length - 1)
  {
    var s, g, n := OrUnknown(id.suite), OrUnknown(id.group), OrUnknown(id.name);
    at := PutStr(buf, start, Some(s), text);
    at := PutStr(buf, at, Some("."), text + s);
    at := PutStr(buf, at, Some(g), text + s + ".");
    at := PutStr(buf, at, Some("."), text + s + "." + g);
    at := PutStr(buf, at, Some(n), text + s + "." + g + ".");
    FiveParts(text, s, ".", g, ".", n);
  }

  method PutCount(buf: array<Char8>, start: nat, tag: Str, count: nat, ghost text: Str) returns (at: nat)
    requires start < buf.Length && buf[..start] == Cut(text, buf.Length - 1)
    modifies buf
    ensures at < buf.Length && buf[..at] == Cut(text + tag + Decimal(Wrap32(count)), buf.Length - 1)
  {
    at := PutStr(buf, start, Some(tag), text);
    at := PutLong(buf, at, Wrap32(count), text + tag);
  }

  method PutCounters(buf: array<Char8>, start: nat, c: Counts, ghost head: Str) returns (at: nat)
    requires start < buf.Length && buf[..start] == Cut(head, buf.Length - 1)
    modifies buf
    ensures at < buf.Length && buf[..at] == Cut(Counters(head, c), buf.Length - 1)
  {
    ghost var p := head + " passed=" + Decimal(Wrap32(c.passed));
    ghost var f := p + " failed=" + Decimal(Wrap32(c.failed));
    at := PutCount(buf, start, " passed=", c.passed, head);
    at := PutCount(buf, at, " failed=", c.failed, p);
    at := PutCount(buf, at, " skipped=", c.skipped, f);
  }

  /** The start of a line: its word and the case it is about. */
  method PutTagged(buf: array<Char8>, word: Str, id: Ident) returns (at: nat)
    requires 0 < buf.Length
    modifies buf
    ensures at < buf.Length && buf[..at] == Cut(word + Triple(id), buf.Length - 1)
  {
    assert buf[..0] == [];
    EmptyIsNeutral(word);
    at := PutStr(buf, 0, Some(word), []);
    at := PutTriple(buf, at, id, word);
  }

  /** The start of a line about a suite. */
  method PutNamed(buf: array<Char8>, word: Str, name: CStr) returns (at: nat)
    requires 0 < buf.Length
    modifies buf
    ensures at < buf.Length && buf[..at] == Cut(word + Chars(name), buf.Length - 1)
  {
    assert buf[..0] == [];
    EmptyIsNeutral(word);
    at := PutStr(buf, 0, Some(word), []);
    at := PutStr(buf, at, name, word);
  }

  method PutPlace(buf: array<Char8>, start: nat, file: CStr, line: int, ghost text: Str) returns (at: nat)
    requires start < buf.Length && buf[..start] == Cut(text, buf.Length - 1)
    requires -0x8000_0000 <= line < 0x8000_0000
    modifies buf
    ensures at < buf.Length
    ensures buf[..at] == Cut(text + " " + OrUnknown(file) + ":" + Signed(line), buf.Length - 1)
  {
    at := PutStr(buf, start, Some(" "), text);
    at := PutStr(buf, at, Some(OrUnknown(file)), text + " ");
    at := PutStr(buf, at, Some(":"), text + " " + OrUnknown(file));
    at := PutLong(buf, at, line, text + " " + OrUnknown(file) + ":");
  }

  method PutMessage(buf: array<Char8>, start: nat, message: Str, ghost text: Str) returns (at: nat)
    requires start < buf.Length && buf[..start] == Cut(text, buf.Length - 1)
    modifies buf
    ensures at < buf.Length && buf[..at] == Cut(text + " " + message, buf.Length - 1)
  {
    at := PutStr(buf, start, Some(" "), text);
    at := PutStr(buf, at, Some(message), text + " ");
  }

  /** The message of a failed assertion: what was expected, and the caller's own words when there are any. */
  function FailureText(base: CStr, extra: CStr): Str {
    (if base.None? then "assert" else base.value) + if Chars(extra) == "" then "" else ": " + Chars(extra)
  }

  /** Without words of the caller's the message is its base alone, "assert" for a NULL base; otherwise it begins with the
      base, ends with the words, and has a colon and a space in between. */
  lemma FailureTextMeaning(base: Str, extra: Str)
    ensures FailureText(None, None) == "assert" && FailureText(Some(base), None) == FailureText(Some(base), Some("")) == base
    ensures FailureText(None, Some(extra)) == FailureText(Some("assert"), Some(extra))
    ensures extra != "" ==>
              var text := FailureText(Some(base), Some(extra));
              && |text| == |base| + 2 + |extra| && text[..|base|] == base && text[|base| + 2..] == extra
              && text[|base|] == ':' && text[|base| + 1] == ' '
  {
    EmptyIsNeutral(base);
    assert (base + (": " + extra))[|base| + 2..] == extra;
  }

  method FailMsg(base: CStr, extra: CStr) returns (message: Str)
    ensures message == Cut(FailureText(base, extra), 255)
  {
    var buf := new Char8[256];
    var head := if base.None? then "assert" else base.value;
    var at := PutNamed(buf, head, None);
    EmptyIsNeutral(head);
    if Chars(extra) != "" {
      at := PutStr(buf, at, Some(": "), head);
      at := PutStr(buf, at, extra, head + ": ");
      Associative(head, ": ", Chars(extra));
    }
    message := buf[..at];
  }

  /** The harness printing its notes; `wire` is what the writer callback has been given. */
  class TextWriter {
    var wire: Str

    constructor ()
      ensures wire == []
    {
      wire := [];
    }

    method EmitLine(line: Str)
      modifies this
      ensures wire == old(wire) + (line + "\n")
    {
      Associative(wire, line, "\n");
      wire := wire + line;
      wire := wire + "\n";
    }

    method EmitFailure(id: Ident, file: CStr, line: int, message: Str)
      requires -0x8000_0000 <= line < 0x8000_0000
      modifies this
      ensures wire == old(wire) + (LineOf(Failure(id, file, line, message)) + "\n")
    {
      var buf := new Char8[320];
      ghost var head: Str := "FAIL " + Triple(id);
      var at := PutTagged(buf, "FAIL ", id);
      at := PutPlace(buf, at, file, line, head);
      at := PutMessage(buf, at, message, head + " " + OrUnknown(file) + ":" + Signed(line));
      EmitLine(buf[..at]);
    }

    method EmitIgnored(id: Ident, message: Str)
      modifies this
      ensures wire == old(wire) + (LineOf(Ignored(id, message)) + "\n")
    {
      var buf := new Char8[256];
      var at := PutTagged(buf, "IGNORE ", id);
      at := PutMessage(buf, at, message, "IGNORE " + Triple(id));
      EmitLine(buf[..at]);
    }

    method EmitCaseResult(id: Ident, status: TestStatus)
      modifies this
      ensures wire == old(wire) + (LineOf(CaseClose(id, status)) + "\n")
    {
      var buf := new Char8[256];
      var at := PutTagged(buf, StatusWord(status) + " ", id);
      EmitLine(buf[..at]);
    }

    method EmitCaseStart(id: Ident)
      modifies this
      ensures wire == old(wire) + (LineOf(CaseOpen(id)) + "\n")
    {
      var buf := new Char8[192];
      var at := PutTagged(buf, "CASE_START ", id);
      EmitLine(buf[..at]);
    }

    method EmitSuiteStart(name: CStr)
      modifies this
      ensures wire == old(wire) + (LineOf(SuiteOpen(name)) + "\n")
    {
      var buf := new Char8[128];
      var at := PutNamed(buf, "SUITE_START ", name);
      EmitLine(buf[..at]);
    }

    method EmitSuiteEnd(name: CStr, c: Counts)
      modifies this
      ensures wire == old(wire) + (LineOf(SuiteClose(name, c)) + "\n")
    {
      var buf := new Char8[160];
      var at := PutNamed(buf, "SUITE_END ", name);
      at := PutCounters(buf, at, c, "SUITE_END " + Chars(name));
      EmitLine(buf[..at]);
    }

    method EmitDone(c: Counts)
      modifies this
      ensures wire == old(wire) + (LineOf(AllDone(c)) + "\n")
    {
      var buf := new Char8[160];
      var at := PutNamed(buf, "DONE", None);
      at := PutCounters(buf, at, c, "DONE");
      EmitLine(buf[..at]);
    }

    /** One note, by the printer the runner uses for it. */
    method EmitNote(note: Note)
      requires note.Failure? ==> -0x8000_0000 <= note.line < 0x8000_0000
      modifies this
      ensures wire == old(wire) + (LineOf(note) + "\n")
    {
      match note
      case Banner => EmitLine("=== POT ===");
      case SuiteOpen(suite) => EmitSuiteStart(suite);
      case CaseOpen(id) => EmitCaseStart(id);
      case Failure(id, file, line, message) => EmitFailure(id, file, line, message);
      case Ignored(id, message) => EmitIgnored(id, message);
      case CaseClose(id, status) => EmitCaseResult(id, status);
      case SuiteClose(suite, c) => EmitSuiteEnd(suite, c);
      case AllDone(c) => EmitDone(c);
    }
  }
}
