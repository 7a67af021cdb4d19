/** The byte stream of a whole run in COBS mode, and what the host makes of it. */
module DeviceRun {
  import opened Protocol
  import opened Framing
  import opened Payload
  import opened HostCodec
  import opened DeviceWire
  import opened CaseOrder
  import opened RunnerModel
  import opened TextTools

  const LEAF_MAX := 127

  function OrUnknown(s: CStr): Str {
    if s.None? then "?" else s.value
  }

  /** The case name on the wire: group and name, cut to the 128-byte leaf buffer. */
  function Leaf(id: Ident): Str {
    Cut(OrUnknown(id.group) + "." + OrUnknown(id.name), LEAF_MAX)
  }

  /** The full name of a case, as text; NULL parts print as a question mark. */
  function Triple(id: Ident): Str {
    OrUnknown(id.suite) + "." + OrUnknown(id.group) + "." + OrUnknown(id.name)
  }

  /** The event a note is meant to reach the host as; the banner and skip messages exist in text mode only. */
  function EventOfNote(note: Note): Option<Event> {
    match note
    case Banner => None
    case Ignored(_, _) => None
    case SuiteOpen(suite) => Some(SuiteStart(Chars(suite)))
    case CaseOpen(id) => Some(CaseStart(Chars(id.suite), Leaf(id)))
    case Failure(id, file, line, message) =>
      Some(AssertFail(Chars(id.suite), Leaf(id), Chars(file), Wrap32(line), message))
    case CaseClose(id, status) => Some(CaseEnd(Chars(id.suite), Leaf(id), status))
    case SuiteClose(suite, c) => Some(SuiteEnd(Chars(suite), Wrap32(c.passed), Wrap32(c.failed), Wrap32(c.skipped)))
    case AllDone(c) => Some(Done(Wrap32(c.passed), Wrap32(c.failed), Wrap32(c.skipped)))
  }

  /** The intended events of a timeline, in order. */
  function Events(steps: seq<Step>): seq<Event> {
    if steps == [] then []
    else
      var last := steps[|steps| - 1];
      Events(steps[..|steps| - 1])
      + (if last.Say? && EventOfNote(last.note).Some? then [EventOfNote(last.note).value] else [])
  }

  lemma EventsSnoc(steps: seq<Step>, step: Step)
    ensures Events(steps + [step]) ==
            Events(steps) + (if step.Say? && EventOfNote(step.note).Some? then [EventOfNote(step.note).value] else [])
  {
  }

  /** The bytes the device writes for a list of events: one message each. */
  function Wire(events: seq<Event>): seq<byte> {
    if events == [] then [] else Emitted(MsgOf(events[0])) + Wire(events[1..])
  }

  lemma {:induction false} WireConcat(a: seq<Event>, e: Event)
    ensures Wire(a + [e]) == Wire(a) + Emitted(MsgOf(e))
  {
    if a == [] {
      EmptyIsNeutral([e]);
      EmptyIsNeutral(Emitted(MsgOf(e)));
    } else {
      assert (a + [e])[1..] == a[1..] + [e];
      WireConcat(a[1..], e);
      Associative(Emitted(MsgOf(a[0])), Wire(a[1..]), Emitted(MsgOf(e)));
    }
  }

  function FittingOnly(events: seq<Event>): seq<Event> {
    if events == [] then []
    else (if Fits(MsgOf(events[0])) then [events[0]] else []) + FittingOnly(events[1..])
  }

  ghost predicate AllFit(events: seq<Event>) {
    forall e :: e in events ==> Fits(MsgOf(e))
  }

  lemma {:induction false} FittingOnlyAll(events: seq<Event>)
    requires AllFit(events)
    ensures FittingOnly(events) == events
  {
    if events == [] {
    } else {
      var e, rest := events[0], events[1..];
      assert events == [e] + rest && e in events;
      FittingOnlyAll(rest);
    }
  }

  lemma CarriedCons(e: Event, rest: seq<Event>)
    ensures CarriedAll([]) == [] && CarriedAll([e] + rest) == [Carried(e)] + CarriedAll(rest)
  {
  }

  lemma CarriedSnoc(events: seq<Event>, e: Event)
    ensures CarriedAll(events + [e]) == CarriedAll(events) + [Carried(e)]
  {
  }

  lemma {:induction false} FittingSnoc(events: seq<Event>, e: Event)
    ensures FittingOnly(events + [e]) == FittingOnly(events) + if Fits(MsgOf(e)) then [e] else []
  {
    if events == [] {
      assert [e][1..] == [];
      EmptyIsNeutral([e]);
    } else {
      assert (events + [e])[1..] == events[1..] + [e];
      FittingSnoc(events[1..], e);
      Associative(if Fits(MsgOf(events[0])) then [events[0]] else [], FittingOnly(events[1..]),
                  if Fits(MsgOf(e)) then [e] else []);
    }
  }

  /** A note that travels, in a message whose strings fit. */
  predicate Travels(note: Note) {
    EventOfNote(note).Some? && Fits(MsgOf(EventOfNote(note).value))
  }

  /** What the host is told by one step. */
  function Told(step: Step): seq<Event> {
    if step.Say? && Travels(step.note) then [Carried(EventOfNote(step.note).value)] else []
  }

  /** What the host hears of a timeline when decoding does not fail: the messages that fit, strings cut. */
  function Heard(steps: seq<Step>): seq<Event> {
    CarriedAll(FittingOnly(Events(steps)))
  }

  lemma HeardSnoc(steps: seq<Step>, step: Step)
    ensures Heard(steps + [step]) == Heard(steps) + Told(step)
  {
    EventsSnoc(steps, step);
    if step.Say? && EventOfNote(step.note).Some? {
      FittingSnoc(Events(steps), EventOfNote(step.note).value);
      if Travels(step.note) {
        CarriedSnoc(FittingOnly(Events(steps)), EventOfNote(step.note).value);
      } else {
        EmptyIsNeutral(FittingOnly(Events(steps)));
      }
    } else {
      EmptyIsNeutral(Events(steps));
    }
    EmptyIsNeutral(Heard(steps));
  }

  /** A stream that decodes at all decodes to the events that fit, in order. */
  lemma {:induction false} WireMeans(events: seq<Event>)
    ensures StreamEvents(Wire(events)).Ok? ==> StreamEvents(Wire(events)) == Ok(CarriedAll(FittingOnly(events)))
    decreases |events|
  {
    if events == [] {
      assert CarriedAll([]) == [];
    } else {
      WireMeans(events[1..]);
      EventInFront(events[0], Wire(events[1..]));
      CarriedCons(events[0], FittingOnly(events[1..]));
      EmptyIsNeutral(FittingOnly(events[1..]));
    }
  }

  lemma {:induction false} FittingWire(events: seq<Event>)
    requires AllFit(events)
    ensures StreamEvents(Wire(events)).Ok?
  {
    if events == [] {
    } else {
      var e, rest := events[0], events[1..];
      assert events == [e] + rest && e in events;
      FittingWire(rest);
      EventInFront(e, Wire(rest));
    }
  }

  lemma EventInFront(e: Event, rest: seq<byte>)
    ensures Fits(MsgOf(e)) ==> StreamEvents(Emitted(MsgOf(e)) + rest) == Prepend([Carried(e)], StreamEvents(rest))
    ensures !Fits(MsgOf(e)) ==>
              StreamEvents(Emitted(MsgOf(e)) + rest) == StreamEvents(rest)
              || StreamEvents(Emitted(MsgOf(e)) + rest).Err?
  {
    ReadingOfLaidOut(e);
    MessageInFront(MsgOf(e), rest);
  }

  /** One message in front of a stream: its event, nothing, or an error that ends the stream. */
  lemma MessageInFront(m: Msg, rest: seq<byte>)
    requires 1 <= m.kind <= 7
    ensures Fits(m) ==> StreamEvents(Emitted(m) + rest) == Prepend([EventOf(Clamped(m))], StreamEvents(rest))
    ensures !Fits(m) ==> StreamEvents(Emitted(m) + rest) == StreamEvents(rest) || StreamEvents(Emitted(m) + rest).Err?
  {
    DeviceToHost(m, rest);
    if !Fits(m) {
      if Assembled(m).Some? {
        DroppedStringIsRejected(m);
        OneFrame(Assembled(m).value, rest);
      } else {
        EmptyIsNeutral(rest);
      }
    }
  }

  /** However a run's bytes are cut into reads, the host never decodes an event the device did not mean: either
      decoding fails, or it yields exactly the events whose strings fit, up to what the wire carries. When all
      fit, nothing is lost and nothing fails. */
  lemma RunReachesHost(steps: seq<Step>, chunks: seq<seq<byte>>)
    requires Flatten(chunks) == Wire(Events(steps))
    ensures var r := Fed(0, FrameEvents, [], chunks);
            && (r.Ok? ==> r == Ok(Heard(steps)))
            && (AllFit(Events(steps)) ==> r == Ok(CarriedAll(Events(steps))))
  {
    ChunkingIsInvisible(0, FrameEvents, [], chunks);
    WireMeans(Events(steps));
    if AllFit(Events(steps)) {
      FittingWire(Events(steps));
      FittingOnlyAll(Events(steps));
    }
  }

  /** A failed assertion reaches the host as what it was: under the case's name, with its own line and message. */
  lemma FailureIsTold(d: Dev, file: CStr, line: u32, message: Str)
    requires var suite, leaf := Chars(d.cur.suite), Leaf(d.cur);
             |suite| <= 255 && |message| <= 255 && |suite| + |leaf| + |message| <= TEXT_MAX
    ensures Heard(Act(d, Fail(file, line, Some(message))).steps) ==
            Heard(d.steps) + [AssertFail(Chars(d.cur.suite), Leaf(d.cur), "", line, message)]
  {
    HeardSnoc(d.steps, Say(Failure(d.cur, file, line, message)));
    WrapMeaning(line, 0);
  }
}
