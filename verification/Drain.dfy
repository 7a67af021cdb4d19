/** The host's event loop for a remote target: read, decode, report, and stop at the first Done event. */
module Drain {
  import opened Protocol
  import opened Framing
  import opened Payload
  import opened HostCodec
  import opened DeviceWire
  import opened RunnerModel
  import opened DeviceRun

  /** One read of the transport: bytes (none at the end of the stream), an operating system error, another
      error, or the deadline found expired before the read. */
  datatype Read = Data(bytes: seq<byte>) | Broken | Faulty | Expired

  /** Reporters finished and the process exit decided, or an error returned with the reporters left unfinished. */
  datatype End = Exited(failing: bool) | Stopped

  /** The bytes received before the stream closes or fails. */
  function Chunks(inputs: seq<Read>): seq<seq<byte>> {
    if inputs == [] || !inputs[0].Data? || inputs[0].bytes == [] then []
    else [inputs[0].bytes] + Chunks(inputs[1..])
  }

  /** Whether the stream closes, by its end or a broken pipe, rather than fails. */
  predicate Closes(inputs: seq<Read>) {
    if inputs == [] then true
    else match inputs[0]
      case Data(bytes) => bytes == [] || Closes(inputs[1..])
      case Broken => true
      case Faulty => false
      case Expired => false
  }

  /** The failed count of the first Done event. */
  function FirstDone(events: seq<Event>): Option<u32> {
    if events == [] then None else if events[0].Done? then Some(events[0].failed) else FirstDone(events[1..])
  }

  function UntilDone(events: seq<Event>): seq<Event> {
    if events == [] then [] else if events[0].Done? then [events[0]] else [events[0]] + UntilDone(events[1..])
  }

  /** The events of all the chunks that decode, in order. */
  function Received(inputs: seq<Read>): seq<Event> {
    Delivered(0, FrameEvents, [], Chunks(inputs))
  }

  function EndOf(inputs: seq<Read>): End {
    if FirstDone(Received(inputs)).Some? then Exited(FirstDone(Received(inputs)).value > 0)
    else if Fed(0, FrameEvents, [], Chunks(inputs)).Err? || !Closes(inputs) then Stopped
    else Exited(false)
  }

  lemma {:induction false} DoneInConcat(a: seq<Event>, b: seq<Event>)
    ensures FirstDone(a + b) == if FirstDone(a).Some? then FirstDone(a) else FirstDone(b)
    ensures UntilDone(a + b) == if FirstDone(a).Some? then UntilDone(a) else a + UntilDone(b)
  {
    if a == [] {
      EmptyIsNeutral(b);
      EmptyIsNeutral(UntilDone(b));
    } else {
      assert (a + b)[1..] == a[1..] + b;
      DoneInConcat(a[1..], b);
      assert a == [a[0]] + a[1..];
      Associative([a[0]], a[1..], UntilDone(b));
    }
  }

  ghost predicate NoDone(events: seq<Event>) {
    forall i :: 0 <= i < |events| ==> !events[i].Done?
  }

  lemma CarriedNoDone(events: seq<Event>)
    requires NoDone(events)
    ensures NoDone(CarriedAll(events))
  {
  }

  lemma {:induction false} WithoutDone(events: seq<Event>)
    requires NoDone(events)
    ensures FirstDone(events) == None && UntilDone(events) == events
  {
    if events == [] {
    } else {
      WithoutDone(events[1..]);
    }
  }

  /** The inner loop: reports the events of one chunk until a Done event is among them. */
  method ReportEvents(events: seq<Event>, before: seq<Event>) returns (reported: seq<Event>, done: Option<u32>)
    ensures reported == before + UntilDone(events) && done == FirstDone(events)
  {
    reported := before;
    assert events[..0] == [];
    EmptyIsNeutral(before);
    for i := 0 to |events|
      invariant reported == before + events[..i] && FirstDone(events[..i]) == None
    {
      var ev := events[i];
      assert events == events[..i] + ([ev] + events[i + 1..]) && events[..i + 1] == events[..i] + [ev];
      DoneInConcat(events[..i], [ev] + events[i + 1..]);
      DoneInConcat(events[..i], [ev]);
      Associative(before, events[..i], [ev]);
      reported := reported + [ev];
      if ev.Done? {
        return reported, Some(ev.failed);
      }
    }
    assert events[..|events|] == events;
    DoneInConcat(events, []);
    EmptyIsNeutral(events);
    done := None;
  }

  /** What is still to come adds to what has been delivered. */
  ghost predicate Remaining(inputs: seq<Read>, k: nat, open: seq<byte>, reported: seq<Event>)
    requires k <= |inputs|
  {
    && Received(inputs) == reported + Delivered(0, FrameEvents, open, Chunks(inputs[k..]))
    && Fed(0, FrameEvents, [], Chunks(inputs)).Err? == Fed(0, FrameEvents, open, Chunks(inputs[k..])).Err?
    && Closes(inputs) == Closes(inputs[k..])
  }

  lemma NextRead(inputs: seq<Read>, k: nat, open: seq<byte>, reported: seq<Event>, events: seq<Event>)
    requires k < |inputs| && inputs[k].Data? && inputs[k].bytes != [] && Remaining(inputs, k, open, reported)
    requires Interpret(FrameEvents, Pieces(0, open, inputs[k].bytes)) == Ok(events)
    ensures Remaining(inputs, k + 1, Residue(0, open, inputs[k].bytes), reported + events)
  {
    assert inputs[k..][1..] == inputs[k + 1..] && inputs[k..][0] == inputs[k];
    var later := Chunks(inputs[k + 1..]);
    assert ([inputs[k].bytes] + later)[1..] == later;
    Associative(reported, events, Delivered(0, FrameEvents, Residue(0, open, inputs[k].bytes), later));
  }

  lemma BadRead(inputs: seq<Read>, k: nat, open: seq<byte>, reported: seq<Event>)
    requires k < |inputs| && inputs[k].Data? && inputs[k].bytes != [] && Remaining(inputs, k, open, reported)
    requires Interpret(FrameEvents, Pieces(0, open, inputs[k].bytes)).Err?
    ensures Received(inputs) == reported && Fed(0, FrameEvents, [], Chunks(inputs)).Err?
  {
    EmptyIsNeutral(reported);
  }

  lemma LastRead(inputs: seq<Read>, k: nat, open: seq<byte>, reported: seq<Event>)
    requires k <= |inputs| && Remaining(inputs, k, open, reported)
    requires k == |inputs| || !inputs[k].Data? || inputs[k].bytes == []
    ensures Received(inputs) == reported && Fed(0, FrameEvents, [], Chunks(inputs)).Ok?
    ensures Closes(inputs) == (k == |inputs| || inputs[k].Data? || inputs[k].Broken?)
  {
    EmptyIsNeutral(reported);
  }

  /** Reports every event up to the first Done event, whichever way the reads go, and ends as the events, the
      decoder and the transport say, in this order. */
  method DrainStream(inputs: seq<Read>) returns (reported: seq<Event>, end: End)
    ensures reported == UntilDone(Received(inputs)) && end == EndOf(inputs)
  {
    var codec := new CobsCodec();
    reported := [];
    assert inputs[0..] == inputs;
    EmptyIsNeutral(Received(inputs));
    var k := 0;
    while k < |inputs|
      invariant k <= |inputs| && 0 !in codec.buf && FirstDone(reported) == None && UntilDone(reported) == reported
      invariant Remaining(inputs, k, codec.buf, reported)
    {
      if !inputs[k].Data? || inputs[k].bytes == [] {
        LastRead(inputs, k, codec.buf, reported);
        return reported, if inputs[k].Data? || inputs[k].Broken? then Exited(false) else Stopped;
      }
      ghost var open := codec.buf;
      PiecesOfBuffered(0, open, inputs[k].bytes);
      ResidueIsOpen(0, open, inputs[k].bytes);
      var events := codec.DecodeFeed(inputs[k].bytes);
      if events.Err? {
        BadRead(inputs, k, open, reported);
        return reported, Stopped;
      }
      NextRead(inputs, k, open, reported, events.value);
      ghost var later := Delivered(0, FrameEvents, codec.buf, Chunks(inputs[k + 1..]));
      DoneInConcat(reported, events.value);
      DoneInConcat(reported + events.value, later);
      var done: Option<u32>;
      reported, done := ReportEvents(events.value, reported);
      if done.Some? {
        return reported, Exited(done.value > 0);
      }
      NotDone(events.value);
      k := k + 1;
    }
    LastRead(inputs, k, codec.buf, reported);
    end := Exited(false);
  }

  lemma {:induction false} NotDone(events: seq<Event>)
    requires FirstDone(events) == None
    ensures UntilDone(events) == events
  {
    if events == [] {
    } else {
      NotDone(events[1..]);
    }
  }

  /** Before its end a timeline announces no total. */
  predicate Undone(d: Dev) {
    forall i :: 0 <= i < |d.steps| ==> !(d.steps[i].Say? && d.steps[i].note.AllDone?)
  }

  lemma {:induction false} ActionsUndone(d: Dev, actions: seq<Action>)
    requires Undone(d)
    ensures Undone(ActAll(d, actions))
    decreases |actions|
  {
    if actions == [] {
    } else {
      ActionsUndone(Act(d, actions[0]), actions[1..]);
    }
  }

  lemma InvokeUndone(w: World, d: Dev, role: Role, fn: Option<nat>)
    requires Undone(d)
    ensures Undone(Invoke(w, d, role, fn))
  {
    if fn.Some? {
      var entered := d.(steps := d.steps + [Call(role, fn.value)]);
      ActionsUndone(entered, w(entered.steps));
    }
  }

  lemma BodyUndone(fx: Fixtures, w: World, d: Dev, c: CaseInfo)
    requires Undone(d)
    ensures Undone(RunBody(fx, w, d, c))
  {
    var d0 := Emit(d.(cur := c.id, failed := false, skipped := false), CaseOpen(c.id));
    var d1 := Invoke(w, d0, GroupSetup, GroupSetupOf(fx, c.id));
    InvokeUndone(w, d0, GroupSetup, GroupSetupOf(fx, c.id));
    InvokeUndone(w, d1, Body, c.fn);
    InvokeUndone(w, Invoke(w, d1, Body, c.fn), GroupTeardown, GroupTeardownOf(fx, c.id));
  }

  lemma CloseUndone(fx: Fixtures, w: World, d: Dev, open: CStr, counts: Counts)
    requires Undone(d)
    ensures Undone(CloseSuite(fx, w, d, open, counts))
  {
    var s := FindSuite(fx.suites, open);
    InvokeUndone(w, d, SuiteTeardown, if s.None? then None else s.value.teardown);
  }

  lemma SwitchUndone(fx: Fixtures, w: World, r: Run, suite: CStr)
    requires Undone(r.dev)
    ensures Undone(SwitchSuite(fx, w, r, suite).dev)
  {
    CloseUndone(fx, w, r.dev, r.open, r.suite);
    var s := FindSuite(fx.suites, suite);
    InvokeUndone(w, CloseSuite(fx, w, r.dev, r.open, r.suite), SuiteSetup, if s.None? then None else s.value.setup);
  }

  lemma {:induction false} CasesUndone(fx: Fixtures, w: World, r: Run, cases: seq<CaseInfo>)
    requires Undone(r.dev)
    ensures Undone(RunCases(fx, w, r, cases).dev)
    decreases |cases|
  {
    if cases == [] {
    } else {
      SwitchUndone(fx, w, r, cases[0].id.suite);
      BodyUndone(fx, w, SwitchSuite(fx, w, r, cases[0].id.suite).dev, cases[0]);
      CasesUndone(fx, w, RunOne(fx, w, r, cases[0]), cases[1..]);
    }
  }

  lemma {:induction false} UndoneEvents(d: Dev)
    requires Undone(d)
    ensures NoDone(Events(d.steps))
    decreases |d.steps|
  {
    if d.steps == [] {
    } else {
      UndoneEvents(d.(steps := d.steps[..|d.steps| - 1]));
    }
  }

  function DoneEvent(total: Counts): Event {
    Done(Wrap32(total.passed), Wrap32(total.failed), Wrap32(total.skipped))
  }

  /** A run's only Done event is its last event. */
  lemma WholeRunEvents(fx: Fixtures, w: World, left: Dev, selected: seq<CaseInfo>) returns (before: seq<Event>)
    ensures NoDone(before)
    ensures Events(WholeRun(fx, w, left, selected).steps) == before + [DoneEvent(RunTotal(fx, w, left, selected))]
  {
    var r := RunCases(fx, w, StartRun(left), selected);
    var closed := CloseSuite(fx, w, r.dev, r.open, r.suite);
    CasesUndone(fx, w, StartRun(left), selected);
    CloseUndone(fx, w, r.dev, r.open, r.suite);
    UndoneEvents(closed);
    EventsSnoc(closed.steps, Say(AllDone(r.total)));
    before := Events(closed.steps);
  }

  lemma {:induction false} FittingNoDone(events: seq<Event>)
    requires NoDone(events)
    ensures NoDone(FittingOnly(events))
  {
    if events == [] {
    } else {
      FittingNoDone(events[1..]);
    }
  }

  /** The total always fits, so what the host hears of a run ends with it. */
  lemma DoneLast(before: seq<Event>, total: Counts)
    requires NoDone(before)
    ensures var carried := CarriedAll(FittingOnly(before + [DoneEvent(total)]));
            UntilDone(carried) == carried && FirstDone(carried) == Some(Wrap32(total.failed))
  {
    var kept := FittingOnly(before);
    FittingSnoc(before, DoneEvent(total));
    FittingNoDone(before);
    CarriedSnoc(kept, DoneEvent(total));
    CarriedNoDone(kept);
    WithoutDone(CarriedAll(kept));
    DoneInConcat(CarriedAll(kept), [DoneEvent(total)]);
  }

  /** A run whose bytes all arrive is reported as the host hears it, in full when every message fits, or decoding
      fails. The process then fails if and only if the announced failed count is not zero, however the bytes were
      cut and whatever the transport does afterwards. */
  lemma RunIsDrained(fx: Fixtures, w: World, left: Dev, selected: seq<CaseInfo>, inputs: seq<Read>)
    requires Flatten(Chunks(inputs)) == Wire(Events(WholeRun(fx, w, left, selected).steps))
    ensures var steps := WholeRun(fx, w, left, selected).steps;
            var r := Fed(0, FrameEvents, [], Chunks(inputs));
            && (r.Ok? ==> UntilDone(Received(inputs)) == Heard(steps)
                          && EndOf(inputs) == Exited(Wrap32(RunTotal(fx, w, left, selected).failed) != 0))
            && (AllFit(Events(steps)) ==> r.Ok? && Heard(steps) == CarriedAll(Events(steps)))
  {
    var total := RunTotal(fx, w, left, selected);
    var steps := WholeRun(fx, w, left, selected).steps;
    var before := WholeRunEvents(fx, w, left, selected);
    RunReachesHost(steps, Chunks(inputs));
    DeliveredIsPrefix(0, FrameEvents, [], Chunks(inputs));
    DoneLast(before, total);
    if AllFit(Events(steps)) {
      FittingOnlyAll(Events(steps));
    }
  }

  lemma {:induction false} EachFrameIsOneEvent(events: seq<Event>)
    requires AllFit(events)
    ensures forall piece :: piece in Pieces(0, [], Wire(events)) ==>
              FrameEvents(piece).Ok? && |FrameEvents(piece).value| == 1
  {
    if events == [] {
    } else {
      var e, rest := events[0], events[1..];
      assert events == [e] + rest && e in events;
      EachFrameIsOneEvent(rest);
      OneFramePerEvent(e, Wire(rest));
    }
  }

  lemma OneFramePerEvent(e: Event, rest: seq<byte>)
    requires Fits(MsgOf(e))
    ensures exists piece :: Pieces(0, [], Emitted(MsgOf(e)) + rest) == [piece] + Pieces(0, [], rest)
                            && FrameEvents(piece) == Ok([Carried(e)])
  {
    FittingMessage(MsgOf(e));
    FramedPayload(EncodePayload(e), rest);
    FramedEvent(e);
  }

  lemma WireEndsAFrame(events: seq<Event>)
    requires AllFit(events) && events != []
    ensures Wire(events) != [] && Wire(events)[|Wire(events)| - 1] == 0
  {
    var before, e := events[..|events| - 1], events[|events| - 1];
    assert events == before + [e] && e in events;
    WireConcat(before, e);
    FittingMessage(MsgOf(e));
  }

  lemma ClosesAFrame(open: seq<byte>, data: seq<byte>)
    requires data != [] && data[|data| - 1] == 0
    ensures Pieces(0, open, data) != []
  {
    var n := |data| - 1;
    assert data == data[..n] + [0];
    PiecesAppend(0, open, data[..n], [0]);
  }

  /** Some frames of a stream yield some events. */
  lemma LateFramesYield(events: seq<Event>, early: seq<seq<byte>>, late: seq<seq<byte>>)
    requires AllFit(events) && Pieces(0, [], Wire(events)) == early + late && late != []
    ensures Interpret(FrameEvents, late).Ok? && Interpret(FrameEvents, late).value != []
  {
    EachFrameIsOneEvent(events);
    forall i | 0 <= i < |late| ensures FrameEvents(late[i]).Ok? && |FrameEvents(late[i]).value| == 1 {
      assert late[i] in early + late;
    }
    InterpretEach(FrameEvents, late);
  }

  lemma WholeStream(events: seq<Event>)
    requires AllFit(events)
    ensures StreamEvents(Wire(events)) == Ok(CarriedAll(events))
  {
    WireMeans(events);
    FittingWire(events);
    FittingOnlyAll(events);
  }

  lemma EarlyFramesYield(early: seq<seq<byte>>, late: seq<seq<byte>>, whole: seq<Event>)
    requires Interpret(FrameEvents, early + late) == Ok(whole)
    requires Interpret(FrameEvents, late).Ok? && Interpret(FrameEvents, late).value != []
    ensures var r := Interpret(FrameEvents, early);
            r.Ok? && |r.value| < |whole| && r.value == whole[..|r.value|]
  {
    InterpretConcat(FrameEvents, early, late);
  }

  lemma LostEndsAFrame(data: seq<byte>, lost: seq<byte>, whole: seq<byte>)
    requires data + lost == whole && lost != [] && whole[|whole| - 1] == 0
    ensures Pieces(0, Residue(0, [], data), lost) != []
    ensures Pieces(0, [], whole) == Pieces(0, [], data) + Pieces(0, Residue(0, [], data), lost)
  {
    assert lost[|lost| - 1] == whole[|whole| - 1];
    ClosesAFrame(Residue(0, [], data), lost);
    PiecesAppend(0, [], data, lost);
  }

  lemma CarriedLength(events: seq<Event>)
    ensures |CarriedAll(events)| == |events|
  {
  }

  /** A stream that breaks off anywhere before its end yields the first events only, and no error. */
  lemma CutStream(events: seq<Event>, data: seq<byte>, lost: seq<byte>)
    requires AllFit(events) && data + lost == Wire(events) && lost != []
    ensures var r := StreamEvents(data);
            r.Ok? && |r.value| < |events| && r.value == CarriedAll(events)[..|r.value|]
  {
    var early, late := Pieces(0, [], data), Pieces(0, Residue(0, [], data), lost);
    assert Wire(events) != [];
    SomeEvents(events);
    WireEndsAFrame(events);
    LostEndsAFrame(data, lost, Wire(events));
    LateFramesYield(events, early, late);
    WholeStream(events);
    CarriedLength(events);
    EarlyFramesYield(early, late, CarriedAll(events));
  }

  lemma SomeEvents(events: seq<Event>)
    requires Wire(events) != []
    ensures events != []
  {
  }

  lemma CutReceived(events: seq<Event>, inputs: seq<Read>, lost: seq<byte>)
    requires AllFit(events) && Flatten(Chunks(inputs)) + lost == Wire(events) && lost != []
    ensures Fed(0, FrameEvents, [], Chunks(inputs)).Ok?
    ensures |Received(inputs)| < |events| && Received(inputs) == CarriedAll(events)[..|Received(inputs)|]
  {
    ChunkingIsInvisible(0, FrameEvents, [], Chunks(inputs));
    DeliveredIsPrefix(0, FrameEvents, [], Chunks(inputs));
    CutStream(events, Flatten(Chunks(inputs)), lost);
  }

  /** The exit status of the process: a returned error counts as a failure. */
  function ExitCode(end: End): int {
    if end == Exited(false) then 0 else 1
  }

  lemma PrefixNoDone(before: seq<Event>, total: Counts, received: seq<Event>)
    requires NoDone(before) && |received| <= |before|
    requires received == CarriedAll(before + [DoneEvent(total)])[..|received|]
    ensures NoDone(received)
  {
    CarriedSnoc(before, DoneEvent(total));
    CarriedNoDone(before);
    CarriedLength(before);
    assert received == CarriedAll(before)[..|received|];
  }

  lemma BrokenOff(before: seq<Event>, total: Counts, inputs: seq<Read>, lost: seq<byte>)
    requires NoDone(before) && AllFit(before + [DoneEvent(total)]) && lost != []
    requires Flatten(Chunks(inputs)) + lost == Wire(before + [DoneEvent(total)])
    ensures EndOf(inputs) == if Closes(inputs) then Exited(false) else Stopped
    ensures UntilDone(Received(inputs)) == Received(inputs) && |Received(inputs)| <= |before|
    ensures Received(inputs) == CarriedAll(before + [DoneEvent(total)])[..|Received(inputs)|]
  {
    CutReceived(before + [DoneEvent(total)], inputs, lost);
    PrefixNoDone(before, total, Received(inputs));
    WithoutDone(Received(inputs));
    EndMeaning(inputs);
  }

  /** However much of a run arrives: the exit status is right if and only if all of it arrived, or the stream
      closed and nothing had failed, or the transport failed and something had. A stream that closes anywhere
      before the end counts as a success, whatever had failed, after a report of its first events. */
  lemma LostTotal(fx: Fixtures, w: World, left: Dev, selected: seq<CaseInfo>, inputs: seq<Read>, lost: seq<byte>)
    requires var events := Events(WholeRun(fx, w, left, selected).steps);
             AllFit(events) && Flatten(Chunks(inputs)) + lost == Wire(events)
    ensures var failed := Wrap32(RunTotal(fx, w, left, selected).failed);
            var carried := CarriedAll(Events(WholeRun(fx, w, left, selected).steps));
            && (lost != [] ==>
                  && EndOf(inputs) == (if Closes(inputs) then Exited(false) else Stopped)
                  && |Received(inputs)| < |carried| && UntilDone(Received(inputs)) == carried[..|Received(inputs)|])
            && (EndOf(inputs) == Exited(failed != 0) <==> lost == [] || (Closes(inputs) && failed == 0))
            && (ExitCode(EndOf(inputs)) == (if failed != 0 then 1 else 0) <==>
                lost == [] || (Closes(inputs) <==> failed == 0))
  {
    if lost == [] {
      EmptyIsNeutral(Flatten(Chunks(inputs)));
      RunIsDrained(fx, w, left, selected, inputs);
    } else {
      var before := WholeRunEvents(fx, w, left, selected);
      BrokenOff(before, RunTotal(fx, w, left, selected), inputs, lost);
    }
  }

  /** The events up to and including the first Done event, and its failed count. */
  lemma {:induction false} FirstDoneMeaning(events: seq<Event>, k: nat)
    requires k < |events| && events[k].Done? && forall i :: 0 <= i < k ==> !events[i].Done?
    ensures FirstDone(events) == Some(events[k].failed) && UntilDone(events) == events[..k + 1]
  {
    if k == 0 {
    } else {
      FirstDoneMeaning(events[1..], k - 1);
      assert events[..k + 1] == [events[0]] + events[1..][..k];
    }
  }

  ghost predicate AllData(inputs: seq<Read>) {
    forall i :: 0 <= i < |inputs| ==> inputs[i].Data? && inputs[i].bytes != []
  }

  /** Reading stops at the first read without bytes: the end of the stream or a broken pipe closes it, any other
      error or the deadline does not. */
  lemma {:induction false} ClosesMeaning(data: seq<Read>, last: Read, later: seq<Read>)
    requires AllData(data) && (last.Data? ==> last.bytes == [])
    ensures Closes(data + [last] + later) <==> last.Data? || last.Broken?
    ensures Chunks(data + [last] + later) == Chunks(data) && |Chunks(data)| == |data|
    ensures forall i :: 0 <= i < |data| ==> Chunks(data)[i] == data[i].bytes
    ensures Closes(data)
  {
    if data == [] {
      assert [] + [last] + later == [last] + later;
    } else {
      assert (data + [last] + later)[1..] == data[1..] + [last] + later;
      ClosesMeaning(data[1..], last, later);
    }
  }

  /** Without a Done event the process ends well if and only if every chunk decodes and the stream closes. */
  lemma EndMeaning(inputs: seq<Read>)
    requires NoDone(Received(inputs))
    ensures EndOf(inputs) == Exited(false) <==> Fed(0, FrameEvents, [], Chunks(inputs)).Ok? && Closes(inputs)
    ensures EndOf(inputs) != Exited(false) ==> EndOf(inputs) == Stopped
  {
    WithoutDone(Received(inputs));
  }
}
