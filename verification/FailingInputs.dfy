/** Concrete inputs at which the reports and the totals of a run disagree. */
module FailingInputs {
  import opened Protocol
  import opened Framing
  import opened Payload
  import opened HostCodec
  import opened DeviceWire
  import opened CaseOrder
  import opened Sorting
  import opened RunnerModel
  import opened RunVisits
  import opened TextTools
  import opened DeviceRun
  import opened Discovery
  import opened Supervisor
  import opened Filters
  import opened Isolation
  import opened Drain
  import opened JunitRows
  import opened JunitAgreement
  import opened JunitDevice
  import opened R = Reporters

  /** No suites or groups are registered. */
  const BARE := Fixtures([], [])

  /** Every callback aborts its case, without a word. */
  function Aborting(): World {
    (steps: seq<Step>) => [Abort]
  }

  function BareStatus(c: CaseInfo): TestStatus {
    if c.fn.Some? then Failed else Passed
  }

  function SuiteEndOf(suite: CStr, c: Counts): Event {
    SuiteEnd(Chars(suite), Wrap32(c.passed), Wrap32(c.failed), Wrap32(c.skipped))
  }

  lemma AbortingInvoke(d: Dev, role: Role, fn: Option<nat>)
    ensures var after := Invoke(Aborting(), d, role, fn);
            && Events(after.steps) == Events(d.steps) && after.cur == d.cur && after.skipped == d.skipped
            && after.failed == (d.failed || fn.Some?)
  {
    if fn.Some? {
      var entered := d.(steps := d.steps + [Call(role, fn.value)]);
      EventsSnoc(d.steps, Call(role, fn.value));
      EmptyIsNeutral(Events(d.steps));
      OneAction(entered, Abort);
    }
  }

  lemma OneAction(d: Dev, a: Action)
    ensures ActAll(d, [a]) == Act(d, a)
  {
    var none: seq<Action> := [a][1..];
    assert none == [] && ActAll(Act(d, a), none) == Act(d, a);
  }

  lemma BareBody(d: Dev, c: CaseInfo)
    ensures var after := RunBody(BARE, Aborting(), d, c);
            && Events(after.steps) == Events(d.steps) + [CaseStart(Chars(c.id.suite), Leaf(c.id))]
            && after.cur == c.id && Outcome(after) == BareStatus(c)
  {
    var d0 := Emit(d.(cur := c.id, failed := false, skipped := false), CaseOpen(c.id));
    EventsSnoc(d.steps, Say(CaseOpen(c.id)));
    assert GroupSetupOf(BARE, c.id) == None && GroupTeardownOf(BARE, c.id) == None;
    AbortingInvoke(d0, Body, c.fn);
  }

  lemma BareClose(d: Dev, open: CStr, counts: Counts)
    ensures Events(CloseSuite(BARE, Aborting(), d, open, counts).steps) ==
            Events(d.steps) + if open.None? then [] else [SuiteEndOf(open, counts)]
  {
    EmptyIsNeutral(Events(d.steps));
    if open.Some? {
      assert TeardownOf(BARE, open) == None;
      EventsSnoc(d.steps, Say(SuiteClose(open, counts)));
    }
  }

  lemma BareOpen(d: Dev, suite: CStr)
    ensures Events(OpenSuite(BARE, Aborting(), d, suite).steps) == Events(d.steps) + [SuiteStart(Chars(suite))]
  {
    assert SetupOf(BARE, suite) == None;
    EventsSnoc(d.steps, Say(SuiteOpen(suite)));
  }

  function Closing(open: CStr, counts: Counts): seq<Event> {
    if open.None? then [] else [SuiteEndOf(open, counts)]
  }

  /** One case of a suite of its own, when no suite is open or another one. */
  lemma BareCase(r: Run, c: CaseInfo)
    requires r.open != c.id.suite
    ensures var after := RunOne(BARE, Aborting(), r, c);
            && after.open == c.id.suite && after.dev.cur == c.id && after.total == Bump(r.total, BareStatus(c))
            && after.suite == Bump(ZERO, BareStatus(c))
            && Events(after.dev.steps) ==
               Events(r.dev.steps) + Closing(r.open, r.suite)
               + [SuiteStart(Chars(c.id.suite))] + [CaseStart(Chars(c.id.suite), Leaf(c.id))]
               + [CaseEnd(Chars(c.id.suite), Leaf(c.id), BareStatus(c))]
    ensures Outcome(RunBody(BARE, Aborting(), SwitchSuite(BARE, Aborting(), r, c.id.suite).dev, c)) == BareStatus(c)
  {
    StrCmpLaws(r.open, c.id.suite);
    var closed := CloseSuite(BARE, Aborting(), r.dev, r.open, r.suite);
    var up := OpenSuite(BARE, Aborting(), closed, c.id.suite);
    var body := RunBody(BARE, Aborting(), up, c);
    BareClose(r.dev, r.open, r.suite);
    BareOpen(closed, c.id.suite);
    BareBody(up, c);
    EventsSnoc(body.steps, Say(CaseClose(c.id, Outcome(body))));
  }

  lemma EmitsDone(d: Dev, total: Counts)
    ensures Events(Emit(d, AllDone(total)).steps) == Events(d.steps) + [DoneEvent(total)]
  {
    EventsSnoc(d.steps, Say(AllDone(total)));
  }

  lemma BareFinish(r: Run)
    requires r.open.Some?
    ensures Events(FinishRun(BARE, Aborting(), r).steps) ==
            Events(r.dev.steps) + [SuiteEndOf(r.open, r.suite)] + [DoneEvent(r.total)]
  {
    BareClose(r.dev, r.open, r.suite);
    EmitsDone(CloseSuite(BARE, Aborting(), r.dev, r.open, r.suite), r.total);
  }

  /** The five events of a bare run of one case. */
  function BareEvents(c: CaseInfo): seq<Event> {
    [SuiteStart(Chars(c.id.suite)), CaseStart(Chars(c.id.suite), Leaf(c.id)),
     CaseEnd(Chars(c.id.suite), Leaf(c.id), BareStatus(c)),
     SuiteEndOf(c.id.suite, Bump(ZERO, BareStatus(c))), DoneEvent(Bump(ZERO, BareStatus(c)))]
  }

  lemma BareRun(left: Dev, c: CaseInfo)
    requires c.id.suite.Some?
    ensures Events(WholeRun(BARE, Aborting(), left, [c]).steps) == BareEvents(c)
    ensures RunTotal(BARE, Aborting(), left, [c]) == Bump(ZERO, BareStatus(c))
    ensures Outcomes(BARE, Aborting(), StartRun(left), [c]) == [BareStatus(c)]
  {
    var start := StartRun(left);
    assert start.dev.steps[..0] == [] && [c][1..] == [];
    BareCase(start, c);
    assert RunCases(BARE, Aborting(), start, [c]) == RunOne(BARE, Aborting(), start, c);
    BareFinish(RunOne(BARE, Aborting(), start, c));
  }

  lemma {:induction false} NothingReported(events: seq<Event>)
    requires forall e :: e in events ==> KeyOf(e) == None
    ensures Table(events) == [] && R.Ends(events) == ZERO
  {
    if events == [] {
    } else {
      NothingReported(events[..|events| - 1]);
    }
  }

  /** Messages that the device gives up without a byte leave the rest of the stream whole. */
  lemma {:induction false} GivenUp(events: seq<Event>)
    requires forall e :: e in events ==> Fits(MsgOf(e)) || Emitted(MsgOf(e)) == []
    ensures Wire(events) == Wire(FittingOnly(events)) && AllFit(FittingOnly(events))
    ensures forall e :: e in FittingOnly(events) ==> e in events && Fits(MsgOf(e))
  {
    if events == [] {
    } else {
      var e, rest := events[0], events[1..];
      assert events == [e] + rest && e in events;
      GivenUp(rest);
      EmptyIsNeutral(Wire(rest));
      EmptyIsNeutral(FittingOnly(rest));
      if Fits(MsgOf(e)) {
        assert ([e] + FittingOnly(rest))[1..] == FittingOnly(rest);
      }
    }
  }

  /** Suite and leaf are a little too long: the device gives up each message that carries both. */
  predicate Vanishes(id: Ident) {
    id.suite.Some? && 366 <= |Clamp(id.suite.value)| + |Leaf(id)| <= 378
  }

  lemma VanishingMessage(id: Ident, m: Msg)
    requires Vanishes(id) && m.a == id.suite.value && m.b == Leaf(id) && m.c == ""
    ensures !Fits(m) && Emitted(m) == []
  {
    var first := Put(Header(m.kind), m.a);
    assert first == Header(m.kind) + StrField(m.a);
    assert Put(first, m.b) == first + StrField(m.b);
  }

  lemma VanishingEvent(c: CaseInfo, e: Event)
    requires Vanishes(c.id) && e in BareEvents(c)
    ensures if Fits(MsgOf(e)) then KeyOf(e) == None else Emitted(MsgOf(e)) == []
  {
    if e.CaseStart? || e.CaseEnd? {
      VanishingMessage(c.id, MsgOf(e));
    }
  }

  /** A stream whose events that fit concern no row, and whose others cost no byte. */
  lemma NothingHeard(events: seq<Event>)
    requires forall e :: e in events ==> if Fits(MsgOf(e)) then KeyOf(e) == None else Emitted(MsgOf(e)) == []
    ensures StreamEvents(Wire(events)).Ok?
    ensures Table(CarriedAll(FittingOnly(events))) == [] && R.Ends(CarriedAll(FittingOnly(events))) == ZERO
  {
    GivenUp(events);
    WholeStream(FittingOnly(events));
    KeylessHeard(events);
  }

  lemma VanishedRun(left: Dev, c: CaseInfo)
    requires Vanishes(c.id)
    ensures var steps := WholeRun(BARE, Aborting(), left, [c]).steps;
            StreamEvents(Wire(Events(steps))).Ok? && Table(Heard(steps)) == [] && R.Ends(Heard(steps)) == ZERO
  {
    BareRun(left, c);
    forall e | e in BareEvents(c) ensures if Fits(MsgOf(e)) then KeyOf(e) == None else Emitted(MsgOf(e)) == [] {
      VanishingEvent(c, e);
    }
    NothingHeard(BareEvents(c));
  }

  lemma FailedAlone(left: Dev, c: CaseInfo)
    requires c.id.suite.Some? && c.fn.Some?
    ensures RunTotal(BARE, Aborting(), left, [c]) == Counts(0, 1, 0)
  {
    BareRun(left, c);
  }

  lemma Decodes(steps: seq<Step>, inputs: seq<Read>)
    requires Flatten(Chunks(inputs)) == Wire(Events(steps)) && StreamEvents(Wire(Events(steps))).Ok?
    ensures Arrived(steps, inputs)
  {
    ChunkingIsInvisible(0, FrameEvents, [], Chunks(inputs));
  }

  lemma ArrivedEnds(fx: Fixtures, w: World, left: Dev, selected: seq<CaseInfo>, inputs: seq<Read>)
    requires Arrived(WholeRun(fx, w, left, selected).steps, inputs)
    ensures UntilDone(Received(inputs)) == Heard(WholeRun(fx, w, left, selected).steps)
    ensures EndOf(inputs) == Exited(Wrap32(RunTotal(fx, w, left, selected).failed) != 0)
  {
    RunIsDrained(fx, w, left, selected, inputs);
  }

  lemma SameReport(heard: seq<Event>, reported: seq<Event>)
    requires reported == heard && Table(heard) == [] && R.Ends(heard) == ZERO
    ensures Table(reported) == [] && R.Ends(reported) == ZERO
  {
  }

  lemma OneFailureShows(end: End, total: Counts)
    requires end == Exited(Wrap32(total.failed) != 0) && total == Counts(0, 1, 0)
    ensures end == Exited(true)
  {
  }

  /** A failing input: a case that fails under such names leaves no trace in the table nor in the console's
      counters, although the host receives the whole run and exits with a failure. */
  lemma VanishedCase(left: Dev, c: CaseInfo, inputs: seq<Read>)
    requires Vanishes(c.id) && c.fn.Some?
    requires Flatten(Chunks(inputs)) == Wire(Events(WholeRun(BARE, Aborting(), left, [c]).steps))
    ensures RunTotal(BARE, Aborting(), left, [c]) == Counts(0, 1, 0) && EndOf(inputs) == Exited(true)
    ensures Table(UntilDone(Received(inputs))) == [] && R.Ends(UntilDone(Received(inputs))) == ZERO
  {
    FailedAlone(left, c);
    VanishedRun(left, c);
    var fx, w, selected := BARE, Aborting(), [c];
    Decodes(WholeRun(fx, w, left, selected).steps, inputs);
    ArrivedEnds(fx, w, left, selected, inputs);
    SameReport(Heard(WholeRun(fx, w, left, selected).steps), UntilDone(Received(inputs)));
    OneFailureShows(EndOf(inputs), RunTotal(fx, w, left, selected));
  }

  lemma KeylessHeard(events: seq<Event>)
    requires forall e :: e in FittingOnly(events) ==> KeyOf(e) == None
    ensures Table(CarriedAll(FittingOnly(events))) == [] && R.Ends(CarriedAll(FittingOnly(events))) == ZERO
  {
    var carried := CarriedAll(FittingOnly(events));
    forall e | e in carried ensures KeyOf(e) == None {
      var i :| 0 <= i < |carried| && carried[i] == e;
      assert FittingOnly(events)[i] in FittingOnly(events);
    }
    NothingReported(carried);
  }

  function Xs(n: nat): Str {
    seq(n, i => 'x')
  }

  /** Such names exist. */
  lemma VanishingNames()
    ensures Vanishes(Ident(Some(Xs(255)), Some("g"), Some(Xs(113))))
  {
  }

  /** Reading everything at once. */
  lemma AtOnce(bytes: seq<byte>)
    requires bytes != []
    ensures Flatten(Chunks([Data(bytes)])) == bytes
  {
    var inputs := [Data(bytes)];
    var rest: seq<Read> := inputs[1..];
    assert rest == [] && Chunks(rest) == [];
    assert Chunks(inputs) == [bytes];
    var none: seq<seq<byte>> := [bytes][1..];
    assert none == [] && Flatten(none) == [];
    EmptyIsNeutral(bytes);
  }

  lemma ArrivesAtOnce(fx: Fixtures, w: World, left: Dev, selected: seq<CaseInfo>) returns (inputs: seq<Read>)
    requires AllFit(Events(WholeRun(fx, w, left, selected).steps))
    ensures Arrived(WholeRun(fx, w, left, selected).steps, inputs)
  {
    var events := Events(WholeRun(fx, w, left, selected).steps);
    var before := WholeRunEvents(fx, w, left, selected);
    inputs := [Data(Wire(events))];
    WireEndsAFrame(events);
    AtOnce(Wire(events));
    RunIsDrained(fx, w, left, selected, inputs);
  }

  lemma NoFailuresAborting()
    ensures QuietSuites(Aborting())
  {
  }

  lemma RowsAtMost(fx: Fixtures, w: World, left: Dev, selected: seq<CaseInfo>, key: Key)
    requires QuietSuites(w) && forall k :: k in KeysFor(selected) ==> k == key
    ensures |Table(Heard(WholeRun(fx, w, left, selected).steps))| <= 1
  {
    var events := Heard(WholeRun(fx, w, left, selected).steps);
    TableIsLastWord(events);
    RunHasTheirKeys(fx, w, left, selected);
    KeySetSize(Keys(events));
    SubsetSize(KeySet(Keys(events)), {key});
  }

  /** A suite whose name the format cuts. */
  function LongSuite(c: Char8): CaseInfo {
    CaseInfo(Ident(Some(Xs(255) + [c]), Some("g"), Some("n")), None, [])
  }

  lemma LongSuitesMeet(c: Char8)
    ensures KeyFor(LongSuite(c).id) == Key(Xs(255), "g.n") && NamesFit(LongSuite(c).id)
  {
    assert (Xs(255) + [c])[..255] == Xs(255);
  }

  lemma RowsReported(fx: Fixtures, w: World, left: Dev, selected: seq<CaseInfo>, inputs: seq<Read>, key: Key)
    requires Arrived(WholeRun(fx, w, left, selected).steps, inputs)
    requires QuietSuites(w) && forall k :: k in KeysFor(selected) ==> k == key
    ensures |Table(UntilDone(Received(inputs)))| <= 1
  {
    ArrivedEnds(fx, w, left, selected, inputs);
    RowsAtMost(fx, w, left, selected, key);
  }

  lemma SuitesMeet()
    ensures LongSuite('a').id != LongSuite('b').id
    ensures forall k :: k in KeysFor([LongSuite('a'), LongSuite('b')]) ==> k == Key(Xs(255), "g.n")
  {
    assert (Xs(255) + ['a'])[255] != (Xs(255) + ['b'])[255];
    LongSuitesMeet('a');
    LongSuitesMeet('b');
  }

  /** A failing input: two cases in two suites whose names agree in their first 255 characters. Everything fits and
      arrives, but the table has one row at most. */
  lemma MergedSuites(left: Dev) returns (inputs: seq<Read>)
    ensures var selected := [LongSuite('a'), LongSuite('b')];
            && LongSuite('a').id != LongSuite('b').id
            && Arrived(WholeRun(BARE, Aborting(), left, selected).steps, inputs)
            && |Table(UntilDone(Received(inputs)))| <= 1
  {
    var a, b := LongSuite('a'), LongSuite('b');
    SuitesMeet();
    LongSuitesMeet('a');
    LongSuitesMeet('b');
    BareTwo(left, a, b);
    inputs := ArrivesAtOnce(BARE, Aborting(), left, [a, b]);
    NoFailuresAborting();
    RowsReported(BARE, Aborting(), left, [a, b], inputs, Key(Xs(255), "g.n"));
  }

  lemma AllFitConcat(a: seq<Event>, b: seq<Event>)
    requires AllFit(a) && AllFit(b)
    ensures AllFit(a + b)
  {
  }

  lemma SomeFit(c: CaseInfo, open: CStr, counts: Counts)
    requires NamesFit(c.id)
    ensures AllFit(Closing(open, counts)) && AllFit([SuiteStart(Chars(c.id.suite))]) && AllFit([DoneEvent(counts)])
    ensures AllFit([CaseStart(Chars(c.id.suite), Leaf(c.id))])
    ensures AllFit([CaseEnd(Chars(c.id.suite), Leaf(c.id), BareStatus(c))])
  {
  }

  lemma BareCaseFits(r: Run, c: CaseInfo)
    requires r.open != c.id.suite && NamesFit(c.id) && AllFit(Events(r.dev.steps))
    ensures AllFit(Events(RunOne(BARE, Aborting(), r, c).dev.steps))
  {
    var suite, leaf := Chars(c.id.suite), Leaf(c.id);
    var e1 := Events(r.dev.steps) + Closing(r.open, r.suite);
    BareCase(r, c);
    SomeFit(c, r.open, r.suite);
    AllFitConcat(Events(r.dev.steps), Closing(r.open, r.suite));
    AllFitConcat(e1, [SuiteStart(suite)]);
    AllFitConcat(e1 + [SuiteStart(suite)], [CaseStart(suite, leaf)]);
    AllFitConcat(e1 + [SuiteStart(suite)] + [CaseStart(suite, leaf)], [CaseEnd(suite, leaf, BareStatus(c))]);
  }

  lemma OneCaseRun(left: Dev, c: CaseInfo)
    ensures RunCases(BARE, Aborting(), StartRun(left), [c]) == RunOne(BARE, Aborting(), StartRun(left), c)
  {
    assert [c][1..] == [];
  }

  lemma BareTwo(left: Dev, a: CaseInfo, b: CaseInfo)
    requires a.id.suite.Some? && b.id.suite.Some? && a.id.suite != b.id.suite && NamesFit(a.id) && NamesFit(b.id)
    ensures AllFit(Events(WholeRun(BARE, Aborting(), left, [a, b]).steps))
  {
    var start := StartRun(left);
    var r1 := RunOne(BARE, Aborting(), start, a);
    var r2 := RunOne(BARE, Aborting(), r1, b);
    assert start.dev.steps[..0] == [] && [a, b] == [a] + [b];
    BareCase(start, a);
    BareCaseFits(start, a);
    BareCase(r1, b);
    BareCaseFits(r1, b);
    OneCaseRun(left, a);
    RunCasesSnoc(BARE, Aborting(), start, [a], b);
    BareFinish(r2);
    SomeFit(b, r2.open, r2.suite);
    SomeFit(b, r2.open, r2.total);
    AllFitConcat(Events(r2.dev.steps), Closing(r2.open, r2.suite));
    AllFitConcat(Events(r2.dev.steps) + Closing(r2.open, r2.suite), [DoneEvent(r2.total)]);
  }

  /** A name that the leaf buffer cuts. */
  function LongName(c: Char8, fn: Option<nat>): CaseInfo {
    CaseInfo(Ident(Some("s"), Some("g"), Some(Xs(126) + [c])), fn, [])
  }

  /** The child of a case in a bare run, with this exit. */
  function BareChild(left: Dev, c: CaseInfo, exit: Exit): Child {
    Child(CarriedAll(Events(WholeRun(BARE, Aborting(), left, [c]).steps)), Eof, exit)
  }

  lemma LongNameFacts(c: Char8)
    requires !IsSpace(c)
    ensures var t := CaseOf(LongName(c, None).id);
            && Nameable(LongName(c, None).id) && |CaseLeaf(t)| > LEAF_MAX && SentKey(t) == Key("s", "g." + Xs(125))
  {
    var id := LongName(c, None).id;
    var leaf: Str := "g." + (Xs(126) + [c]);
    assert CaseLeaf(CaseOf(id)) == leaf && leaf[..127] == "g." + Xs(125);
    assert Triple(id) == "s." + leaf;
  }

  lemma BareFits(left: Dev, c: CaseInfo)
    requires c.id.suite.Some? && NamesFit(c.id)
    ensures AllFit(Events(WholeRun(BARE, Aborting(), left, [c]).steps))
  {
    var start := StartRun(left);
    var r := RunOne(BARE, Aborting(), start, c);
    assert start.dev.steps[..0] == [];
    BareCase(start, c);
    BareCaseFits(start, c);
    OneCaseRun(left, c);
    BareFinish(r);
    SomeFit(c, r.open, r.suite);
    SomeFit(c, r.open, r.total);
    AllFitConcat(Events(r.dev.steps), Closing(r.open, r.suite));
    AllFitConcat(Events(r.dev.steps) + Closing(r.open, r.suite), [DoneEvent(r.total)]);
  }

  /** What such a child is to the supervisor: it ran its case, and speaks of the name it sends. */
  lemma BareChildFacts(left: Dev, c: CaseInfo, exit: Exit)
    requires Nameable(c.id) && NamesFit(c.id)
    ensures var child := BareChild(left, c, exit);
            && Orderly(child.events, SentKey(CaseOf(c.id))) && EndStatuses(child.events) == [BareStatus(c)]
            && Ran(child.events) && (Crashed(child) <==> !exit.ok)
  {
    var steps := WholeRun(BARE, Aborting(), left, [c]).steps;
    BareFits(left, c);
    FittingOnlyAll(Events(steps));
    NoFailuresAborting();
    OneCaseSpeaks(BARE, Aborting(), left, c);
    SentKeyFits(c.id);
    BareRun(left, c);
    EndsOfRun(BARE, Aborting(), left, [c]);
    CarriedEnds(Events(steps));
    RunSendsStart(BARE, Aborting(), left, c);
  }

  /** Such a child is a clean device child, whatever else is registered. */
  lemma BareChildIsClean(left: Dev, c: CaseInfo, registered: seq<CaseInfo>)
    requires Nameable(c.id) && NamesFit(c.id) && DistinctIds(CaseId, registered) && c in registered
    ensures CleanChild(BareChild(left, c, Exit(true, "")),
                       ChildSteps(BARE, Aborting(), left, registered, None, CaseOf(c.id)))
  {
    var sorted := Sort(CaseId, registered);
    SortIsStableSort(CaseId, registered);
    SortedIsDistinct(registered);
    assert c in sorted;
    var k :| 0 <= k < |sorted| && sorted[k] == c;
    NamedCaseAlone(BARE, sorted, k);
    assert FilterOf(Env(None, c.id.suite, c.id.group, c.id.name)) == ByCase(c.id.suite, c.id.group, c.id.name);
    var steps := WholeRun(BARE, Aborting(), left, [c]).steps;
    assert ChildSteps(BARE, Aborting(), left, registered, None, CaseOf(c.id)) == steps;
    BareFits(left, c);
    Whole(Wire(Events(steps)));
    RunReachesHost(steps, [Wire(Events(steps))]);
  }

  lemma Whole(bytes: seq<byte>)
    ensures Flatten([bytes]) == bytes
  {
    var none: seq<seq<byte>> := [bytes][1..];
    assert none == [] && Flatten(none) == [];
    EmptyIsNeutral(bytes);
  }

  /** A failing input: two distinct discoverable cases, the first failing, run in clean device children. The table
      has one row and no failure. */
  lemma LongNamesMeet(left: Dev, abort: bool)
    ensures var a, b := LongName('a', Some(0)), LongName('b', None);
            var first, second := BareChild(left, a, Exit(true, "")), BareChild(left, b, Exit(true, ""));
            var s := Supervised([CaseOf(a.id), CaseOf(b.id)], [first, second], abort);
            && a.id != b.id && Nameable(a.id) && Nameable(b.id)
            && CleanChild(first, ChildSteps(BARE, Aborting(), left, [a, b], None, CaseOf(a.id)))
            && CleanChild(second, ChildSteps(BARE, Aborting(), left, [a, b], None, CaseOf(b.id)))
            && s.counts == Counts(1, 1, 0) && |Table(s.reported)| == 1 && CountFailed(Table(s.reported)) == 0
  {
    var a, b := LongName('a', Some(0)), LongName('b', None);
    LongNameFacts('a');
    LongNameFacts('b');
    assert (Xs(126) + ['a'])[126] != (Xs(126) + ['b'])[126];
    assert a.id == LongName('a', None).id && a.id != b.id && DistinctIds(CaseId, [a, b]);
    BareChildFacts(left, a, Exit(true, ""));
    BareChildFacts(left, b, Exit(true, ""));
    BareChildIsClean(left, a, [a, b]);
    BareChildIsClean(left, b, [a, b]);
    SharedRow(CaseOf(a.id), CaseOf(b.id), BareChild(left, a, Exit(true, "")), BareChild(left, b, Exit(true, "")), abort);
  }

  /** A failing input: a device child sends the whole run of a case with a long name that passes, and then exits
      with another status. The case has two rows. */
  lemma LongNameCrashes(left: Dev, shown: Str, abort: bool)
    ensures var c := LongName('a', None);
            var s := Supervised([CaseOf(c.id)], [BareChild(left, c, Exit(false, shown))], abort);
            Nameable(c.id) && s.counts == Counts(0, 1, 0) && |Table(s.reported)| == 2
  {
    var c := LongName('a', None);
    LongNameFacts('a');
    BareChildFacts(left, c, Exit(false, shown));
    CrashOfLongName(CaseOf(c.id), BareChild(left, c, Exit(false, shown)), abort);
  }

  /** A suite whose teardown reports a failed assertion. */
  const TORN := Fixtures([SuiteInfo(Some("s"), None, Some(0), [])], [])

  function Complaining(): World {
    (steps: seq<Step>) => [Fail(None, 0, None)]
  }

  const PLAIN := CaseInfo(Ident(Some("s"), Some("g"), Some("n")), None, [])
  const FRESH := Dev([], Ident(None, None, None), false, false)

  lemma TornCase()
    ensures var r := RunCases(TORN, Complaining(), StartRun(FRESH), [PLAIN]);
            && r.open == Some("s") && r.dev.cur == PLAIN.id && r.total == Counts(1, 0, 0) && r.suite == Counts(1, 0, 0)
            && r.dev.steps == [Say(Banner), Say(SuiteOpen(Some("s"))), Say(CaseOpen(PLAIN.id)),
                               Say(CaseClose(PLAIN.id, Passed))]
    ensures Outcomes(TORN, Complaining(), StartRun(FRESH), [PLAIN]) == [Passed]
  {
    assert [PLAIN][1..] == [];
    assert SetupOf(TORN, Some("s")) == None;
  }

  lemma ComplainingTeardown(d: Dev)
    ensures var after := Invoke(Complaining(), d, SuiteTeardown, Some(0));
            after.steps == d.steps + [Call(SuiteTeardown, 0)] + [Say(Failure(d.cur, None, 0, "fail"))]
  {
    OneAction(d.(steps := d.steps + [Call(SuiteTeardown, 0)]), Fail(None, 0, None));
  }

  /** The timeline of a run whose only case passes and whose suite's teardown then reports a failure. */
  function TornSteps(): seq<Step> {
    [Say(Banner), Say(SuiteOpen(Some("s"))), Say(CaseOpen(PLAIN.id)), Say(CaseClose(PLAIN.id, Passed)),
     Call(SuiteTeardown, 0), Say(Failure(PLAIN.id, None, 0, "fail")),
     Say(SuiteClose(Some("s"), Counts(1, 0, 0))), Say(AllDone(Counts(1, 0, 0)))]
  }

  lemma TornRun()
    ensures WholeRun(TORN, Complaining(), FRESH, [PLAIN]).steps == TornSteps()
  {
    TornCase();
    ComplainingTeardown(RunCases(TORN, Complaining(), StartRun(FRESH), [PLAIN]).dev);
    assert TeardownOf(TORN, Some("s")) == Some(0);
  }

  lemma TornTravels(k: nat)
    requires k < |TornSteps()|
    ensures TravelsOrSilent(TornSteps()[k])
  {
    assert Leaf(PLAIN.id) == "g.n";
  }

  lemma TornFacts(d: Dev)
    requires d.steps == [Say(Banner), Say(SuiteOpen(Some("s"))), Say(CaseOpen(PLAIN.id)), Say(CaseClose(PLAIN.id, Passed))]
    ensures Tame(d.steps)
  {
    var s1 := [Say(Banner)];
    var s2 := s1 + [Say(SuiteOpen(Some("s")))];
    var s3 := s2 + [Say(CaseOpen(PLAIN.id))];
    assert s1 == [] + s1 && d.steps == s3 + [Say(CaseClose(PLAIN.id, Passed))];
    SpotSnoc([], Say(Banner));
    SpotSnoc(s1, Say(SuiteOpen(Some("s"))));
    SpotSnoc(s2, Say(CaseOpen(PLAIN.id)));
    SpotSnoc(s3, Say(CaseClose(PLAIN.id, Passed)));
  }

  predicate TravelsOrSilent(step: Step) {
    step.Say? && EventOfNote(step.note).Some? ==> Travels(step.note)
  }

  lemma {:induction false} AllTravel(steps: seq<Step>)
    requires forall k :: 0 <= k < |steps| ==> TravelsOrSilent(steps[k])
    ensures AllFit(Events(steps))
  {
    if steps == [] {
    } else {
      assert TravelsOrSilent(steps[|steps| - 1]);
      AllTravel(steps[..|steps| - 1]);
    }
  }

  lemma TornNames()
    ensures RowsApart([PLAIN]) && KeyFor(FRESH.cur) !in KeysFor([PLAIN])
    ensures Lands(PLAIN.id, Fail(None, 0, None))
  {
    var leaf := Leaf(PLAIN.id);
    assert leaf == "g.n" && KeysFor([PLAIN])[0] == KeyFor(PLAIN.id);
    assert KeyFor(PLAIN.id).suite == "s" && KeyFor(FRESH.cur).suite == "";
  }

  lemma TornComplains(d: Dev)
    requires d.cur == PLAIN.id
    ensures exists a :: a in Complaining()(d.steps + [Call(SuiteTeardown, 0)]) && Lands(d.cur, a)
  {
    TornNames();
    assert Fail(None, 0, None) in Complaining()(d.steps + [Call(SuiteTeardown, 0)]);
  }

  lemma TornFits()
    ensures AllFit(Events(WholeRun(TORN, Complaining(), FRESH, [PLAIN]).steps))
  {
    TornRun();
    forall k | 0 <= k < |TornSteps()| ensures TravelsOrSilent(TornSteps()[k]) {
      TornTravels(k);
    }
    AllTravel(TornSteps());
  }

  /** A failing input: one case passes, and its suite's teardown reports a failed assertion. The totals announce no
      failure, the table counts one. */
  lemma TornSuite() returns (inputs: seq<Read>)
    ensures Arrived(WholeRun(TORN, Complaining(), FRESH, [PLAIN]).steps, inputs)
    ensures RunTotal(TORN, Complaining(), FRESH, [PLAIN]).failed == 0
    ensures |Table(UntilDone(Received(inputs)))| == 1 && CountFailed(Table(UntilDone(Received(inputs)))) == 1
  {
    var d := RunCases(TORN, Complaining(), StartRun(FRESH), [PLAIN]).dev;
    TornCase();
    TornFacts(d);
    TornFits();
    inputs := ArrivesAtOnce(TORN, Complaining(), FRESH, [PLAIN]);
    TornNames();
    TornComplains(d);
    assert TeardownOf(TORN, Some("s")) == Some(0);
    LateFailure(TORN, Complaining(), FRESH, [PLAIN], 0, inputs);
  }
}
