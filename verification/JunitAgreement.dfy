/** When the JUnit table of an in-process run has one row per case and the failures the totals count. */
module JunitAgreement {
  import opened Protocol
  import opened Framing
  import opened HostCodec
  import opened DeviceWire
  import opened CaseOrder
  import opened RunnerModel
  import opened RunVisits
  import opened DeviceRun
  import opened Drain
  import opened JunitRows
  import opened R = Reporters

  /** Where a timeline is: before every case, inside one, or behind one that closed with this status. */
  datatype Spot = Early | Inside | After(status: TestStatus)

  function SpotOf(steps: seq<Step>): Spot {
    if steps == [] then Early
    else
      var last := steps[|steps| - 1];
      if last.Say? && last.note.CaseOpen? then Inside
      else if last.Say? && last.note.CaseClose? then After(last.note.status)
      else SpotOf(steps[..|steps| - 1])
  }

  /** A failure whose message fits. */
  predicate Accuses(step: Step) {
    step.Say? && step.note.Failure? && Travels(step.note)
  }

  /** A failure that reaches the host is reported only inside a case, or behind a case that failed anyway: never by
      a suite fixture before the first case, or behind a case that closed with another status. */
  predicate Tame(steps: seq<Step>) {
    if steps == [] then true
    else
      var before, last := steps[..|steps| - 1], steps[|steps| - 1];
      Tame(before) && (Accuses(last) ==> SpotOf(before) == Inside || SpotOf(before) == After(Failed))
  }

  lemma SpotSnoc(steps: seq<Step>, step: Step)
    ensures SpotOf(steps + [step]) ==
            if step.Say? && step.note.CaseOpen? then Inside
            else if step.Say? && step.note.CaseClose? then After(step.note.status)
            else SpotOf(steps)
    ensures Tame(steps + [step]) <==>
            Tame(steps) && (Accuses(step) ==> SpotOf(steps) == Inside || SpotOf(steps) == After(Failed))
  {
    assert (steps + [step])[..|steps|] == steps;
  }

  /** The table so far, kept by case: outcomes, what the rows say, and whether a row came before every case. */
  datatype Book = Book(keys: seq<Key>, outcomes: seq<TestStatus>, finals: seq<TestStatus>, early: bool)

  /** A failure outside every case strikes the last case's row, or makes a row of its own before the first. */
  function Struck(b: Book): Book
    requires |b.keys| == |b.finals|
  {
    if b.keys == [] then Book([], b.outcomes, [], true)
    else Book(b.keys, b.outcomes, b.finals[|b.finals| - 1 := Failed], b.early)
  }

  function Entered(b: Book, key: Key, status: TestStatus): Book {
    Book(b.keys + [key], b.outcomes + [status], b.finals + [status], b.early)
  }

  predicate Sized(b: Book) {
    |b.keys| == |b.outcomes| == |b.finals|
  }

  function Blamed(b: Book, first: Key): Key {
    if b.keys == [] then first else b.keys[|b.keys| - 1]
  }

  ghost predicate RowsRight(events: seq<Event>, first: Key, b: Book) {
    && Sized(b) && DistinctKeys(b.keys) && (b.early ==> first !in b.keys)
    && Keys(events) == (if b.early then [first] else []) + b.keys
    && forall i :: 0 <= i < |b.keys| ==> R.Verdict(events, b.keys[i]) == Some(b.finals[i])
  }

  ghost predicate SpotRight(steps: seq<Step>, b: Book) {
    && Sized(b)
    && SpotOf(steps) == (if b.outcomes == [] then Early else After(b.outcomes[|b.outcomes| - 1]))
    && (Tame(steps) <==> !b.early && b.finals == b.outcomes)
    && forall i :: 0 <= i < |b.finals| ==> b.finals[i] == b.outcomes[i] || b.finals[i] == Failed
  }

  ghost predicate Ledger(d: Dev, first: Key, b: Book) {
    RowsRight(Heard(d.steps), first, b) && SpotRight(d.steps, b) && KeyFor(d.cur) == Blamed(b, first)
  }

  lemma StrikeFirst(events: seq<Event>, first: Key, b: Book, e: Event)
    requires RowsRight(events, first, b) && e.AssertFail? && KeyOf(e) == Some(first) && b.keys == []
    ensures RowsRight(events + [e], first, Struck(b))
  {
    TouchesSnoc(events, e, first);
    EmptyIsNeutral(Keys(events));
  }

  lemma StrikeLast(events: seq<Event>, first: Key, b: Book, e: Event)
    requires RowsRight(events, first, b) && b.keys != []
    requires e.AssertFail? && KeyOf(e) == Some(b.keys[|b.keys| - 1])
    ensures RowsRight(events + [e], first, Struck(b))
  {
    var key := b.keys[|b.keys| - 1];
    assert key in Keys(events);
    TouchesSnoc(events, e, key);
  }

  lemma StrikeRows(events: seq<Event>, first: Key, b: Book, e: Event)
    requires RowsRight(events, first, b) && e.AssertFail? && KeyOf(e) == Some(Blamed(b, first))
    ensures RowsRight(events + [e], first, Struck(b))
  {
    if b.keys == [] {
      StrikeFirst(events, first, b, e);
    } else {
      StrikeLast(events, first, b, e);
    }
  }

  lemma StrikeSpot(steps: seq<Step>, b: Book, step: Step)
    requires SpotRight(steps, b) && Accuses(step)
    ensures SpotRight(steps + [step], Struck(b))
  {
    SpotSnoc(steps, step);
    if b.keys != [] {
      var n := |b.finals| - 1;
      assert Struck(b).finals[n] == Failed;
      assert forall i :: 0 <= i < n ==> Struck(b).finals[i] == b.finals[i];
      if b.outcomes[n] == Failed {
        assert Struck(b).finals == b.finals;
      }
    }
  }

  function FailureNote(id: Ident, a: Action): Note
    requires a.Fail?
  {
    Failure(id, a.file, a.line, if a.message.None? then "fail" else a.message.value)
  }

  /** A failed assertion that reaches the host under this name. */
  predicate Lands(id: Ident, a: Action) {
    a.Fail? && Travels(FailureNote(id, a))
  }

  lemma LandsRows(steps: seq<Step>, note: Note, first: Key, b: Book)
    requires RowsRight(Heard(steps), first, b) && note.Failure? && Travels(note) && KeyFor(note.id) == Blamed(b, first)
    ensures RowsRight(Heard(steps + [Say(note)]), first, Struck(b))
  {
    HeardSnoc(steps, Say(note));
    ToldOfFailure(note);
    StrikeRows(Heard(steps), first, b, Told(Say(note))[0]);
  }

  lemma LandsLedger(d: Dev, note: Note, first: Key, b: Book)
    requires Ledger(d, first, b) && note.Failure? && note.id == d.cur && Travels(note)
    ensures Ledger(Emit(d.(failed := true), note), first, Struck(b))
  {
    LandsRows(d.steps, note, first, b);
    StrikeSpot(d.steps, b, Say(note));
  }

  lemma ActLedger(d: Dev, a: Action, first: Key, b: Book)
    requires Ledger(d, first, b)
    ensures Ledger(Act(d, a), first, if Lands(d.cur, a) then Struck(b) else b) && Act(d, a).cur == d.cur
  {
    match a
    case Fail(_, _, _) =>
      if Lands(d.cur, a) {
        LandsLedger(d, FailureNote(d.cur, a), first, b);
      } else {
        QuietStep(d.steps, Say(FailureNote(d.cur, a)), first, b);
      }
    case Ignore(message) =>
      if message.Some? {
        QuietStep(d.steps, Say(Ignored(d.cur, message.value)), first, b);
      }
    case Abort =>
  }

  /** A step that concerns no row. */
  predicate Quiet(step: Step) {
    step.Call? || !(step.note.CaseOpen? || step.note.CaseClose? || Accuses(step))
  }

  lemma QuietStep(steps: seq<Step>, step: Step, first: Key, b: Book)
    requires Quiet(step) && RowsRight(Heard(steps), first, b) && SpotRight(steps, b)
    ensures RowsRight(Heard(steps + [step]), first, b) && SpotRight(steps + [step], b)
  {
    HeardSnoc(steps, step);
    SpotSnoc(steps, step);
    EmptyIsNeutral(Heard(steps));
    if Told(step) != [] {
      ToldOfOther(step);
      QuietRows(Heard(steps), Told(step)[0], first, b);
    }
  }

  lemma QuietRows(events: seq<Event>, e: Event, first: Key, b: Book)
    requires KeyOf(e) == None && RowsRight(events, first, b)
    ensures RowsRight(events + [e], first, b)
  {
    TouchesSnoc(events, e, first);
    forall i | 0 <= i < |b.keys| ensures R.Verdict(events + [e], b.keys[i]) == Some(b.finals[i]) {
      TouchesSnoc(events, e, b.keys[i]);
    }
  }

  function AfterActions(id: Ident, b: Book, actions: seq<Action>): (after: Book)
    requires Sized(b)
    ensures Sized(after) && after.keys == b.keys && after.outcomes == b.outcomes
    ensures (forall a :: a in actions ==> !Lands(id, a)) ==> after == b
    ensures (exists a :: a in actions && Lands(id, a)) ==> after == Struck(b)
    decreases |actions|
  {
    if actions == [] then b
    else
      assert actions == [actions[0]] + actions[1..];
      AfterActions(id, if Lands(id, actions[0]) then Struck(b) else b, actions[1..])
  }

  lemma {:induction false} ActionsLedger(d: Dev, actions: seq<Action>, first: Key, b: Book)
    requires Ledger(d, first, b)
    ensures Ledger(ActAll(d, actions), first, AfterActions(d.cur, b, actions))
    decreases |actions|
  {
    if actions == [] {
    } else {
      ActLedger(d, actions[0], first, b);
      ActionsLedger(Act(d, actions[0]), actions[1..], first, if Lands(d.cur, actions[0]) then Struck(b) else b);
    }
  }

  /** The book after a fixture that runs outside every case. */
  function AfterFixture(w: World, d: Dev, role: Role, fn: Option<nat>, b: Book): (after: Book)
    requires Sized(b)
    ensures Sized(after) && after.keys == b.keys && after.outcomes == b.outcomes
  {
    if fn.None? then b else AfterActions(d.cur, b, w(d.steps + [Call(role, fn.value)]))
  }

  lemma FixtureLedger(w: World, d: Dev, role: Role, fn: Option<nat>, first: Key, b: Book)
    requires Ledger(d, first, b)
    ensures Ledger(Invoke(w, d, role, fn), first, AfterFixture(w, d, role, fn, b))
  {
    if fn.Some? {
      var entered := d.(steps := d.steps + [Call(role, fn.value)]);
      QuietStep(d.steps, Call(role, fn.value), first, b);
      ActionsLedger(entered, w(entered.steps), first, b);
    }
  }

  predicate OfSuite(step: Step) {
    step.Call? && (step.role.SuiteSetup? || step.role.SuiteTeardown?)
  }

  /** Suite fixtures report no failed assertion: failures are reported inside their own case only. */
  ghost predicate QuietSuites(w: World) {
    forall steps, step, a :: OfSuite(step) && a in w(steps + [step]) ==> !a.Fail?
  }

  lemma QuietFixture(w: World, d: Dev, role: Role, fn: Option<nat>, b: Book)
    requires QuietSuites(w) && (role.SuiteSetup? || role.SuiteTeardown?) && Sized(b)
    ensures AfterFixture(w, d, role, fn, b) == b
  {
    if fn.Some? {
      assert OfSuite(Call(role, fn.value));
    }
  }

  lemma SendsNothing(steps: seq<Step>, step: Step)
    requires Told(step) == []
    ensures Heard(steps + [step]) == Heard(steps)
  {
    HeardSnoc(steps, step);
    EmptyIsNeutral(Heard(steps));
  }

  lemma QuietActs(d: Dev, a: Action)
    requires !a.Fail?
    ensures Heard(Act(d, a).steps) == Heard(d.steps)
  {
    if a.Ignore? && a.message.Some? {
      SendsNothing(d.steps, Say(Ignored(d.cur, a.message.value)));
    }
  }

  /** A quiet suite fixture sends nothing. */
  lemma {:induction false} QuietActions(d: Dev, actions: seq<Action>)
    requires forall a :: a in actions ==> !a.Fail?
    ensures Heard(ActAll(d, actions).steps) == Heard(d.steps)
    decreases |actions|
  {
    if actions == [] {
    } else {
      assert actions == [actions[0]] + actions[1..];
      QuietActs(d, actions[0]);
      QuietActions(Act(d, actions[0]), actions[1..]);
    }
  }

  lemma QuietInvoke(w: World, d: Dev, role: Role, fn: Option<nat>)
    requires QuietSuites(w) && (role.SuiteSetup? || role.SuiteTeardown?)
    ensures Heard(Invoke(w, d, role, fn).steps) == Heard(d.steps)
  {
    if fn.Some? {
      var step := Call(role, fn.value);
      assert OfSuite(step);
      SendsNothing(d.steps, step);
      QuietActions(d.(steps := d.steps + [step]), w(d.steps + [step]));
    }
  }

  /** Inside a case nothing leaves it. */
  lemma {:induction false} ActionsInside(d: Dev, actions: seq<Action>)
    requires SpotOf(d.steps) == Inside
    ensures SpotOf(ActAll(d, actions).steps) == Inside && (Tame(ActAll(d, actions).steps) <==> Tame(d.steps))
    decreases |actions|
  {
    if actions == [] {
    } else {
      ActInside(d, actions[0]);
      ActionsInside(Act(d, actions[0]), actions[1..]);
    }
  }

  lemma ActInside(d: Dev, a: Action)
    requires SpotOf(d.steps) == Inside
    ensures SpotOf(Act(d, a).steps) == Inside && (Tame(Act(d, a).steps) <==> Tame(d.steps))
  {
    match a
    case Fail(file, line, message) =>
      SpotSnoc(d.steps, Say(Failure(d.cur, file, line, if message.None? then "fail" else message.value)));
    case Ignore(message) =>
      if message.Some? {
        SpotSnoc(d.steps, Say(Ignored(d.cur, message.value)));
      }
    case Abort =>
  }

  lemma InvokeInside(w: World, d: Dev, role: Role, fn: Option<nat>)
    requires SpotOf(d.steps) == Inside
    ensures SpotOf(Invoke(w, d, role, fn).steps) == Inside && (Tame(Invoke(w, d, role, fn).steps) <==> Tame(d.steps))
  {
    if fn.Some? {
      SpotSnoc(d.steps, Call(role, fn.value));
      ActionsInside(d.(steps := d.steps + [Call(role, fn.value)]), w(d.steps + [Call(role, fn.value)]));
    }
  }

  lemma BodyInside(fx: Fixtures, w: World, d: Dev, c: CaseInfo)
    ensures var after := RunBody(fx, w, d, c);
            SpotOf(after.steps) == Inside && (Tame(after.steps) <==> Tame(d.steps)) && after.cur == c.id
  {
    var d0 := Emit(d.(cur := c.id, failed := false, skipped := false), CaseOpen(c.id));
    var d1 := Invoke(w, d0, GroupSetup, GroupSetupOf(fx, c.id));
    var d2 := Invoke(w, d1, Body, c.fn);
    SpotSnoc(d.steps, Say(CaseOpen(c.id)));
    InvokeInside(w, d0, GroupSetup, GroupSetupOf(fx, c.id));
    InvokeInside(w, d1, Body, c.fn);
    InvokeInside(w, d2, GroupTeardown, GroupTeardownOf(fx, c.id));
    InvokeTouches(w, d0, GroupSetup, GroupSetupOf(fx, c.id));
    InvokeTouches(w, d1, Body, c.fn);
    InvokeTouches(w, d2, GroupTeardown, GroupTeardownOf(fx, c.id));
  }

  lemma EnterRows(before: seq<Event>, body: seq<Event>, first: Key, b: Book, key: Key, status: TestStatus)
    requires RowsRight(before, first, b) && Touches(before, body, key)
    requires key !in b.keys && (b.early ==> key != first)
    ensures RowsRight(body + [CaseEnd(key.suite, key.name, status)], first, Entered(b, key, status))
  {
    var after := body + [CaseEnd(key.suite, key.name, status)];
    TouchesSnoc(body, CaseEnd(key.suite, key.name, status), key);
    Associative(if b.early then [first] else [], b.keys, [key]);
    assert key !in Keys(before);
    forall i | 0 <= i < |b.keys| ensures R.Verdict(after, b.keys[i]) == Some(b.finals[i]) {
      assert b.keys[i] != key;
    }
  }

  lemma EnterSpot(before: seq<Step>, body: seq<Step>, b: Book, key: Key, id: Ident, status: TestStatus)
    requires SpotRight(before, b) && (Tame(body) <==> Tame(before))
    ensures SpotRight(body + [Say(CaseClose(id, status))], Entered(b, key, status))
  {
    SpotSnoc(body, Say(CaseClose(id, status)));
    var after := Entered(b, key, status);
    assert after.finals == after.outcomes <==> b.finals == b.outcomes by {
      assert after.finals[..|b.finals|] == b.finals && after.outcomes[..|b.outcomes|] == b.outcomes;
    }
  }

  lemma CloseCase(d: Dev, body: Dev, id: Ident, status: TestStatus, first: Key, b: Book)
    requires Ledger(d, first, b) && NamesFit(id) && KeyFor(id) !in b.keys && (b.early ==> KeyFor(id) != first)
    requires Touches(Heard(d.steps), Heard(body.steps), KeyFor(id)) && body.cur == id
    requires Tame(body.steps) <==> Tame(d.steps)
    ensures Ledger(Emit(body, CaseClose(id, status)), first, Entered(b, KeyFor(id), status))
  {
    HeardSnoc(body.steps, Say(CaseClose(id, status)));
    ToldOfClose(id, status);
    EnterRows(Heard(d.steps), Heard(body.steps), first, b, KeyFor(id), status);
    EnterSpot(d.steps, body.steps, b, KeyFor(id), id, status);
  }

  /** One case from its opening to its close adds its row with its outcome. */
  lemma CaseLedger(fx: Fixtures, w: World, d: Dev, c: CaseInfo, first: Key, b: Book)
    requires Ledger(d, first, b) && NamesFit(c.id) && KeyFor(c.id) !in b.keys && (b.early ==> KeyFor(c.id) != first)
    ensures var body := RunBody(fx, w, d, c);
            Ledger(Emit(body, CaseClose(c.id, Outcome(body))), first, Entered(b, KeyFor(c.id), Outcome(body)))
  {
    var body := RunBody(fx, w, d, c);
    BodyTouches(fx, w, d, c);
    BodyInside(fx, w, d, c);
    CloseCase(d, body, c.id, Outcome(body), first, b);
  }

  function AfterClose(fx: Fixtures, w: World, d: Dev, open: CStr, b: Book): (after: Book)
    requires Sized(b)
    ensures Sized(after) && after.keys == b.keys && after.outcomes == b.outcomes
  {
    if open.None? then b else AfterFixture(w, d, SuiteTeardown, TeardownOf(fx, open), b)
  }

  lemma CloseLedger(fx: Fixtures, w: World, d: Dev, open: CStr, counts: Counts, first: Key, b: Book)
    requires Ledger(d, first, b)
    ensures Ledger(CloseSuite(fx, w, d, open, counts), first, AfterClose(fx, w, d, open, b))
    ensures QuietSuites(w) ==> AfterClose(fx, w, d, open, b) == b
  {
    if open.Some? {
      var torn := Invoke(w, d, SuiteTeardown, TeardownOf(fx, open));
      FixtureLedger(w, d, SuiteTeardown, TeardownOf(fx, open), first, b);
      QuietStep(torn.steps, Say(SuiteClose(open, counts)), first, AfterClose(fx, w, d, open, b));
      if QuietSuites(w) {
        QuietFixture(w, d, SuiteTeardown, TeardownOf(fx, open), b);
      }
    }
  }

  lemma OpenLedger(fx: Fixtures, w: World, d: Dev, suite: CStr, first: Key, b: Book)
    requires Ledger(d, first, b)
    ensures var after := AfterFixture(w, d, SuiteSetup, SetupOf(fx, suite), b);
            Ledger(OpenSuite(fx, w, d, suite), first, after) && (QuietSuites(w) ==> after == b)
  {
    var up := Invoke(w, d, SuiteSetup, SetupOf(fx, suite));
    FixtureLedger(w, d, SuiteSetup, SetupOf(fx, suite), first, b);
    QuietStep(up.steps, Say(SuiteOpen(suite)), first, AfterFixture(w, d, SuiteSetup, SetupOf(fx, suite), b));
    if QuietSuites(w) {
      QuietFixture(w, d, SuiteSetup, SetupOf(fx, suite), b);
    }
  }

  lemma SwitchLedger(fx: Fixtures, w: World, r: Run, suite: CStr, first: Key, b: Book) returns (after: Book)
    requires Ledger(r.dev, first, b)
    ensures Ledger(SwitchSuite(fx, w, r, suite).dev, first, after)
    ensures after.keys == b.keys && after.outcomes == b.outcomes && (QuietSuites(w) ==> after == b)
  {
    after := b;
    if StrCmp(r.open, suite) != 0 {
      CloseLedger(fx, w, r.dev, r.open, r.suite, first, b);
      after := AfterClose(fx, w, r.dev, r.open, b);
      var closed := CloseSuite(fx, w, r.dev, r.open, r.suite);
      OpenLedger(fx, w, closed, suite, first, after);
      after := AfterFixture(w, closed, SuiteSetup, SetupOf(fx, suite), after);
    }
  }

  lemma HeadAndRest(cases: seq<CaseInfo>)
    requires cases != [] && DistinctKeys(KeysFor(cases))
    ensures KeysFor(cases) == [KeyFor(cases[0].id)] + KeysFor(cases[1..])
    ensures DistinctKeys(KeysFor(cases[1..])) && KeyFor(cases[0].id) !in KeysFor(cases[1..])
  {
    var keys := KeysFor(cases);
    assert forall i :: 0 <= i < |cases| - 1 ==> KeysFor(cases[1..])[i] == keys[i + 1];
    assert keys[0] == KeyFor(cases[0].id);
  }

  /** One case of a run, suite switch included. */
  lemma OneLedger(fx: Fixtures, w: World, r: Run, c: CaseInfo, first: Key, b: Book) returns (after: Book)
    requires Ledger(r.dev, first, b) && NamesFit(c.id) && KeyFor(c.id) !in b.keys
    requires first != KeyFor(c.id) || (QuietSuites(w) && !b.early)
    ensures Ledger(RunOne(fx, w, r, c).dev, first, after) && after.keys == b.keys + [KeyFor(c.id)]
    ensures after.outcomes == b.outcomes + [Outcome(RunBody(fx, w, SwitchSuite(fx, w, r, c.id.suite).dev, c))]
    ensures QuietSuites(w) ==> after.early == b.early && (b.finals == b.outcomes ==> after.finals == after.outcomes)
  {
    var switched := SwitchLedger(fx, w, r, c.id.suite, first, b);
    var d := SwitchSuite(fx, w, r, c.id.suite).dev;
    CaseLedger(fx, w, d, c, first, switched);
    after := Entered(switched, KeyFor(c.id), Outcome(RunBody(fx, w, d, c)));
  }

  lemma {:induction false} CasesLedger(fx: Fixtures, w: World, r: Run, cases: seq<CaseInfo>, first: Key, b: Book)
    returns (after: Book)
    requires Ledger(r.dev, first, b) && DistinctKeys(KeysFor(cases)) && forall c :: c in cases ==> NamesFit(c.id)
    requires forall key :: key in KeysFor(cases) ==> key !in b.keys
    requires first !in KeysFor(cases) || (QuietSuites(w) && !b.early)
    ensures Ledger(RunCases(fx, w, r, cases).dev, first, after)
    ensures after.keys == b.keys + KeysFor(cases) && after.outcomes == b.outcomes + Outcomes(fx, w, r, cases)
    ensures QuietSuites(w) && !b.early && b.finals == b.outcomes ==> !after.early && after.finals == after.outcomes
    decreases |cases|
  {
    if cases == [] {
      EmptyIsNeutral(b.keys);
      EmptyIsNeutral(b.outcomes);
      after := b;
    } else {
      var c, rest, next := cases[0], cases[1..], RunOne(fx, w, r, cases[0]);
      HeadAndRest(cases);
      var b1 := OneLedger(fx, w, r, c, first, b);
      after := CasesLedger(fx, w, next, rest, first, b1);
      Associative(b.keys, [KeyFor(c.id)], KeysFor(rest));
      Associative(b.outcomes, [Outcomes(fx, w, r, cases)[0]], Outcomes(fx, w, next, rest));
    }
  }

  const NOTHING := Book([], [], [], false)

  lemma StartLedger(left: Dev)
    ensures Ledger(StartRun(left).dev, KeyFor(left.cur), NOTHING)
  {
    assert StartRun(left).dev.steps[..0] == [];
  }

  /** The book of the cases of a run, before its last suite is closed. */
  lemma RunLedger(fx: Fixtures, w: World, left: Dev, selected: seq<CaseInfo>) returns (b: Book)
    requires DistinctKeys(KeysFor(selected)) && (KeyFor(left.cur) !in KeysFor(selected) || QuietSuites(w))
    requires forall c :: c in selected ==> NamesFit(c.id)
    ensures Ledger(RunCases(fx, w, StartRun(left), selected).dev, KeyFor(left.cur), b)
    ensures b.keys == KeysFor(selected) && b.outcomes == Outcomes(fx, w, StartRun(left), selected)
    ensures QuietSuites(w) ==> !b.early && b.finals == b.outcomes
  {
    StartLedger(left);
    b := CasesLedger(fx, w, StartRun(left), selected, KeyFor(left.cur), NOTHING);
    EmptyIsNeutral(KeysFor(selected));
    EmptyIsNeutral(Outcomes(fx, w, StartRun(left), selected));
  }

  lemma FinishLedger(fx: Fixtures, w: World, r: Run, first: Key, b: Book)
    requires Ledger(r.dev, first, b)
    ensures Ledger(FinishRun(fx, w, r), first, AfterClose(fx, w, r.dev, r.open, b))
    ensures QuietSuites(w) ==> AfterClose(fx, w, r.dev, r.open, b) == b
  {
    CloseLedger(fx, w, r.dev, r.open, r.suite, first, b);
    QuietStep(CloseSuite(fx, w, r.dev, r.open, r.suite).steps, Say(AllDone(r.total)), first,
              AfterClose(fx, w, r.dev, r.open, b));
  }

  /** Failing more rows than there are failed outcomes is seen in the count. */
  lemma {:induction false} RaisedCount(outcomes: seq<TestStatus>, finals: seq<TestStatus>)
    requires |outcomes| == |finals|
    requires forall i :: 0 <= i < |finals| ==> finals[i] == outcomes[i] || finals[i] == Failed
    ensures Count(finals, Failed) >= Count(outcomes, Failed)
    ensures Count(finals, Failed) == Count(outcomes, Failed) <==> finals == outcomes
  {
    if outcomes == [] {
    } else {
      RaisedCount(outcomes[1..], finals[1..]);
      assert finals == [finals[0]] + finals[1..] && outcomes == [outcomes[0]] + outcomes[1..];
    }
  }

  /** What a book says about the size and the failures of its table. */
  lemma BookTable(events: seq<Event>, first: Key, b: Book)
    requires RowsRight(events, first, b)
    ensures |Table(events)| == |b.keys| + if b.early then 1 else 0
    ensures !b.early ==> CountFailed(Table(events)) == Count(b.finals, Failed)
    ensures !b.early ==> forall i :: 0 <= i < |b.keys| ==>
              Table(events)[i].key == b.keys[i] && Table(events)[i].status == b.finals[i]
  {
    TableIsLastWord(events);
    if !b.early {
      EmptyIsNeutral(b.keys);
      TableFrom(events, b.keys, b.finals);
    }
  }

  /** The table agrees with the totals. */
  predicate Agrees(rows: seq<Row>, cases: nat, total: Counts) {
    |rows| == cases && CountFailed(rows) == total.failed
  }

  lemma BookAgrees(steps: seq<Step>, first: Key, b: Book, total: Counts)
    requires RowsRight(Heard(steps), first, b) && SpotRight(steps, b) && total.failed == Count(b.outcomes, Failed)
    ensures Agrees(Table(Heard(steps)), |b.keys|, total) <==> Tame(steps)
  {
    BookTable(Heard(steps), first, b);
    RaisedCount(b.outcomes, b.finals);
  }

  lemma StruckCount(b: Book)
    requires Sized(b) && b.outcomes != [] && b.finals == b.outcomes && b.outcomes[|b.outcomes| - 1] != Failed
    ensures Count(Struck(b).finals, Failed) == Count(b.outcomes, Failed) + 1
  {
    var n := |b.outcomes| - 1;
    var init, last := b.outcomes[..n], b.outcomes[n];
    assert b.outcomes == init + [last] && Struck(b).finals == init + [Failed];
    CountConcat(init, [last], Failed);
    CountConcat(init, [Failed], Failed);
    CountOne(last, Failed);
    CountOne(Failed, Failed);
  }

  lemma {:induction false} LastSuiteStays(fx: Fixtures, w: World, r: Run, cases: seq<CaseInfo>)
    requires cases != []
    ensures RunCases(fx, w, r, cases).open == cases[|cases| - 1].id.suite
    decreases |cases|
  {
    if cases[1..] != [] {
      LastSuiteStays(fx, w, RunOne(fx, w, r, cases[0]), cases[1..]);
    } else {
      StrCmpLaws(r.open, cases[0].id.suite);
    }
  }

  lemma KeylessStep(steps: seq<Step>, step: Step)
    requires step.Call? || !(step.note.Failure? || step.note.CaseClose?)
    ensures Keys(Heard(steps + [step])) == Keys(Heard(steps))
  {
    HeardSnoc(steps, step);
    EmptyIsNeutral(Heard(steps));
    if Told(step) != [] {
      ToldOfOther(step);
      TouchesSnoc(Heard(steps), Told(step)[0], Key("", ""));
    }
  }

  lemma CloseAddsNoKey(fx: Fixtures, w: World, d: Dev, open: CStr, counts: Counts)
    requires QuietSuites(w)
    ensures Keys(Heard(CloseSuite(fx, w, d, open, counts).steps)) == Keys(Heard(d.steps))
  {
    if open.Some? {
      QuietInvoke(w, d, SuiteTeardown, TeardownOf(fx, open));
      KeylessStep(Invoke(w, d, SuiteTeardown, TeardownOf(fx, open)).steps, Say(SuiteClose(open, counts)));
    }
  }

  lemma SwitchAddsNoKey(fx: Fixtures, w: World, r: Run, suite: CStr)
    requires QuietSuites(w)
    ensures Keys(Heard(SwitchSuite(fx, w, r, suite).dev.steps)) == Keys(Heard(r.dev.steps))
  {
    if StrCmp(r.open, suite) != 0 {
      var closed := CloseSuite(fx, w, r.dev, r.open, r.suite);
      CloseAddsNoKey(fx, w, r.dev, r.open, r.suite);
      QuietInvoke(w, closed, SuiteSetup, SetupOf(fx, suite));
      KeylessStep(Invoke(w, closed, SuiteSetup, SetupOf(fx, suite)).steps, Say(SuiteOpen(suite)));
    }
  }

  lemma CaseAddsItsKey(fx: Fixtures, w: World, r: Run, c: CaseInfo)
    requires QuietSuites(w)
    ensures forall key :: key in Keys(Heard(RunOne(fx, w, r, c).dev.steps)) ==>
              key in Keys(Heard(r.dev.steps)) || key == KeyFor(c.id)
  {
    var d := SwitchSuite(fx, w, r, c.id.suite).dev;
    var body := RunBody(fx, w, d, c);
    SwitchAddsNoKey(fx, w, r, c.id.suite);
    BodyTouches(fx, w, d, c);
    ToldOfClose(c.id, Outcome(body));
    StepTouches(body.steps, Say(CaseClose(c.id, Outcome(body))), KeyFor(c.id));
  }

  lemma {:induction false} CasesAddTheirKeys(fx: Fixtures, w: World, r: Run, cases: seq<CaseInfo>)
    requires QuietSuites(w)
    ensures forall key :: key in Keys(Heard(RunCases(fx, w, r, cases).dev.steps)) ==>
              key in Keys(Heard(r.dev.steps)) || key in KeysFor(cases)
    decreases |cases|
  {
    if cases == [] {
    } else {
      CaseAddsItsKey(fx, w, r, cases[0]);
      CasesAddTheirKeys(fx, w, RunOne(fx, w, r, cases[0]), cases[1..]);
      assert KeysFor(cases) == [KeyFor(cases[0].id)] + KeysFor(cases[1..]);
    }
  }

  lemma RunHasTheirKeys(fx: Fixtures, w: World, left: Dev, selected: seq<CaseInfo>)
    requires QuietSuites(w)
    ensures forall key :: key in Keys(Heard(WholeRun(fx, w, left, selected).steps)) ==> key in KeysFor(selected)
  {
    var r := RunCases(fx, w, StartRun(left), selected);
    assert StartRun(left).dev.steps[..0] == [];
    CasesAddTheirKeys(fx, w, StartRun(left), selected);
    CloseAddsNoKey(fx, w, r.dev, r.open, r.suite);
    KeylessStep(CloseSuite(fx, w, r.dev, r.open, r.suite).steps, Say(AllDone(r.total)));
  }

  predicate KeyFits(key: Key) {
    |key.suite| + |key.name| <= TEXT_MAX
  }

  /** A row exists only when its names fit their messages. */
  lemma {:induction false} RowsFit(steps: seq<Step>)
    ensures forall key :: key in Keys(Heard(steps)) ==> KeyFits(key)
  {
    if steps == [] {
    } else {
      var before, last := steps[..|steps| - 1], steps[|steps| - 1];
      assert steps == before + [last];
      RowsFit(before);
      HeardSnoc(before, last);
      EmptyIsNeutral(Heard(before));
      if Told(last) != [] && KeyOf(Told(last)[0]).Some? {
        ToldFits(last);
        TouchesSnoc(Heard(before), Told(last)[0], KeyOf(Told(last)[0]).value);
      } else if Told(last) != [] {
        TouchesSnoc(Heard(before), Told(last)[0], Key("", ""));
      }
    }
  }

  lemma ToldFits(step: Step)
    requires Told(step) != [] && KeyOf(Told(step)[0]).Some?
    ensures KeyFits(KeyOf(Told(step)[0]).value)
  {
  }

  /** The cases have rows of their own: distinct names as the host hears them, short enough for their messages. */
  ghost predicate RowsApart(selected: seq<CaseInfo>) {
    DistinctKeys(KeysFor(selected)) && forall c :: c in selected ==> NamesFit(c.id)
  }

  /** One row per case leaves no case without a row of its own. */
  lemma FullTableIsApart(fx: Fixtures, w: World, left: Dev, selected: seq<CaseInfo>)
    requires QuietSuites(w) && |Table(Heard(WholeRun(fx, w, left, selected).steps))| == |selected|
    ensures RowsApart(selected)
  {
    var events := Heard(WholeRun(fx, w, left, selected).steps);
    TableIsLastWord(events);
    RunHasTheirKeys(fx, w, left, selected);
    Pigeonhole(Keys(events), KeysFor(selected));
    RowsFit(WholeRun(fx, w, left, selected).steps);
    forall c | c in selected ensures NamesFit(c.id) {
      var i :| 0 <= i < |selected| && selected[i] == c;
      assert KeysFor(selected)[i] in KeysFor(selected);
    }
  }

  /** What the cases' rows say, for cases that have rows of their own. */
  lemma HeardTable(fx: Fixtures, w: World, left: Dev, selected: seq<CaseInfo>)
    requires RowsApart(selected) && (KeyFor(left.cur) !in KeysFor(selected) || QuietSuites(w))
    ensures var steps := WholeRun(fx, w, left, selected).steps;
            var rows := Table(Heard(steps));
            && (Agrees(rows, |selected|, RunTotal(fx, w, left, selected)) <==> Tame(steps))
            && (QuietSuites(w) ==> Tame(steps))
            && (Tame(steps) ==> forall i :: 0 <= i < |selected| ==>
                  rows[i].key == KeyFor(selected[i].id)
                  && rows[i].status == Outcomes(fx, w, StartRun(left), selected)[i])
  {
    var r := RunCases(fx, w, StartRun(left), selected);
    var b := RunLedger(fx, w, left, selected);
    FinishLedger(fx, w, r, KeyFor(left.cur), b);
    var after := AfterClose(fx, w, r.dev, r.open, b);
    RunTotalsOutcomes(fx, w, left, selected);
    BookAgrees(FinishRun(fx, w, r).steps, KeyFor(left.cur), after, r.total);
    BookTable(Heard(FinishRun(fx, w, r).steps), KeyFor(left.cur), after);
  }

  /** The bytes of a run have all arrived, in whatever pieces, and decode. */
  ghost predicate Arrived(steps: seq<Step>, inputs: seq<Read>) {
    Flatten(Chunks(inputs)) == Wire(Events(steps)) && Fed(0, FrameEvents, [], Chunks(inputs)).Ok?
  }

  /** The table of what the reporter is handed, for a run whose bytes have all arrived. While suite fixtures report
      no failure it has one row per case and the run's failures if and only if the cases have rows of their own.
      When they have, it does so if and only if every failure that reached the host was reported inside a case or
      behind a failed one; each row then has its case's outcome. */
  lemma JunitMatchesRun(fx: Fixtures, w: World, left: Dev, selected: seq<CaseInfo>, inputs: seq<Read>)
    requires Arrived(WholeRun(fx, w, left, selected).steps, inputs)
    ensures var steps := WholeRun(fx, w, left, selected).steps;
            var rows := Table(UntilDone(Received(inputs)));
            var agrees := Agrees(rows, |selected|, RunTotal(fx, w, left, selected));
            && (QuietSuites(w) ==> (agrees <==> RowsApart(selected)))
            && (RowsApart(selected) && KeyFor(left.cur) !in KeysFor(selected) ==> (agrees <==> Tame(steps)))
            && (RowsApart(selected) && QuietSuites(w) ==> Tame(steps))
            && (RowsApart(selected) && (KeyFor(left.cur) !in KeysFor(selected) || QuietSuites(w)) && Tame(steps) ==>
                  forall i :: 0 <= i < |selected| ==>
                    rows[i].key == KeyFor(selected[i].id)
                    && rows[i].status == Outcomes(fx, w, StartRun(left), selected)[i])
  {
    RunIsDrained(fx, w, left, selected, inputs);
    if RowsApart(selected) && (KeyFor(left.cur) !in KeysFor(selected) || QuietSuites(w)) {
      HeardTable(fx, w, left, selected);
    }
    if QuietSuites(w) && |Table(UntilDone(Received(inputs)))| == |selected| {
      FullTableIsApart(fx, w, left, selected);
    }
  }

  /** A failing input: when the last case did not fail, a failure reported by its suite's teardown makes the table
      count one failure more than the totals do, although all was well until then. */
  lemma LateFailure(fx: Fixtures, w: World, left: Dev, selected: seq<CaseInfo>, f: nat, inputs: seq<Read>)
    requires Arrived(WholeRun(fx, w, left, selected).steps, inputs)
    requires selected != [] && RowsApart(selected) && KeyFor(left.cur) !in KeysFor(selected)
    requires var last := selected[|selected| - 1].id.suite; last.Some? && TeardownOf(fx, last) == Some(f)
    requires var d := RunCases(fx, w, StartRun(left), selected).dev;
             Tame(d.steps) && exists a :: a in w(d.steps + [Call(SuiteTeardown, f)]) && Lands(d.cur, a)
    requires Outcomes(fx, w, StartRun(left), selected)[|selected| - 1] != Failed
    ensures var rows := Table(UntilDone(Received(inputs)));
            |rows| == |selected| && CountFailed(rows) == RunTotal(fx, w, left, selected).failed + 1
  {
    var r := RunCases(fx, w, StartRun(left), selected);
    var b := RunLedger(fx, w, left, selected);
    LastSuiteStays(fx, w, StartRun(left), selected);
    FinishLedger(fx, w, r, KeyFor(left.cur), b);
    assert AfterClose(fx, w, r.dev, r.open, b) == Struck(b);
    BookTable(Heard(FinishRun(fx, w, r).steps), KeyFor(left.cur), Struck(b));
    StruckCount(b);
    RunTotalsOutcomes(fx, w, left, selected);
    RunIsDrained(fx, w, left, selected, inputs);
  }
}
