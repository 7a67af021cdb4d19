/** What holds of the timeline of every run, whatever user code does. */
module RunnerLaws {
  import opened Protocol
  import opened DeviceWire
  import opened CaseOrder
  import opened Sorting
  import opened RunnerModel
  import opened Filters

  /** An observer that reads a timeline and accepts only well-bracketed ones. */
  datatype Watch =
    | Outside(last: CStr, total: Counts, fixture: bool)
    | InSuite(suite: Str, counts: Counts, total: Counts, fixture: bool)
    | InCase(id: Ident, phase: nat, failures: bool, suite: Str, counts: Counts, total: Counts)
    | Finished(total: Counts)
    | Bad

  function WatchCall(m: Watch, role: Role): Watch {
    match role
    case SuiteSetup => if m.Outside? && !m.fixture then Outside(m.last, m.total, true) else Bad
    case SuiteTeardown => if m.InSuite? && !m.fixture then InSuite(m.suite, m.counts, m.total, true) else Bad
    case GroupSetup => if m.InCase? && m.phase == 0 then m.(phase := 1) else Bad
    case Body => if m.InCase? && m.phase <= 1 then m.(phase := 2) else Bad
    case GroupTeardown => if m.InCase? && m.phase <= 2 then m.(phase := 3) else Bad
  }

  /** A failure or skip note belongs to the running case, or to a suite fixture outside every case. */
  function WatchReport(m: Watch, id: Ident, failure: bool): Watch {
    if m.InCase? && m.id == id then m.(failures := m.failures || failure)
    else if (m.Outside? || m.InSuite?) && m.fixture then m
    else Bad
  }

  function WatchNote(m: Watch, note: Note): Watch {
    match note
    case Banner => if m == Outside(None, ZERO, false) then m else Bad
    case SuiteOpen(s) =>
      if m.Outside? && s.Some? && StrCmp(m.last, s) < 0 then InSuite(s.value, ZERO, m.total, false) else Bad
    case CaseOpen(id) =>
      if m.InSuite? && !m.fixture && id.suite == Some(m.suite)
      then InCase(id, 0, false, m.suite, m.counts, m.total) else Bad
    case Failure(id, _, _, _) => WatchReport(m, id, true)
    case Ignored(id, _) => WatchReport(m, id, false)
    case CaseClose(id, status) =>
      if m.InCase? && m.id == id && (m.failures ==> status != Passed)
      then InSuite(m.suite, Bump(m.counts, status), m.total, false) else Bad
    case SuiteClose(s, counts) =>
      if m.InSuite? && s == Some(m.suite) && counts == m.counts
      then Outside(s, Add(m.total, counts), false) else Bad
    case AllDone(counts) => if m.Outside? && !m.fixture && counts == m.total then Finished(counts) else Bad
  }

  function Watched(steps: seq<Step>): Watch {
    if steps == [] then Outside(None, ZERO, false)
    else
      var m, step := Watched(steps[..|steps| - 1]), steps[|steps| - 1];
      if step.Call? then WatchCall(m, step.role) else WatchNote(m, step.note)
  }

  lemma WatchedSnoc(steps: seq<Step>, step: Step)
    ensures Watched(steps + [step]) ==
            if step.Call? then WatchCall(Watched(steps), step.role) else WatchNote(Watched(steps), step.note)
  {
  }

  lemma EmitWatched(d: Dev, note: Note)
    ensures Watched(Emit(d, note).steps) == WatchNote(Watched(d.steps), note)
  {
  }

  /** Inside a case: the observer is in the case the device reports for, and knows of no unflagged failure. */
  ghost predicate Tracking(d: Dev) {
    var m := Watched(d.steps);
    m.InCase? && m.id == d.cur && (m.failures ==> d.failed)
  }

  /** The same case, suite and counts in both states. */
  ghost predicate SameCase(m: Watch, m': Watch) {
    m.InCase? && m'.InCase? && m'.(phase := m.phase, failures := m.failures) == m
  }

  lemma {:induction false} ActionsInCase(d: Dev, actions: seq<Action>)
    requires Tracking(d)
    ensures Tracking(ActAll(d, actions)) && SameCase(Watched(d.steps), Watched(ActAll(d, actions).steps))
    ensures Watched(ActAll(d, actions).steps).phase == Watched(d.steps).phase
    decreases |actions|
  {
    if actions == [] {
    } else {
      ActInCase(d, actions[0]);
      ActionsInCase(Act(d, actions[0]), actions[1..]);
    }
  }

  lemma ActInCase(d: Dev, a: Action)
    requires Tracking(d)
    ensures Tracking(Act(d, a)) && SameCase(Watched(d.steps), Watched(Act(d, a).steps))
    ensures Watched(Act(d, a).steps).phase == Watched(d.steps).phase
  {
    match a
    case Fail(file, line, message) =>
      EmitWatched(d, Failure(d.cur, file, line, if message.None? then "fail" else message.value));
    case Ignore(message) =>
      if message.Some? {
        EmitWatched(d, Ignored(d.cur, message.value));
      }
    case Abort =>
  }

  lemma InvokeInCase(w: World, d: Dev, role: Role, fn: Option<nat>, limit: nat)
    requires Tracking(d) && Watched(d.steps).phase <= limit
    requires (role == GroupSetup && limit == 0) || (role == Body && limit == 1) || (role == GroupTeardown && limit == 2)
    ensures Tracking(Invoke(w, d, role, fn)) && SameCase(Watched(d.steps), Watched(Invoke(w, d, role, fn).steps))
    ensures Watched(Invoke(w, d, role, fn).steps).phase <= limit + 1
  {
    if fn.Some? {
      var entered := d.(steps := d.steps + [Call(role, fn.value)]);
      WatchedSnoc(d.steps, Call(role, fn.value));
      ActionsInCase(entered, w(entered.steps));
    }
  }

  lemma ActOfFixture(d: Dev, a: Action)
    requires Watched(d.steps).Outside? || Watched(d.steps).InSuite?
    requires Watched(d.steps).fixture
    ensures Watched(Act(d, a).steps) == Watched(d.steps)
  {
  }

  lemma {:induction false} ActionsOfFixture(d: Dev, actions: seq<Action>)
    requires Watched(d.steps).Outside? || Watched(d.steps).InSuite?
    requires Watched(d.steps).fixture
    ensures Watched(ActAll(d, actions).steps) == Watched(d.steps)
    decreases |actions|
  {
    if actions == [] {
    } else {
      ActOfFixture(d, actions[0]);
      ActionsOfFixture(Act(d, actions[0]), actions[1..]);
    }
  }

  lemma InvokeFixture(w: World, d: Dev, role: Role, fn: Option<nat>)
    requires (role == SuiteSetup && Watched(d.steps).Outside?) || (role == SuiteTeardown && Watched(d.steps).InSuite?)
    requires !Watched(d.steps).fixture
    ensures var m := Watched(Invoke(w, d, role, fn).steps);
            (m.Outside? || m.InSuite?) && m.(fixture := false) == Watched(d.steps)
  {
    if fn.Some? {
      var entered := d.(steps := d.steps + [Call(role, fn.value)]);
      WatchedSnoc(d.steps, Call(role, fn.value));
      ActionsOfFixture(entered, w(entered.steps));
    }
  }

  /** A whole case moves the observer from its suite back to its suite, with one more outcome counted. */
  lemma CaseWatched(fx: Fixtures, w: World, d: Dev, c: CaseInfo)
    requires Watched(d.steps).InSuite? && !Watched(d.steps).fixture && c.id.suite == Some(Watched(d.steps).suite)
    ensures var m, d' := Watched(d.steps), RunBody(fx, w, d, c);
            Watched(Emit(d', CaseClose(c.id, Outcome(d'))).steps) ==
            InSuite(m.suite, Bump(m.counts, Outcome(d')), m.total, false)
  {
    var clean := d.(cur := c.id, failed := false, skipped := false);
    EmitWatched(clean, CaseOpen(c.id));
    var d0 := Emit(clean, CaseOpen(c.id));
    var d1 := Invoke(w, d0, GroupSetup, GroupSetupOf(fx, c.id));
    var d2 := Invoke(w, d1, Body, c.fn);
    var d3 := Invoke(w, d2, GroupTeardown, GroupTeardownOf(fx, c.id));
    InvokeInCase(w, d0, GroupSetup, GroupSetupOf(fx, c.id), 0);
    InvokeInCase(w, d1, Body, c.fn, 1);
    InvokeInCase(w, d2, GroupTeardown, GroupTeardownOf(fx, c.id), 2);
    EmitWatched(d3, CaseClose(c.id, Outcome(d3)));
  }

  /** Between cases: nothing opened yet, or the open suite with exactly the runner's counters. */
  ghost predicate InStep(r: Run) {
    var m := Watched(r.dev.steps);
    match r.open
    case None => m == Outside(None, ZERO, false) && r.suite == r.total == ZERO
    case Some(s) => m.InSuite? && m.suite == s && !m.fixture && m.counts == r.suite && Add(m.total, m.counts) == r.total
  }

  lemma CloseWatched(fx: Fixtures, w: World, r: Run)
    requires InStep(r)
    ensures Watched(CloseSuite(fx, w, r.dev, r.open, r.suite).steps) == Outside(r.open, r.total, false)
  {
    if r.open.Some? {
      var s := FindSuite(fx.suites, r.open);
      var teardown := if s.None? then None else s.value.teardown;
      InvokeFixture(w, r.dev, SuiteTeardown, teardown);
      EmitWatched(Invoke(w, r.dev, SuiteTeardown, teardown), SuiteClose(r.open, r.suite));
    }
  }

  lemma OpenWatched(fx: Fixtures, w: World, d: Dev, name: CStr)
    requires Watched(d.steps).Outside? && !Watched(d.steps).fixture
    requires name.Some? && StrCmp(Watched(d.steps).last, name) < 0
    ensures Watched(OpenSuite(fx, w, d, name).steps) == InSuite(name.value, ZERO, Watched(d.steps).total, false)
  {
    var s := FindSuite(fx.suites, name);
    var setup := if s.None? then None else s.value.setup;
    InvokeFixture(w, d, SuiteSetup, setup);
    EmitWatched(Invoke(w, d, SuiteSetup, setup), SuiteOpen(name));
  }

  lemma JustOpened(d: Dev, suite: CStr, total: Counts)
    requires suite.Some? && Watched(d.steps) == InSuite(suite.value, ZERO, total, false)
    ensures InStep(Run(d, suite, ZERO, total))
  {
  }

  lemma SwitchWatched(fx: Fixtures, w: World, r: Run, suite: CStr)
    requires InStep(r) && suite.Some? && StrCmp(r.open, suite) <= 0
    ensures InStep(SwitchSuite(fx, w, r, suite)) && SwitchSuite(fx, w, r, suite).open == suite
  {
    StrCmpLaws(r.open, suite);
    if r.open != suite {
      CloseWatched(fx, w, r);
      var closed := CloseSuite(fx, w, r.dev, r.open, r.suite);
      OpenWatched(fx, w, closed, suite);
      JustOpened(OpenSuite(fx, w, closed, suite), suite, r.total);
    }
  }

  lemma OneWatched(fx: Fixtures, w: World, r: Run, c: CaseInfo)
    requires InStep(r) && c.id.suite.Some? && StrCmp(r.open, c.id.suite) <= 0
    ensures InStep(RunOne(fx, w, r, c)) && RunOne(fx, w, r, c).open == c.id.suite
  {
    SwitchWatched(fx, w, r, c.id.suite);
    CaseWatched(fx, w, SwitchSuite(fx, w, r, c.id.suite).dev, c);
  }

  lemma {:induction false} CasesWatched(fx: Fixtures, w: World, r: Run, cases: seq<CaseInfo>)
    requires InStep(r) && Sorted(CaseId, cases)
    requires forall c :: c in cases ==> c.id.suite.Some? && StrCmp(r.open, c.id.suite) <= 0
    ensures InStep(RunCases(fx, w, r, cases))
    decreases |cases|
  {
    if cases == [] {
    } else {
      OneWatched(fx, w, r, cases[0]);
      forall c | c in cases[1..] ensures StrCmp(cases[0].id.suite, c.id.suite) <= 0 {
        assert IdCmp(CaseId(cases[0]), CaseId(c)) <= 0;
      }
      CasesWatched(fx, w, RunOne(fx, w, r, cases[0]), cases[1..]);
    }
  }

  /** Timelines only grow. */
  lemma {:induction false} ActionsExtend(d: Dev, actions: seq<Action>)
    ensures d.steps <= ActAll(d, actions).steps
    decreases |actions|
  {
    if actions == [] {
    } else {
      ActionsExtend(Act(d, actions[0]), actions[1..]);
    }
  }

  lemma InvokeExtends(w: World, d: Dev, role: Role, fn: Option<nat>)
    ensures d.steps <= Invoke(w, d, role, fn).steps
  {
    if fn.Some? {
      var entered := d.(steps := d.steps + [Call(role, fn.value)]);
      ActionsExtend(entered, w(entered.steps));
    }
  }

  lemma SuiteStepsExtend(fx: Fixtures, w: World, d: Dev, name: CStr, counts: Counts)
    ensures d.steps <= OpenSuite(fx, w, d, name).steps && d.steps <= CloseSuite(fx, w, d, name, counts).steps
  {
    var s := FindSuite(fx.suites, name);
    InvokeExtends(w, d, SuiteSetup, if s.None? then None else s.value.setup);
    InvokeExtends(w, d, SuiteTeardown, if s.None? then None else s.value.teardown);
  }

  lemma SwitchExtends(fx: Fixtures, w: World, r: Run, suite: CStr)
    ensures r.dev.steps <= SwitchSuite(fx, w, r, suite).dev.steps
  {
    SuiteStepsExtend(fx, w, r.dev, r.open, r.suite);
    SuiteStepsExtend(fx, w, CloseSuite(fx, w, r.dev, r.open, r.suite), suite, ZERO);
  }

  lemma BodyExtends(fx: Fixtures, w: World, d: Dev, c: CaseInfo)
    ensures d.steps + [Say(CaseOpen(c.id))] <= RunBody(fx, w, d, c).steps
  {
    var d0 := Emit(d.(cur := c.id, failed := false, skipped := false), CaseOpen(c.id));
    var d1 := Invoke(w, d0, GroupSetup, GroupSetupOf(fx, c.id));
    InvokeExtends(w, d0, GroupSetup, GroupSetupOf(fx, c.id));
    InvokeExtends(w, d1, Body, c.fn);
    InvokeExtends(w, Invoke(w, d1, Body, c.fn), GroupTeardown, GroupTeardownOf(fx, c.id));
  }

  lemma {:induction false} CasesExtend(fx: Fixtures, w: World, r: Run, cases: seq<CaseInfo>)
    ensures r.dev.steps <= RunCases(fx, w, r, cases).dev.steps
    decreases |cases|
  {
    if cases == [] {
    } else {
      var r1 := SwitchSuite(fx, w, r, cases[0].id.suite);
      SwitchExtends(fx, w, r, cases[0].id.suite);
      BodyExtends(fx, w, r1.dev, cases[0]);
      CasesExtend(fx, w, RunOne(fx, w, r, cases[0]), cases[1..]);
    }
  }

  lemma {:induction false} BadIsFinal(before: seq<Step>, after: seq<Step>)
    requires before <= after && Watched(before).Bad?
    ensures Watched(after).Bad?
    decreases |after|
  {
    if |before| < |after| {
      BadIsFinal(before, after[..|after| - 1]);
    } else {
      assert before == after;
    }
  }

  lemma {:induction false} NullSuiteIsBad(fx: Fixtures, w: World, r: Run, cases: seq<CaseInfo>, c: CaseInfo)
    requires c in cases && c.id.suite.None?
    ensures Watched(RunCases(fx, w, r, cases).dev.steps).Bad?
    decreases |cases|
  {
    var next := RunOne(fx, w, r, cases[0]);
    if c == cases[0] {
      var d := SwitchSuite(fx, w, r, c.id.suite).dev;
      WatchedSnoc(d.steps, Say(CaseOpen(c.id)));
      BodyExtends(fx, w, d, c);
      CasesExtend(fx, w, next, cases[1..]);
      BadIsFinal(d.steps + [Say(CaseOpen(c.id))], RunCases(fx, w, r, cases).dev.steps);
    } else {
      NullSuiteIsBad(fx, w, next, cases[1..], c);
    }
  }

  /** The timeline of a run over sorted cases is well-bracketed if and only if every selected case names a
      suite; the counts in its notes are then exact. */
  lemma RunIsWellBracketed(fx: Fixtures, w: World, left: Dev, selected: seq<CaseInfo>)
    requires Sorted(CaseId, selected)
    ensures Watched(WholeRun(fx, w, left, selected).steps).Finished? <==> forall c :: c in selected ==> c.id.suite.Some?
    ensures (forall c :: c in selected ==> c.id.suite.Some?) ==>
              Watched(WholeRun(fx, w, left, selected).steps) == Finished(RunTotal(fx, w, left, selected))
  {
    var start := StartRun(left);
    var r := RunCases(fx, w, start, selected);
    assert start.dev.steps == [] + [Say(Banner)];
    WatchedSnoc([], Say(Banner));
    EmitWatched(CloseSuite(fx, w, r.dev, r.open, r.suite), AllDone(r.total));
    if forall c :: c in selected ==> c.id.suite.Some? {
      CasesWatched(fx, w, start, selected);
      CloseWatched(fx, w, r);
    } else {
      var c :| c in selected && c.id.suite.None?;
      NullSuiteIsBad(fx, w, start, selected, c);
      SuiteStepsExtend(fx, w, r.dev, r.open, r.suite);
      BadIsFinal(r.dev.steps, WholeRun(fx, w, left, selected).steps);
    }
  }

  /** Every run: whatever is registered, whatever the filter selects and whatever user code does, the timeline is
      well-bracketed, with exact counts, if and only if every selected case names a suite. */
  lemma EveryRunIsWellBracketed(fx: Fixtures, w: World, left: Dev, f: Filter, registered: seq<CaseInfo>)
    ensures var selected := Selected(fx, f, Sort(CaseId, registered));
            var end := Watched(WholeRun(fx, w, left, selected).steps);
            && (end.Finished? <==> forall c :: c in selected ==> c.id.suite.Some?)
            && (end.Finished? ==> end == Finished(RunTotal(fx, w, left, selected)))
  {
    SortIsStableSort(CaseId, registered);
    SelectSorted(c => Matches(fx, f, c), Sort(CaseId, registered));
    RunIsWellBracketed(fx, w, left, Selected(fx, f, Sort(CaseId, registered)));
  }
}
