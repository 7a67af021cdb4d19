/** What suite fixtures see and do over a whole run, and what cases may rely on. */
module SuiteFixtures {
  import opened Protocol
  import opened DeviceWire
  import opened CaseOrder
  import opened Sorting
  import opened RunnerModel
  import opened Filters
  import opened RunVisits

  /** The part of a timeline that belongs to suites: their brackets and their fixtures. */
  datatype Mark = SetUp(fn: nat) | Opened(suite: CStr) | TornDown(fn: nat) | Closed(suite: CStr)

  function MarkOf(step: Step): seq<Mark> {
    match step
    case Call(role, fn) => if role.SuiteSetup? then [SetUp(fn)] else if role.SuiteTeardown? then [TornDown(fn)] else []
    case Say(note) =>
      if note.SuiteOpen? then [Opened(note.suite)] else if note.SuiteClose? then [Closed(note.suite)] else []
  }

  function Marks(steps: seq<Step>): seq<Mark> {
    if steps == [] then [] else Marks(steps[..|steps| - 1]) + MarkOf(steps[|steps| - 1])
  }

  /** Opening a suite: its registered setup, when it has one, and then its note. */
  function Opening(fx: Fixtures, suite: CStr): seq<Mark> {
    (if SetupOf(fx, suite).None? then [] else [SetUp(SetupOf(fx, suite).value)]) + [Opened(suite)]
  }

  function Closing(fx: Fixtures, suite: CStr): seq<Mark> {
    if suite.None? then []
    else (if TeardownOf(fx, suite).None? then [] else [TornDown(TeardownOf(fx, suite).value)]) + [Closed(suite)]
  }

  /** The suites that are opened for these cases when `open` is open already. */
  function SuitesOf(open: CStr, cases: seq<CaseInfo>): seq<CStr>
    decreases |cases|
  {
    if cases == [] then []
    else if StrCmp(open, cases[0].id.suite) == 0 then SuitesOf(open, cases[1..])
    else [cases[0].id.suite] + SuitesOf(cases[0].id.suite, cases[1..])
  }

  function SuiteVisits(fx: Fixtures, suites: seq<CStr>): seq<Mark> {
    if suites == [] then [] else Opening(fx, suites[0]) + Closing(fx, suites[0]) + SuiteVisits(fx, suites[1..])
  }

  lemma MarksSnoc(steps: seq<Step>, step: Step)
    ensures Marks(steps + [step]) == Marks(steps) + MarkOf(step)
  {
    assert (steps + [step])[..|steps|] == steps;
  }

  lemma MarksEmit(d: Dev, note: Note)
    ensures Marks(Emit(d, note).steps) == Marks(d.steps) + MarkOf(Say(note))
  {
    MarksSnoc(d.steps, Say(note));
  }

  lemma MarksReport(d: Dev, note: Note)
    requires note.Failure? || note.Ignored?
    ensures Marks(Emit(d, note).steps) == Marks(d.steps)
  {
    MarksEmit(d, note);
    EmptyIsNeutral(Marks(d.steps));
  }

  lemma MarksAct(d: Dev, a: Action)
    ensures Marks(Act(d, a).steps) == Marks(d.steps)
  {
    match a
    case Fail(file, line, message) =>
      MarksReport(d, Failure(d.cur, file, line, if message.None? then "fail" else message.value));
    case Ignore(message) =>
      if message.Some? {
        MarksReport(d, Ignored(d.cur, message.value));
      }
    case Abort =>
  }

  lemma {:induction false} MarksActions(d: Dev, actions: seq<Action>)
    ensures Marks(ActAll(d, actions).steps) == Marks(d.steps)
    decreases |actions|
  {
    if actions == [] {
    } else {
      MarksAct(d, actions[0]);
      MarksActions(Act(d, actions[0]), actions[1..]);
    }
  }

  lemma MarksInvoke(w: World, d: Dev, role: Role, fn: Option<nat>)
    ensures Marks(Invoke(w, d, role, fn).steps) ==
            Marks(d.steps) + if fn.None? then [] else MarkOf(Call(role, fn.value))
  {
    EmptyIsNeutral(Marks(d.steps));
    if fn.Some? {
      MarksSnoc(d.steps, Call(role, fn.value));
      MarksActions(d.(steps := d.steps + [Call(role, fn.value)]), w(d.steps + [Call(role, fn.value)]));
    }
  }

  /** Nothing that happens inside a case concerns suites. */
  lemma MarksBody(fx: Fixtures, w: World, d: Dev, c: CaseInfo)
    ensures var d0 := Emit(d.(cur := c.id, failed := false, skipped := false), CaseOpen(c.id));
            var d1 := Invoke(w, d0, GroupSetup, GroupSetupOf(fx, c.id));
            && Marks(d0.steps) == Marks(d.steps) && Marks(d1.steps) == Marks(d.steps)
            && Marks(Invoke(w, d1, Body, c.fn).steps) == Marks(d.steps)
            && Marks(RunBody(fx, w, d, c).steps) == Marks(d.steps)
  {
    var d0 := Emit(d.(cur := c.id, failed := false, skipped := false), CaseOpen(c.id));
    var d1 := Invoke(w, d0, GroupSetup, GroupSetupOf(fx, c.id));
    var d2 := Invoke(w, d1, Body, c.fn);
    EmptyIsNeutral(Marks(d.steps));
    MarksSnoc(d.steps, Say(CaseOpen(c.id)));
    MarksInvoke(w, d0, GroupSetup, GroupSetupOf(fx, c.id));
    MarksInvoke(w, d1, Body, c.fn);
    MarksInvoke(w, d2, GroupTeardown, GroupTeardownOf(fx, c.id));
  }

  lemma MarksClose(fx: Fixtures, w: World, d: Dev, open: CStr, counts: Counts)
    ensures Marks(CloseSuite(fx, w, d, open, counts).steps) == Marks(d.steps) + Closing(fx, open)
  {
    EmptyIsNeutral(Marks(d.steps));
    if open.Some? {
      var torn := Invoke(w, d, SuiteTeardown, TeardownOf(fx, open));
      MarksInvoke(w, d, SuiteTeardown, TeardownOf(fx, open));
      MarksEmit(torn, SuiteClose(open, counts));
      Associative(Marks(d.steps), if TeardownOf(fx, open).None? then [] else [TornDown(TeardownOf(fx, open).value)],
                  [Closed(open)]);
    }
  }

  lemma MarksOpen(fx: Fixtures, w: World, d: Dev, suite: CStr)
    ensures Marks(OpenSuite(fx, w, d, suite).steps) == Marks(d.steps) + Opening(fx, suite)
  {
    var up := Invoke(w, d, SuiteSetup, SetupOf(fx, suite));
    MarksInvoke(w, d, SuiteSetup, SetupOf(fx, suite));
    MarksEmit(up, SuiteOpen(suite));
    Associative(Marks(d.steps), if SetupOf(fx, suite).None? then [] else [SetUp(SetupOf(fx, suite).value)],
                [Opened(suite)]);
  }

  lemma MarksSwitch(fx: Fixtures, w: World, r: Run, suite: CStr)
    ensures Marks(SwitchSuite(fx, w, r, suite).dev.steps) ==
            if StrCmp(r.open, suite) == 0 then Marks(r.dev.steps)
            else Marks(r.dev.steps) + Closing(fx, r.open) + Opening(fx, suite)
  {
    if StrCmp(r.open, suite) != 0 {
      MarksClose(fx, w, r.dev, r.open, r.suite);
      MarksOpen(fx, w, CloseSuite(fx, w, r.dev, r.open, r.suite), suite);
    }
  }

  lemma MarksOne(fx: Fixtures, w: World, r: Run, c: CaseInfo)
    ensures Marks(RunOne(fx, w, r, c).dev.steps) == Marks(SwitchSuite(fx, w, r, c.id.suite).dev.steps)
    ensures RunOne(fx, w, r, c).open == c.id.suite
  {
    var d := SwitchSuite(fx, w, r, c.id.suite).dev;
    StrCmpLaws(r.open, c.id.suite);
    MarksBody(fx, w, d, c);
    MarksEmit(RunBody(fx, w, d, c), CaseClose(c.id, Outcome(RunBody(fx, w, d, c))));
    EmptyIsNeutral(Marks(d.steps));
  }

  lemma {:induction false} MarksFrom(fx: Fixtures, w: World, r: Run, cases: seq<CaseInfo>)
    ensures Marks(FinishRun(fx, w, RunCases(fx, w, r, cases)).steps) ==
            Marks(r.dev.steps) + Closing(fx, r.open) + SuiteVisits(fx, SuitesOf(r.open, cases))
    decreases |cases|
  {
    if cases == [] {
      MarksClose(fx, w, r.dev, r.open, r.suite);
      MarksEmit(CloseSuite(fx, w, r.dev, r.open, r.suite), AllDone(r.total));
    } else {
      var suite, next := cases[0].id.suite, RunOne(fx, w, r, cases[0]);
      MarksOne(fx, w, r, cases[0]);
      MarksSwitch(fx, w, r, suite);
      MarksFrom(fx, w, next, cases[1..]);
      StrCmpLaws(r.open, suite);
      if r.open != suite {
        VisitInFront(Marks(r.dev.steps) + Closing(fx, r.open), fx, suite, SuitesOf(suite, cases[1..]));
      }
    }
  }

  lemma VisitInFront(marks: seq<Mark>, fx: Fixtures, suite: CStr, suites: seq<CStr>)
    ensures marks + Opening(fx, suite) + Closing(fx, suite) + SuiteVisits(fx, suites) ==
            marks + SuiteVisits(fx, [suite] + suites)
  {
    assert ([suite] + suites)[1..] == suites;
    Associative(marks, Opening(fx, suite), Closing(fx, suite));
    Associative(marks, Opening(fx, suite) + Closing(fx, suite), SuiteVisits(fx, suites));
  }

  lemma SameSuiteOrder(a: Ident, b: Ident)
    requires IdCmp(a, b) <= 0
    ensures StrCmp(a.suite, b.suite) <= 0
  {
  }

  lemma SortedSuites(cases: seq<CaseInfo>)
    requires cases != [] && Sorted(CaseId, cases)
    ensures forall c :: c in cases[1..] ==> StrCmp(cases[0].id.suite, c.id.suite) <= 0
    ensures Sorted(CaseId, cases[1..])
  {
    forall c | c in cases[1..] ensures StrCmp(cases[0].id.suite, c.id.suite) <= 0 {
      SameSuiteOrder(cases[0].id, c.id);
    }
  }

  ghost predicate Increasing(suites: seq<CStr>) {
    forall i, j :: 0 <= i < j < |suites| ==> StrCmp(suites[i], suites[j]) < 0
  }

  ghost predicate SuiteIn(s: CStr, cases: seq<CaseInfo>) {
    exists c :: c in cases && c.id.suite == s
  }

  /** Over sorted cases the suites are opened in strictly increasing order: none twice. */
  lemma {:induction false} SuitesIncrease(open: CStr, cases: seq<CaseInfo>)
    requires Sorted(CaseId, cases) && forall c :: c in cases ==> StrCmp(open, c.id.suite) <= 0
    ensures Increasing(SuitesOf(open, cases)) && forall s :: s in SuitesOf(open, cases) ==> StrCmp(open, s) < 0
    decreases |cases|
  {
    if cases == [] {
    } else {
      var first := cases[0];
      assert first in cases;
      StrCmpLaws(open, first.id.suite);
      SortedSuites(cases);
      SuitesIncrease(first.id.suite, cases[1..]);
      if open != first.id.suite {
        forall s | s in SuitesOf(first.id.suite, cases[1..]) ensures StrCmp(open, s) < 0 {
          StrCmpTransitive(open, first.id.suite, s);
        }
      }
    }
  }

  /** Every suite that has a case is opened, unless it is open already. */
  lemma {:induction false} SuitesMembers(open: CStr, cases: seq<CaseInfo>, s: CStr)
    ensures SuiteIn(s, cases) ==> s in SuitesOf(open, cases) || s == open
    ensures s in SuitesOf(open, cases) ==> SuiteIn(s, cases)
    decreases |cases|
  {
    if cases == [] {
    } else {
      var first, rest := cases[0], cases[1..];
      assert cases == [first] + rest && first in cases;
      StrCmpLaws(open, first.id.suite);
      SuitesMembers(first.id.suite, rest, s);
    }
  }

  /** In every run, whatever is registered and selected and whatever user code does, each suite that has a selected
      case is opened and closed once, in order; its registered setup and teardown are entered exactly once, right
      before those notes; and no other suite fixture is entered. */
  lemma SuitesVisitedOnce(fx: Fixtures, w: World, left: Dev, f: Filter, registered: seq<CaseInfo>)
    ensures var selected := Selected(fx, f, Sort(CaseId, registered));
            var suites := SuitesOf(None, selected);
            && Marks(WholeRun(fx, w, left, selected).steps) == SuiteVisits(fx, suites)
            && Increasing(suites) && forall s :: s in suites <==> s.Some? && SuiteIn(s, selected)
  {
    var selected := Selected(fx, f, Sort(CaseId, registered));
    SortIsStableSort(CaseId, registered);
    SelectSorted(c => Matches(fx, f, c), Sort(CaseId, registered));
    MarksFrom(fx, w, StartRun(left), selected);
    SuitesIncrease(None, selected);
    forall s ensures s in SuitesOf(None, selected) <==> s.Some? && SuiteIn(s, selected) {
      SuitesMembers(None, selected, s);
    }
    assert StartRun(left).dev.steps[..0] == [];
    EmptyIsNeutral(SuiteVisits(fx, SuitesOf(None, selected)));
  }

  /** What the suite that is still open has behind it. */
  function SinceClosed(marks: seq<Mark>): seq<Mark> {
    if marks == [] || marks[|marks| - 1].Closed? then []
    else SinceClosed(marks[..|marks| - 1]) + [marks[|marks| - 1]]
  }

  lemma SinceSnoc(marks: seq<Mark>, mark: Mark)
    ensures SinceClosed(marks + [mark]) == if mark.Closed? then [] else SinceClosed(marks) + [mark]
  {
    assert (marks + [mark])[..|marks|] == marks;
  }

  lemma SinceOpening(fx: Fixtures, marks: seq<Mark>, suite: CStr)
    requires SinceClosed(marks) == []
    ensures SinceClosed(marks + Opening(fx, suite)) == Opening(fx, suite)
  {
    var setup := SetupOf(fx, suite);
    if setup.None? {
      SinceSnoc(marks, Opened(suite));
    } else {
      SinceSnoc(marks, SetUp(setup.value));
      SinceSnoc(marks + [SetUp(setup.value)], Opened(suite));
      Associative(marks, [SetUp(setup.value)], [Opened(suite)]);
    }
  }

  lemma SinceClosing(fx: Fixtures, marks: seq<Mark>, suite: CStr)
    requires suite.Some?
    ensures SinceClosed(marks + Closing(fx, suite)) == []
  {
    var all := marks + Closing(fx, suite);
    assert all[|all| - 1] == Closed(suite);
  }

  lemma {:induction false} OpenSuiteSeen(fx: Fixtures, w: World, left: Dev, cases: seq<CaseInfo>)
    requires forall c :: c in cases ==> c.id.suite.Some?
    ensures var r := RunCases(fx, w, StartRun(left), cases);
            SinceClosed(Marks(r.dev.steps)) == if r.open.None? then [] else Opening(fx, r.open)
    decreases |cases|
  {
    if cases == [] {
      assert StartRun(left).dev.steps[..0] == [];
    } else {
      var before, c := cases[..|cases| - 1], cases[|cases| - 1];
      assert cases == before + [c];
      OpenSuiteSeen(fx, w, left, before);
      RunCasesSnoc(fx, w, StartRun(left), before, c);
      SwitchedSuiteSeen(fx, w, RunCases(fx, w, StartRun(left), before), c.id.suite);
      MarksOne(fx, w, RunCases(fx, w, StartRun(left), before), c);
    }
  }

  lemma SwitchedSuiteSeen(fx: Fixtures, w: World, r: Run, suite: CStr)
    requires suite.Some? && SinceClosed(Marks(r.dev.steps)) == if r.open.None? then [] else Opening(fx, r.open)
    ensures SinceClosed(Marks(SwitchSuite(fx, w, r, suite).dev.steps)) == Opening(fx, suite)
  {
    MarksSwitch(fx, w, r, suite);
    StrCmpLaws(r.open, suite);
    if r.open != suite {
      EmptyIsNeutral(Marks(r.dev.steps));
      if r.open.Some? {
        SinceClosing(fx, Marks(r.dev.steps), r.open);
      }
      SinceOpening(fx, Marks(r.dev.steps) + Closing(fx, r.open), suite);
    }
  }

  /** The callbacks of a case look only at what the fixtures of its own suite have done. */
  ghost predicate SuiteAware(w: World, act: (Role, nat, seq<Mark>) -> seq<Action>) {
    forall steps: seq<Step>, role: Role, fn: nat :: !role.SuiteSetup? && !role.SuiteTeardown? ==>
      w(steps + [Call(role, fn)]) == act(role, fn, SinceClosed(Marks(steps)))
  }

  function AwareVerdict(act: (Role, nat, seq<Mark>) -> seq<Action>, fx: Fixtures, c: CaseInfo): TestStatus {
    CaseVerdict((role: Role, fn: nat) => act(role, fn, Opening(fx, c.id.suite)), fx, c)
  }

  lemma AwareCallback(w: World, act: (Role, nat, seq<Mark>) -> seq<Action>, own: (Role, nat) -> seq<Action>,
                      d: Dev, role: Role, fn: Option<nat>, seen: seq<Mark>)
    requires SuiteAware(w, act) && !role.SuiteSetup? && !role.SuiteTeardown? && SinceClosed(Marks(d.steps)) == seen
    requires forall f: nat :: own(role, f) == act(role, f, seen)
    ensures ActionsOf(w, d, role, fn) == CallbackActions(own, role, fn)
  {
  }

  lemma AwareOutcome(fx: Fixtures, w: World, act: (Role, nat, seq<Mark>) -> seq<Action>, d: Dev, c: CaseInfo)
    requires SuiteAware(w, act) && SinceClosed(Marks(d.steps)) == Opening(fx, c.id.suite)
    ensures Outcome(RunBody(fx, w, d, c)) == AwareVerdict(act, fx, c)
  {
    var own := (role: Role, fn: nat) => act(role, fn, Opening(fx, c.id.suite));
    var d0 := Emit(d.(cur := c.id, failed := false, skipped := false), CaseOpen(c.id));
    var d1 := Invoke(w, d0, GroupSetup, GroupSetupOf(fx, c.id));
    MarksBody(fx, w, d, c);
    AwareCallback(w, act, own, d0, GroupSetup, GroupSetupOf(fx, c.id), Opening(fx, c.id.suite));
    AwareCallback(w, act, own, d1, Body, c.fn, Opening(fx, c.id.suite));
    AwareCallback(w, act, own, Invoke(w, d1, Body, c.fn), GroupTeardown, GroupTeardownOf(fx, c.id),
                  Opening(fx, c.id.suite));
    assert Performed(fx, w, d, c) ==
           CallbackActions(own, GroupSetup, GroupSetupOf(fx, c.id)) + CallbackActions(own, Body, c.fn)
           + CallbackActions(own, GroupTeardown, GroupTeardownOf(fx, c.id));
    OutcomeIsVerdict(fx, w, d, c);
  }

  /** Cases that rely on their own suite's setup, and on nothing another case did, have outcomes of their own. */
  lemma SuiteAwareIsIndependent(
    fx: Fixtures, w: World, registered: seq<CaseInfo>, act: (Role, nat, seq<Mark>) -> seq<Action>)
    requires SuiteAware(w, act) && forall c :: c in registered ==> c.id.suite.Some?
    ensures Independent(fx, w, registered, c => AwareVerdict(act, fx, c))
  {
    forall left, before, c |
      c in registered && (forall b :: b in before ==> b in registered)
      && Sorted(CaseId, before + [c]) && DistinctIds(CaseId, before + [c])
      ensures Outcome(RunBody(fx, w, Reached(fx, w, left, before, c), c)) == AwareVerdict(act, fx, c)
    {
      OpenSuiteSeen(fx, w, left, before);
      SwitchedSuiteSeen(fx, w, RunCases(fx, w, StartRun(left), before), c.id.suite);
      AwareOutcome(fx, w, act, Reached(fx, w, left, before, c), c);
    }
  }
}
