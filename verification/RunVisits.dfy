/** Which cases a run visits, which callbacks it enters for them, and what decides each outcome. */
module RunVisits {
  import opened Protocol
  import opened DeviceWire
  import opened CaseOrder
  import opened Sorting
  import opened RunnerModel

  /** The part of a timeline that belongs to cases: their brackets and their callbacks. */
  function Skeleton(steps: seq<Step>): seq<Step> {
    if steps == [] then []
    else
      var last := steps[|steps| - 1];
      Skeleton(steps[..|steps| - 1]) + (if OfCase(last) then [last] else [])
  }

  predicate OfCase(step: Step) {
    match step
    case Call(role, _) => role == GroupSetup || role == Body || role == GroupTeardown
    case Say(note) => note.CaseOpen? || note.CaseClose?
  }

  function Calls(role: Role, fn: Option<nat>): seq<Step> {
    if fn.None? then [] else [Call(role, fn.value)]
  }

  /** One case in full: opened, its group's setup, its body, its group's teardown, closed with its outcome. */
  function Visit(fx: Fixtures, c: CaseInfo, outcome: TestStatus): seq<Step> {
    [Say(CaseOpen(c.id))] + Calls(GroupSetup, GroupSetupOf(fx, c.id)) + Calls(Body, c.fn)
    + Calls(GroupTeardown, GroupTeardownOf(fx, c.id)) + [Say(CaseClose(c.id, outcome))]
  }

  function Visits(fx: Fixtures, cases: seq<CaseInfo>, outcomes: seq<TestStatus>): seq<Step>
    requires |cases| == |outcomes|
  {
    if cases == [] then [] else Visit(fx, cases[0], outcomes[0]) + Visits(fx, cases[1..], outcomes[1..])
  }

  /** The outcomes of the cases of a run, in order. */
  function Outcomes(fx: Fixtures, w: World, r: Run, cases: seq<CaseInfo>): (outcomes: seq<TestStatus>)
    ensures |outcomes| == |cases|
    decreases |cases|
  {
    if cases == [] then []
    else
      [Outcome(RunBody(fx, w, SwitchSuite(fx, w, r, cases[0].id.suite).dev, cases[0]))]
      + Outcomes(fx, w, RunOne(fx, w, r, cases[0]), cases[1..])
  }

  lemma SkeletonSnoc(steps: seq<Step>, step: Step)
    ensures Skeleton(steps + [step]) == Skeleton(steps) + (if OfCase(step) then [step] else [])
  {
  }

  lemma SkeletonEmit(d: Dev, note: Note)
    ensures Skeleton(Emit(d, note).steps) ==
            Skeleton(d.steps) + (if note.CaseOpen? || note.CaseClose? then [Say(note)] else [])
  {
  }

  lemma {:induction false} SkeletonActions(d: Dev, actions: seq<Action>)
    ensures Skeleton(ActAll(d, actions).steps) == Skeleton(d.steps)
    decreases |actions|
  {
    if actions == [] {
    } else {
      SkeletonAct(d, actions[0]);
      SkeletonActions(Act(d, actions[0]), actions[1..]);
    }
  }

  lemma SkeletonAct(d: Dev, a: Action)
    ensures Skeleton(Act(d, a).steps) == Skeleton(d.steps)
  {
    match a
    case Fail(file, line, message) =>
      SkeletonEmit(d, Failure(d.cur, file, line, if message.None? then "fail" else message.value));
    case Ignore(message) =>
      if message.Some? {
        SkeletonEmit(d, Ignored(d.cur, message.value));
      }
    case Abort =>
  }

  lemma SkeletonInvoke(w: World, d: Dev, role: Role, fn: Option<nat>)
    ensures Skeleton(Invoke(w, d, role, fn).steps) ==
            Skeleton(d.steps) + if role == SuiteSetup || role == SuiteTeardown then [] else Calls(role, fn)
  {
    EmptyIsNeutral(Skeleton(d.steps));
    if fn.Some? {
      var entered := d.(steps := d.steps + [Call(role, fn.value)]);
      SkeletonSnoc(d.steps, Call(role, fn.value));
      SkeletonActions(entered, w(entered.steps));
    }
  }

  lemma SkeletonClose(fx: Fixtures, w: World, d: Dev, open: CStr, counts: Counts)
    ensures Skeleton(CloseSuite(fx, w, d, open, counts).steps) == Skeleton(d.steps)
  {
    if open.Some? {
      var s := FindSuite(fx.suites, open);
      var teardown := if s.None? then None else s.value.teardown;
      SkeletonInvoke(w, d, SuiteTeardown, teardown);
      SkeletonEmit(Invoke(w, d, SuiteTeardown, teardown), SuiteClose(open, counts));
    }
  }

  lemma SkeletonSwitch(fx: Fixtures, w: World, r: Run, suite: CStr)
    ensures Skeleton(SwitchSuite(fx, w, r, suite).dev.steps) == Skeleton(r.dev.steps)
  {
    if StrCmp(r.open, suite) != 0 {
      SkeletonClose(fx, w, r.dev, r.open, r.suite);
      var closed := CloseSuite(fx, w, r.dev, r.open, r.suite);
      var s := FindSuite(fx.suites, suite);
      var setup := if s.None? then None else s.value.setup;
      SkeletonInvoke(w, closed, SuiteSetup, setup);
      SkeletonEmit(Invoke(w, closed, SuiteSetup, setup), SuiteOpen(suite));
    }
  }

  lemma SkeletonOne(fx: Fixtures, w: World, r: Run, c: CaseInfo)
    ensures var outcome := Outcome(RunBody(fx, w, SwitchSuite(fx, w, r, c.id.suite).dev, c));
            Skeleton(RunOne(fx, w, r, c).dev.steps) == Skeleton(r.dev.steps) + Visit(fx, c, outcome)
  {
    var r1 := SwitchSuite(fx, w, r, c.id.suite);
    SkeletonSwitch(fx, w, r, c.id.suite);
    var d0 := Emit(r1.dev.(cur := c.id, failed := false, skipped := false), CaseOpen(c.id));
    SkeletonSnoc(r1.dev.steps, Say(CaseOpen(c.id)));
    var d1 := Invoke(w, d0, GroupSetup, GroupSetupOf(fx, c.id));
    SkeletonInvoke(w, d0, GroupSetup, GroupSetupOf(fx, c.id));
    var d2 := Invoke(w, d1, Body, c.fn);
    SkeletonInvoke(w, d1, Body, c.fn);
    var d3 := Invoke(w, d2, GroupTeardown, GroupTeardownOf(fx, c.id));
    SkeletonInvoke(w, d2, GroupTeardown, GroupTeardownOf(fx, c.id));
    SkeletonEmit(d3, CaseClose(c.id, Outcome(d3)));
    FiveParts(Skeleton(r.dev.steps), [Say(CaseOpen(c.id))], Calls(GroupSetup, GroupSetupOf(fx, c.id)),
              Calls(Body, c.fn), Calls(GroupTeardown, GroupTeardownOf(fx, c.id)), [Say(CaseClose(c.id, Outcome(d3)))]);
  }

  lemma {:induction false} VisitsOfCases(fx: Fixtures, w: World, r: Run, cases: seq<CaseInfo>)
    ensures Skeleton(RunCases(fx, w, r, cases).dev.steps) ==
            Skeleton(r.dev.steps) + Visits(fx, cases, Outcomes(fx, w, r, cases))
    decreases |cases|
  {
    if cases == [] {
      EmptyIsNeutral(Skeleton(r.dev.steps));
    } else {
      var outcomes := Outcomes(fx, w, r, cases);
      SkeletonOne(fx, w, r, cases[0]);
      VisitsOfCases(fx, w, RunOne(fx, w, r, cases[0]), cases[1..]);
      Associative(Skeleton(r.dev.steps), Visit(fx, cases[0], outcomes[0]), Visits(fx, cases[1..], outcomes[1..]));
    }
  }

  lemma {:induction false} TotalOfCases(fx: Fixtures, w: World, r: Run, cases: seq<CaseInfo>, status: TestStatus)
    ensures Of(RunCases(fx, w, r, cases).total, status) ==
            Of(r.total, status) + Count(Outcomes(fx, w, r, cases), status)
    decreases |cases|
  {
    if cases == [] {
    } else {
      var next, outcomes := RunOne(fx, w, r, cases[0]), Outcomes(fx, w, r, cases);
      TotalOfCases(fx, w, next, cases[1..], status);
      assert outcomes[1..] == Outcomes(fx, w, next, cases[1..]);
    }
  }

  /** The totals of a run are the outcomes of the cases it ran. */
  lemma RunTotalsOutcomes(fx: Fixtures, w: World, left: Dev, selected: seq<CaseInfo>)
    ensures RunTotal(fx, w, left, selected) == Tally(Outcomes(fx, w, StartRun(left), selected))
  {
    var outcomes := Outcomes(fx, w, StartRun(left), selected);
    forall status ensures Of(RunTotal(fx, w, left, selected), status) == Count(outcomes, status) {
      TotalOfCases(fx, w, StartRun(left), selected, status);
    }
    IsTally(RunTotal(fx, w, left, selected), outcomes);
  }

  /** Whatever user code does, a run opens and closes exactly the selected cases, in order, and enters exactly
      their callbacks between those notes. */
  lemma RunVisitsSelected(fx: Fixtures, w: World, left: Dev, selected: seq<CaseInfo>)
    ensures Skeleton(WholeRun(fx, w, left, selected).steps) ==
            Visits(fx, selected, Outcomes(fx, w, StartRun(left), selected))
  {
    var start := StartRun(left);
    VisitsOfCases(fx, w, start, selected);
    StartSkeleton(left);
    EmptyIsNeutral(Visits(fx, selected, Outcomes(fx, w, start, selected)));
    SkeletonFinish(fx, w, RunCases(fx, w, start, selected));
  }

  lemma StartSkeleton(left: Dev)
    ensures Skeleton(StartRun(left).dev.steps) == []
  {
  }

  lemma SkeletonFinish(fx: Fixtures, w: World, r: Run)
    ensures Skeleton(FinishRun(fx, w, r).steps) == Skeleton(r.dev.steps)
  {
    SkeletonClose(fx, w, r.dev, r.open, r.suite);
    SkeletonEmit(CloseSuite(fx, w, r.dev, r.open, r.suite), AllDone(r.total));
  }

  predicate Skips(actions: seq<Action>) {
    exists i :: 0 <= i < |actions| && actions[i].Ignore?
  }

  predicate Fails(actions: seq<Action>) {
    exists i :: 0 <= i < |actions| && !actions[i].Ignore?
  }

  /** A skip anywhere wins; otherwise any failed assertion or abort fails the case. */
  function Verdict(actions: seq<Action>): TestStatus {
    if Skips(actions) then Skipped else if Fails(actions) then Failed else Passed
  }

  function ActionsOf(w: World, d: Dev, role: Role, fn: Option<nat>): seq<Action> {
    if fn.None? then [] else w(d.steps + [Call(role, fn.value)])
  }

  /** Everything user code does between a case's opening and its outcome. */
  function Performed(fx: Fixtures, w: World, d: Dev, c: CaseInfo): seq<Action> {
    var d0 := Emit(d.(cur := c.id, failed := false, skipped := false), CaseOpen(c.id));
    var d1 := Invoke(w, d0, GroupSetup, GroupSetupOf(fx, c.id));
    var d2 := Invoke(w, d1, Body, c.fn);
    ActionsOf(w, d0, GroupSetup, GroupSetupOf(fx, c.id)) + ActionsOf(w, d1, Body, c.fn)
    + ActionsOf(w, d2, GroupTeardown, GroupTeardownOf(fx, c.id))
  }

  lemma {:induction false} FlagsOfActions(d: Dev, actions: seq<Action>)
    ensures ActAll(d, actions).failed <==> d.failed || Fails(actions)
    ensures ActAll(d, actions).skipped <==> d.skipped || Skips(actions)
    decreases |actions|
  {
    if actions == [] {
    } else {
      FlagsOfActions(Act(d, actions[0]), actions[1..]);
      assert actions == [actions[0]] + actions[1..];
      SplitActions([actions[0]], actions[1..]);
    }
  }

  lemma SplitActions(a: seq<Action>, b: seq<Action>)
    ensures Skips(a + b) <==> Skips(a) || Skips(b)
    ensures Fails(a + b) <==> Fails(a) || Fails(b)
  {
    forall i | 0 <= i < |a| ensures (a + b)[i] == a[i] {}
    forall i | 0 <= i < |b| ensures (a + b)[|a| + i] == b[i] {}
  }

  lemma FlagsOfInvoke(w: World, d: Dev, role: Role, fn: Option<nat>)
    ensures Invoke(w, d, role, fn).failed <==> d.failed || Fails(ActionsOf(w, d, role, fn))
    ensures Invoke(w, d, role, fn).skipped <==> d.skipped || Skips(ActionsOf(w, d, role, fn))
  {
    if fn.Some? {
      var entered := d.(steps := d.steps + [Call(role, fn.value)]);
      FlagsOfActions(entered, w(entered.steps));
    }
  }

  /** The outcome depends only on what was done inside the case: never on earlier cases or suite fixtures. */
  lemma OutcomeIsVerdict(fx: Fixtures, w: World, d: Dev, c: CaseInfo)
    ensures Outcome(RunBody(fx, w, d, c)) == Verdict(Performed(fx, w, d, c))
  {
    var d0 := Emit(d.(cur := c.id, failed := false, skipped := false), CaseOpen(c.id));
    var d1 := Invoke(w, d0, GroupSetup, GroupSetupOf(fx, c.id));
    var d2 := Invoke(w, d1, Body, c.fn);
    var a0, a1 := ActionsOf(w, d0, GroupSetup, GroupSetupOf(fx, c.id)), ActionsOf(w, d1, Body, c.fn);
    FlagsOfInvoke(w, d0, GroupSetup, GroupSetupOf(fx, c.id));
    FlagsOfInvoke(w, d1, Body, c.fn);
    FlagsOfInvoke(w, d2, GroupTeardown, GroupTeardownOf(fx, c.id));
    SplitActions(a0, a1);
    SplitActions(a0 + a1, ActionsOf(w, d2, GroupTeardown, GroupTeardownOf(fx, c.id)));
  }

  /** User code without memory: every callback always does the same. */
  ghost predicate Memoryless(w: World, act: (Role, nat) -> seq<Action>) {
    forall steps: seq<Step>, role: Role, fn: nat :: w(steps + [Call(role, fn)]) == act(role, fn)
  }

  function CallbackActions(act: (Role, nat) -> seq<Action>, role: Role, fn: Option<nat>): seq<Action> {
    if fn.None? then [] else act(role, fn.value)
  }

  function CaseVerdict(act: (Role, nat) -> seq<Action>, fx: Fixtures, c: CaseInfo): TestStatus {
    Verdict(CallbackActions(act, GroupSetup, GroupSetupOf(fx, c.id)) + CallbackActions(act, Body, c.fn)
            + CallbackActions(act, GroupTeardown, GroupTeardownOf(fx, c.id)))
  }

  /** The state in which the next case finds the device: its suite open, after these cases of the same run. */
  function Reached(fx: Fixtures, w: World, left: Dev, before: seq<CaseInfo>, c: CaseInfo): Dev {
    SwitchSuite(fx, w, RunCases(fx, w, StartRun(left), before), c.id.suite).dev
  }

  /** A case's outcome is its own: the same in every run, whichever other registered cases ran before it in order
      and whatever an earlier run left behind. It may well depend on what its suite's fixtures did. */
  ghost predicate Independent(fx: Fixtures, w: World, registered: seq<CaseInfo>, outcome: CaseInfo -> TestStatus) {
    forall left, before, c ::
      c in registered && (forall b :: b in before ==> b in registered)
      && Sorted(CaseId, before + [c]) && DistinctIds(CaseId, before + [c]) ==>
        Outcome(RunBody(fx, w, Reached(fx, w, left, before, c), c)) == outcome(c)
  }

  lemma MemorylessOutcome(fx: Fixtures, w: World, act: (Role, nat) -> seq<Action>, d: Dev, c: CaseInfo)
    requires Memoryless(w, act)
    ensures Outcome(RunBody(fx, w, d, c)) == CaseVerdict(act, fx, c)
  {
    OutcomeIsVerdict(fx, w, d, c);
  }

  /** Callbacks that always act alike make outcomes independent. */
  lemma MemorylessIsIndependent(fx: Fixtures, w: World, registered: seq<CaseInfo>, act: (Role, nat) -> seq<Action>)
    requires Memoryless(w, act)
    ensures Independent(fx, w, registered, c => CaseVerdict(act, fx, c))
  {
    forall left, before, c
      ensures Outcome(RunBody(fx, w, Reached(fx, w, left, before, c), c)) == CaseVerdict(act, fx, c)
    {
      MemorylessOutcome(fx, w, act, Reached(fx, w, left, before, c), c);
    }
  }

  function OwnOutcomes(outcome: CaseInfo -> TestStatus, cases: seq<CaseInfo>): seq<TestStatus> {
    seq(|cases|, i requires 0 <= i < |cases| => outcome(cases[i]))
  }

  lemma {:induction false} RunCasesSnoc(fx: Fixtures, w: World, r: Run, cases: seq<CaseInfo>, c: CaseInfo)
    ensures RunCases(fx, w, r, cases + [c]) == RunOne(fx, w, RunCases(fx, w, r, cases), c)
    ensures Outcomes(fx, w, r, cases + [c]) ==
            Outcomes(fx, w, r, cases)
            + [Outcome(RunBody(fx, w, SwitchSuite(fx, w, RunCases(fx, w, r, cases), c.id.suite).dev, c))]
    decreases |cases|
  {
    if cases == [] {
      assert cases + [c] == [c] && [c][1..] == [];
    } else {
      assert (cases + [c])[1..] == cases[1..] + [c];
      RunCasesSnoc(fx, w, RunOne(fx, w, r, cases[0]), cases[1..], c);
    }
  }

  /** The outcomes of every run over some of the registered cases, in order, are those of each case on its own. */
  lemma {:induction false} IndependentOutcomes(
    fx: Fixtures, w: World, registered: seq<CaseInfo>, outcome: CaseInfo -> TestStatus, left: Dev, cases: seq<CaseInfo>)
    requires Independent(fx, w, registered, outcome)
    requires (forall c :: c in cases ==> c in registered) && Sorted(CaseId, cases) && DistinctIds(CaseId, cases)
    ensures Outcomes(fx, w, StartRun(left), cases) == OwnOutcomes(outcome, cases)
    decreases |cases|
  {
    if cases == [] {
    } else {
      var before, c := cases[..|cases| - 1], cases[|cases| - 1];
      assert cases == before + [c];
      IndependentOutcomes(fx, w, registered, outcome, left, before);
      RunCasesSnoc(fx, w, StartRun(left), before, c);
      assert Outcome(RunBody(fx, w, Reached(fx, w, left, before, c), c)) == outcome(c);
    }
  }
}
