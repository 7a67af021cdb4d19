/** What one run of the on-target runner does, as a function of the cases it selects and of what callbacks do. */
module RunnerModel {
  import opened Protocol
  import opened DeviceWire
  import opened CaseOrder

  datatype CaseInfo = CaseInfo(id: Ident, fn: Option<nat>, tags: seq<Str>)

  datatype SuiteInfo = SuiteInfo(name: CStr, setup: Option<nat>, teardown: Option<nat>, tags: seq<Str>)

  datatype GroupInfo = GroupInfo(suite: CStr, name: CStr, setup: Option<nat>, teardown: Option<nat>, tags: seq<Str>)

  /** The registered suites and groups, most recently registered first. */
  datatype Fixtures = Fixtures(suites: seq<SuiteInfo>, groups: seq<GroupInfo>)

  datatype Counts = Counts(passed: nat, failed: nat, skipped: nat)

  const ZERO := Counts(0, 0, 0)

  function Bump(c: Counts, status: TestStatus): Counts {
    match status
    case Passed => c.(passed := c.passed + 1)
    case Failed => c.(failed := c.failed + 1)
    case Skipped => c.(skipped := c.skipped + 1)
  }

  function Add(a: Counts, b: Counts): Counts {
    Counts(a.passed + b.passed, a.failed + b.failed, a.skipped + b.skipped)
  }

  function Count(outcomes: seq<TestStatus>, status: TestStatus): nat {
    if outcomes == [] then 0 else (if outcomes[0] == status then 1 else 0) + Count(outcomes[1..], status)
  }

  function Tally(outcomes: seq<TestStatus>): Counts {
    Counts(Count(outcomes, Passed), Count(outcomes, Failed), Count(outcomes, Skipped))
  }

  /** The counter of one status. */
  function Of(c: Counts, status: TestStatus): nat {
    match status
    case Passed => c.passed
    case Failed => c.failed
    case Skipped => c.skipped
  }

  lemma {:induction false} CountConcat(a: seq<TestStatus>, b: seq<TestStatus>, status: TestStatus)
    ensures Count(a + b, status) == Count(a, status) + Count(b, status)
  {
    if a == [] {
      EmptyIsNeutral(b);
    } else {
      CountConcat(a[1..], b, status);
      assert (a + b)[1..] == a[1..] + b;
    }
  }

  lemma CountOne(last: TestStatus, status: TestStatus)
    ensures Count([], status) == 0 && Count([last], status) == if last == status then 1 else 0
  {
  }

  lemma IsTally(c: Counts, outcomes: seq<TestStatus>)
    requires forall status :: Of(c, status) == Count(outcomes, status)
    ensures c == Tally(outcomes)
  {
  }

  lemma SameCounts(a: Counts, b: Counts)
    requires forall status :: Of(a, status) == Of(b, status)
    ensures a == b
  {
    assert Of(a, Passed) == a.passed && Of(a, Failed) == a.failed && Of(a, Skipped) == a.skipped;
    assert Of(b, Passed) == b.passed && Of(b, Failed) == b.failed && Of(b, Skipped) == b.skipped;
  }

  /** What user code can do to the runner from inside a callback. */
  datatype Action =
    | Fail(file: CStr, line: int, message: CStr)
    | Ignore(message: CStr)
    | Abort

  datatype Note =
    | Banner
    | SuiteOpen(suite: CStr)
    | CaseOpen(id: Ident)
    | Failure(id: Ident, file: CStr, line: int, message: Str)
    | Ignored(id: Ident, message: Str)
    | CaseClose(id: Ident, status: TestStatus)
    | SuiteClose(suite: CStr, counts: Counts)
    | AllDone(counts: Counts)

  datatype Role = SuiteSetup | SuiteTeardown | GroupSetup | Body | GroupTeardown

  /** The observable timeline of a run: callbacks entered and notes emitted. */
  datatype Step = Call(role: Role, fn: nat) | Say(note: Note)

  /** Arbitrary user code: what a callback does may depend on everything that happened before it. */
  type World = seq<Step> -> seq<Action>

  datatype Dev = Dev(steps: seq<Step>, cur: Ident, failed: bool, skipped: bool)

  function Emit(d: Dev, note: Note): Dev {
    d.(steps := d.steps + [Say(note)])
  }

  function Act(d: Dev, a: Action): Dev {
    match a
    case Fail(file, line, message) =>
      Emit(d.(failed := true), Failure(d.cur, file, line, if message.None? then "fail" else message.value))
    case Ignore(message) =>
      var d' := d.(skipped := true);
      if Chars(message) == "" then d' else Emit(d', Ignored(d.cur, message.value))
    case Abort => d.(failed := true)
  }

  function ActAll(d: Dev, actions: seq<Action>): Dev
    decreases |actions|
  {
    if actions == [] then d else ActAll(Act(d, actions[0]), actions[1..])
  }

  /** A callback, when there is one. */
  function Invoke(w: World, d: Dev, role: Role, fn: Option<nat>): Dev {
    if fn.None? then d
    else var entered := d.(steps := d.steps + [Call(role, fn.value)]); ActAll(entered, w(entered.steps))
  }

  function FindSuite(suites: seq<SuiteInfo>, name: CStr): Option<SuiteInfo> {
    if suites == [] then None
    else if StrCmp(suites[0].name, name) == 0 then Some(suites[0])
    else FindSuite(suites[1..], name)
  }

  function FindGroup(groups: seq<GroupInfo>, suite: CStr, group: CStr): Option<GroupInfo> {
    if groups == [] then None
    else if StrCmp(groups[0].suite, suite) == 0 && StrCmp(groups[0].name, group) == 0 then Some(groups[0])
    else FindGroup(groups[1..], suite, group)
  }

  function SetupOf(fx: Fixtures, suite: CStr): Option<nat> {
    var s := FindSuite(fx.suites, suite);
    if s.None? then None else s.value.setup
  }

  function TeardownOf(fx: Fixtures, suite: CStr): Option<nat> {
    var s := FindSuite(fx.suites, suite);
    if s.None? then None else s.value.teardown
  }

  function GroupSetupOf(fx: Fixtures, id: Ident): Option<nat> {
    var g := FindGroup(fx.groups, id.suite, id.group);
    if g.None? then None else g.value.setup
  }

  function GroupTeardownOf(fx: Fixtures, id: Ident): Option<nat> {
    var g := FindGroup(fx.groups, id.suite, id.group);
    if g.None? then None else g.value.teardown
  }

  /** A case from its start to the end of its group teardown; the flags then decide its outcome. */
  function RunBody(fx: Fixtures, w: World, d: Dev, c: CaseInfo): Dev {
    var d0 := Emit(d.(cur := c.id, failed := false, skipped := false), CaseOpen(c.id));
    var d1 := Invoke(w, d0, GroupSetup, GroupSetupOf(fx, c.id));
    var d2 := Invoke(w, d1, Body, c.fn);
    Invoke(w, d2, GroupTeardown, GroupTeardownOf(fx, c.id))
  }

  /** A skip wins over a failure. */
  function Outcome(d: Dev): TestStatus {
    if d.skipped then Skipped else if d.failed then Failed else Passed
  }

  function OpenSuite(fx: Fixtures, w: World, d: Dev, name: CStr): Dev {
    Emit(Invoke(w, d, SuiteSetup, SetupOf(fx, name)), SuiteOpen(name))
  }

  function CloseSuite(fx: Fixtures, w: World, d: Dev, open: CStr, counts: Counts): Dev {
    if open.None? then d
    else Emit(Invoke(w, d, SuiteTeardown, TeardownOf(fx, open)), SuiteClose(open, counts))
  }

  datatype Run = Run(dev: Dev, open: CStr, suite: Counts, total: Counts)

  function SwitchSuite(fx: Fixtures, w: World, r: Run, suite: CStr): Run {
    if StrCmp(r.open, suite) == 0 then r
    else Run(OpenSuite(fx, w, CloseSuite(fx, w, r.dev, r.open, r.suite), suite), suite, ZERO, r.total)
  }

  function RunOne(fx: Fixtures, w: World, r: Run, c: CaseInfo): Run {
    var r1 := SwitchSuite(fx, w, r, c.id.suite);
    var d := RunBody(fx, w, r1.dev, c);
    Run(Emit(d, CaseClose(c.id, Outcome(d))), r1.open, Bump(r1.suite, Outcome(d)), Bump(r1.total, Outcome(d)))
  }

  function RunCases(fx: Fixtures, w: World, r: Run, cases: seq<CaseInfo>): Run
    decreases |cases|
  {
    if cases == [] then r else RunCases(fx, w, RunOne(fx, w, r, cases[0]), cases[1..])
  }

  /** A run starts a new timeline; identity and flags are whatever was left behind. */
  function StartRun(left: Dev): Run {
    Run(left.(steps := [Say(Banner)]), None, ZERO, ZERO)
  }

  function FinishRun(fx: Fixtures, w: World, r: Run): Dev {
    Emit(CloseSuite(fx, w, r.dev, r.open, r.suite), AllDone(r.total))
  }

  function WholeRun(fx: Fixtures, w: World, left: Dev, selected: seq<CaseInfo>): Dev {
    FinishRun(fx, w, RunCases(fx, w, StartRun(left), selected))
  }

  function RunTotal(fx: Fixtures, w: World, left: Dev, selected: seq<CaseInfo>): Counts {
    RunCases(fx, w, StartRun(left), selected).total
  }

  function Select(p: CaseInfo -> bool, cases: seq<CaseInfo>): seq<CaseInfo> {
    if cases == [] then []
    else if p(cases[0]) then [cases[0]] + Select(p, cases[1..])
    else Select(p, cases[1..])
  }

  function CaseId(c: CaseInfo): Ident {
    c.id
  }

  /** The entry that was registered last under this name: the first of the list. */
  ghost predicate IsSuite(suites: seq<SuiteInfo>, name: CStr, i: int) {
    0 <= i < |suites| && suites[i].name == name && forall j :: 0 <= j < i ==> suites[j].name != name
  }

  ghost predicate IsGroup(groups: seq<GroupInfo>, suite: CStr, group: CStr, i: int) {
    && 0 <= i < |groups| && groups[i].suite == suite && groups[i].name == group
    && forall j :: 0 <= j < i ==> groups[j].suite != suite || groups[j].name != group
  }

  /** The search finds the first entry of that name, and nothing if and only if there is none. */
  lemma {:induction false} FindSuiteMeaning(suites: seq<SuiteInfo>, name: CStr)
    ensures forall i :: IsSuite(suites, name, i) ==> FindSuite(suites, name) == Some(suites[i])
    ensures FindSuite(suites, name).Some? <==> exists i :: IsSuite(suites, name, i)
    ensures FindSuite(suites, name).None? <==> forall i :: 0 <= i < |suites| ==> suites[i].name != name
  {
    if suites == [] {
    } else {
      var rest := suites[1..];
      StrCmpLaws(suites[0].name, name);
      if suites[0].name == name {
        assert IsSuite(suites, name, 0);
      } else {
        FindSuiteMeaning(rest, name);
        forall i | IsSuite(suites, name, i) ensures FindSuite(suites, name) == Some(suites[i]) {
          assert rest[i - 1] == suites[i] && forall j :: 0 <= j < i - 1 ==> rest[j] == suites[j + 1];
          assert IsSuite(rest, name, i - 1);
        }
        if i :| IsSuite(rest, name, i) {
          assert forall j :: 0 < j <= i ==> suites[j] == rest[j - 1];
          assert IsSuite(suites, name, i + 1);
        }
        assert forall i :: 0 <= i < |rest| ==> rest[i] == suites[i + 1];
      }
    }
  }

  /** The same for a group of that name in a suite of that name. */
  lemma {:induction false} FindGroupMeaning(groups: seq<GroupInfo>, suite: CStr, group: CStr)
    ensures forall i :: IsGroup(groups, suite, group, i) ==> FindGroup(groups, suite, group) == Some(groups[i])
    ensures FindGroup(groups, suite, group).Some? <==> exists i :: IsGroup(groups, suite, group, i)
    ensures FindGroup(groups, suite, group).None? <==>
            forall i :: 0 <= i < |groups| ==> groups[i].suite != suite || groups[i].name != group
  {
    if groups == [] {
    } else {
      var rest := groups[1..];
      StrCmpLaws(groups[0].suite, suite);
      StrCmpLaws(groups[0].name, group);
      if groups[0].suite == suite && groups[0].name == group {
        assert IsGroup(groups, suite, group, 0);
      } else {
        FindGroupMeaning(rest, suite, group);
        forall i | IsGroup(groups, suite, group, i) ensures FindGroup(groups, suite, group) == Some(groups[i]) {
          assert rest[i - 1] == groups[i] && forall j :: 0 <= j < i - 1 ==> rest[j] == groups[j + 1];
          assert IsGroup(rest, suite, group, i - 1);
        }
        if i :| IsGroup(rest, suite, group, i) {
          assert forall j :: 0 < j <= i ==> groups[j] == rest[j - 1];
          assert IsGroup(groups, suite, group, i + 1);
        }
        assert forall i :: 0 <= i < |rest| ==> rest[i] == groups[i + 1];
      }
    }
  }

  /** The fixtures of a suite are those of its entry. */
  lemma SuiteFixturesMeaning(fx: Fixtures, suite: CStr)
    ensures forall i :: IsSuite(fx.suites, suite, i) ==>
              SetupOf(fx, suite) == fx.suites[i].setup && TeardownOf(fx, suite) == fx.suites[i].teardown
    ensures (forall i :: 0 <= i < |fx.suites| ==> fx.suites[i].name != suite) ==>
              SetupOf(fx, suite) == None && TeardownOf(fx, suite) == None
  {
    FindSuiteMeaning(fx.suites, suite);
  }

  /** The group fixtures of a case are those of the entry of its group in its suite. */
  lemma GroupFixturesMeaning(fx: Fixtures, id: Ident)
    ensures forall i :: IsGroup(fx.groups, id.suite, id.group, i) ==>
              GroupSetupOf(fx, id) == fx.groups[i].setup && GroupTeardownOf(fx, id) == fx.groups[i].teardown
    ensures (forall i :: 0 <= i < |fx.groups| ==> fx.groups[i].suite != id.suite || fx.groups[i].name != id.group) ==>
              GroupSetupOf(fx, id) == None && GroupTeardownOf(fx, id) == None
  {
    FindGroupMeaning(fx.groups, id.suite, id.group);
  }

  /** Counting by status is counting occurrences. */
  lemma {:induction false} CountMeaning(outcomes: seq<TestStatus>, status: TestStatus)
    ensures Count(outcomes, status) == multiset(outcomes)[status]
  {
    if outcomes == [] {
    } else {
      CountMeaning(outcomes[1..], status);
      assert outcomes == [outcomes[0]] + outcomes[1..];
    }
  }

  /** User code announces each failed assertion with its own place and message, and each skip that has a message;
      it clears no flag. */
  lemma ActMeaning(d: Dev, a: Action)
    ensures Act(d, a).failed <==> d.failed || a.Fail? || a.Abort?
    ensures Act(d, a).skipped <==> d.skipped || a.Ignore?
    ensures a.Fail? ==> exists message :: Act(d, a).steps == d.steps + [Say(Failure(d.cur, a.file, a.line, message))]
                                          && (a.message.Some? ==> message == a.message.value)
    ensures a.Ignore? && a.message.Some? && a.message.value != "" ==>
              Act(d, a).steps == d.steps + [Say(Ignored(d.cur, a.message.value))]
    ensures a.Abort? || (a.Ignore? && (a.message.None? || a.message.value == "")) ==> Act(d, a).steps == d.steps
  {
  }
}
