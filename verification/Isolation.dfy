/** The isolated run against the in-process run: discovery, one child per case over the wire, and the totals. */
module Isolation {
  import opened Protocol
  import opened Framing
  import opened HostCodec
  import opened DeviceWire
  import opened CaseOrder
  import opened Sorting
  import opened RunnerModel
  import opened RunVisits
  import opened Filters
  import opened DeviceRun
  import opened Discovery
  import opened Supervisor

  /** The outcomes a timeline announces. */
  function Closed(steps: seq<Step>): seq<TestStatus> {
    if steps == [] then []
    else
      var last := steps[|steps| - 1];
      Closed(steps[..|steps| - 1]) + (if last.Say? && last.note.CaseClose? then [last.note.status] else [])
  }

  lemma {:induction false} ClosedConcat(a: seq<Step>, b: seq<Step>)
    ensures Closed(a + b) == Closed(a) + Closed(b)
    decreases |b|
  {
    if b == [] {
      EmptyIsNeutral(a);
      EmptyIsNeutral(Closed(a));
    } else {
      var init, last := b[..|b| - 1], b[|b| - 1];
      ClosedConcat(a, init);
      assert (a + b)[..|a + b| - 1] == a + init;
      Associative(Closed(a), Closed(init), if last.Say? && last.note.CaseClose? then [last.note.status] else []);
    }
  }

  lemma {:induction false} ClosedOfSkeleton(steps: seq<Step>)
    ensures Closed(Skeleton(steps)) == Closed(steps)
  {
    if steps == [] {
    } else {
      var init, last := steps[..|steps| - 1], steps[|steps| - 1];
      ClosedOfSkeleton(init);
      ClosedConcat(Skeleton(init), if OfCase(last) then [last] else []);
      ClosedOne(last);
      EmptyIsNeutral(Closed(init));
    }
  }

  lemma ClosedOne(step: Step)
    ensures Closed([]) == []
    ensures Closed([step]) == if step.Say? && step.note.CaseClose? then [step.note.status] else []
  {
  }

  lemma ClosedCalls(role: Role, fn: Option<nat>)
    ensures Closed(Calls(role, fn)) == []
  {
  }

  lemma ClosedVisit(fx: Fixtures, c: CaseInfo, outcome: TestStatus)
    ensures Closed(Visit(fx, c, outcome)) == [outcome]
  {
    var a := [Say(CaseOpen(c.id))];
    var b, d := Calls(GroupSetup, GroupSetupOf(fx, c.id)), Calls(Body, c.fn);
    var e := Calls(GroupTeardown, GroupTeardownOf(fx, c.id));
    ClosedConcat(a, b);
    ClosedConcat(a + b, d);
    ClosedConcat(a + b + d, e);
    ClosedConcat(a + b + d + e, [Say(CaseClose(c.id, outcome))]);
    ClosedOne(Say(CaseOpen(c.id)));
    ClosedOne(Say(CaseClose(c.id, outcome)));
    ClosedCalls(GroupSetup, GroupSetupOf(fx, c.id));
    ClosedCalls(Body, c.fn);
    ClosedCalls(GroupTeardown, GroupTeardownOf(fx, c.id));
  }

  lemma {:induction false} ClosedVisits(fx: Fixtures, cases: seq<CaseInfo>, outcomes: seq<TestStatus>)
    requires |cases| == |outcomes|
    ensures Closed(Visits(fx, cases, outcomes)) == outcomes
  {
    if cases == [] {
    } else {
      ClosedVisits(fx, cases[1..], outcomes[1..]);
      ClosedVisit(fx, cases[0], outcomes[0]);
      ClosedConcat(Visit(fx, cases[0], outcomes[0]), Visits(fx, cases[1..], outcomes[1..]));
      assert outcomes == [outcomes[0]] + outcomes[1..];
    }
  }

  lemma {:induction false} EndsAreClosed(steps: seq<Step>)
    ensures EndStatuses(Events(steps)) == Closed(steps)
  {
    if steps == [] {
    } else {
      var init, last := steps[..|steps| - 1], steps[|steps| - 1];
      EndsAreClosed(init);
      if last.Say? && EventOfNote(last.note).Some? {
        EndsSnoc(Events(init), EventOfNote(last.note).value);
      } else {
        EmptyIsNeutral(Events(init));
        EmptyIsNeutral(Closed(init));
      }
    }
  }

  lemma EndsSnoc(events: seq<Event>, e: Event)
    ensures EndStatuses(events + [e]) == EndStatuses(events) + (if e.CaseEnd? then [e.status] else [])
  {
  }

  /** In every run, whatever user code does, the case ends sent to the host are the outcomes of the cases run. */
  lemma EndsOfRun(fx: Fixtures, w: World, left: Dev, selected: seq<CaseInfo>)
    ensures EndStatuses(Events(WholeRun(fx, w, left, selected).steps)) ==
            Outcomes(fx, w, StartRun(left), selected)
  {
    var steps := WholeRun(fx, w, left, selected).steps;
    RunVisitsSelected(fx, w, left, selected);
    EndsAreClosed(steps);
    ClosedOfSkeleton(steps);
    ClosedVisits(fx, selected, Outcomes(fx, w, StartRun(left), selected));
  }

  lemma {:induction false} CarriedEnds(events: seq<Event>)
    ensures EndStatuses(CarriedAll(events)) == EndStatuses(events)
    ensures Ran(CarriedAll(events)) <==> Ran(events)
  {
    if events == [] {
    } else {
      var init, last := events[..|events| - 1], events[|events| - 1];
      CarriedEnds(init);
      assert CarriedAll(events)[..|events| - 1] == CarriedAll(init);
      assert forall i :: 0 <= i < |events| ==> (CarriedAll(events)[i].CaseStart? <==> events[i].CaseStart?);
    }
  }

  /** A timeline that closes a case has opened one, so a start reaches the host. */
  lemma {:induction false} OpenedIsSent(steps: seq<Step>, k: nat)
    requires k < |steps| && steps[k].Say? && steps[k].note.CaseOpen?
    ensures Ran(Events(steps))
  {
    var init, last := steps[..|steps| - 1], steps[|steps| - 1];
    if k < |steps| - 1 {
      OpenedIsSent(init, k);
      var i :| 0 <= i < |Events(init)| && Events(init)[i].CaseStart?;
      assert Events(steps)[i] == Events(init)[i];
    } else {
      assert Events(steps)[|Events(init)|] == EventOfNote(last.note).value;
    }
  }

  lemma {:induction false} SkeletonIsPart(steps: seq<Step>, k: nat)
    requires k < |Skeleton(steps)|
    ensures Skeleton(steps)[k] in steps
  {
    var init := steps[..|steps| - 1];
    if k < |Skeleton(init)| {
      SkeletonIsPart(init, k);
      assert Skeleton(init)[k] in init;
    }
  }

  lemma RunSendsStart(fx: Fixtures, w: World, left: Dev, c: CaseInfo)
    ensures Ran(Events(WholeRun(fx, w, left, [c]).steps))
  {
    var steps := WholeRun(fx, w, left, [c]).steps;
    var outcomes := Outcomes(fx, w, StartRun(left), [c]);
    RunVisitsSelected(fx, w, left, [c]);
    FirstOfVisits(fx, [c], outcomes);
    SkeletonIsPart(steps, 0);
    var k :| 0 <= k < |steps| && steps[k] == Say(CaseOpen(c.id));
    OpenedIsSent(steps, k);
  }

  lemma FirstOfVisits(fx: Fixtures, cases: seq<CaseInfo>, outcomes: seq<TestStatus>)
    requires |cases| == |outcomes| && cases != []
    ensures Visits(fx, cases, outcomes) != [] && Visits(fx, cases, outcomes)[0] == Say(CaseOpen(cases[0].id))
  {
  }

  /** The timeline of a child process that was asked for one case. */
  function ChildSteps(fx: Fixtures, w: World, left: Dev, registered: seq<CaseInfo>, tag: CStr, c: TestCase): seq<Step> {
    var env := Env(tag, Some(c.suite), Some(c.group), Some(c.name));
    WholeRun(fx, w, left, Selected(fx, FilterOf(env), Sort(CaseId, registered))).steps
  }

  /** A child whose stream arrived whole, in whatever pieces, and that ended normally. */
  ghost predicate CleanChild(child: Child, steps: seq<Step>) {
    && child.ending.Eof? && child.exit.ok && AllFit(Events(steps))
    && exists chunks: seq<seq<byte>> :: Flatten(chunks) == Wire(Events(steps))
                        && Fed(0, FrameEvents, [], chunks) == Ok(child.events)
  }

  lemma CleanChildEvents(child: Child, steps: seq<Step>)
    requires CleanChild(child, steps)
    ensures child.events == CarriedAll(Events(steps))
  {
    var chunks: seq<seq<byte>> :| Flatten(chunks) == Wire(Events(steps))
      && Fed(0, FrameEvents, [], chunks) == Ok(child.events);
    RunReachesHost(steps, chunks);
  }

  /** Identifier-like names, printed in full by discovery. */
  predicate Nameable(id: Ident) {
    Printable(id) && DotFree(id) && IsSet(id.suite) && IsSet(id.group) && IsSet(id.name)
  }

  /** A clean child asked for one registered case runs that case only, and reports its outcome. */
  lemma ChildRunsOne(fx: Fixtures, w: World, left: Dev, registered: seq<CaseInfo>, tag: CStr, k: nat, child: Child)
    requires DistinctIds(CaseId, registered)
    requires k < |Sort(CaseId, registered)| && Nameable(Sort(CaseId, registered)[k].id)
    requires CleanChild(child, ChildSteps(fx, w, left, registered, tag, CaseOf(Sort(CaseId, registered)[k].id)))
    ensures var c := Sort(CaseId, registered)[k];
            && child.events == Heard(WholeRun(fx, w, left, [c]).steps) && !Crashed(child)
            && EndStatuses(child.events) == Outcomes(fx, w, StartRun(left), [c])
  {
    var sorted := Sort(CaseId, registered);
    var c := sorted[k];
    var steps := ChildSteps(fx, w, left, registered, tag, CaseOf(c.id));
    SortedIsDistinct(registered);
    NamedCaseAlone(fx, sorted, k);
    assert FilterOf(Env(tag, c.id.suite, c.id.group, c.id.name)) == ByCase(c.id.suite, c.id.group, c.id.name);
    assert steps == WholeRun(fx, w, left, [c]).steps;
    CleanChildEvents(child, steps);
    FittingOnlyAll(Events(steps));
    CarriedEnds(Events(steps));
    EndsOfRun(fx, w, left, [c]);
    RunSendsStart(fx, w, left, c);
  }

  /** A case whose outcome is its own settles that outcome in a clean child. */
  lemma ChildSettles(fx: Fixtures, w: World, outcome: CaseInfo -> TestStatus, left: Dev,
                     registered: seq<CaseInfo>, tag: CStr, k: nat, child: Child)
    requires Independent(fx, w, registered, outcome) && DistinctIds(CaseId, registered)
    requires k < |Sort(CaseId, registered)| && Nameable(Sort(CaseId, registered)[k].id)
    requires CleanChild(child, ChildSteps(fx, w, left, registered, tag, CaseOf(Sort(CaseId, registered)[k].id)))
    ensures !Crashed(child) && Settled(child) == [outcome(Sort(CaseId, registered)[k])]
  {
    ChildRunsOne(fx, w, left, registered, tag, k, child);
    SortIsStableSort(CaseId, registered);
    IndependentOutcomes(fx, w, registered, outcome, left, [Sort(CaseId, registered)[k]]);
  }

  lemma SortedIsDistinct(registered: seq<CaseInfo>)
    requires DistinctIds(CaseId, registered)
    ensures forall i, j :: 0 <= i < j < |Sort(CaseId, registered)| ==>
              Sort(CaseId, registered)[i].id != Sort(CaseId, registered)[j].id
  {
    var sorted := Sort(CaseId, registered);
    SortIsStableSort(CaseId, registered);
    forall i, j | 0 <= i < j < |sorted| ensures sorted[i].id != sorted[j].id {
      OneWithId(registered, sorted[i].id);
      assert WithId(CaseId, sorted, sorted[i].id) == WithId(CaseId, registered, sorted[i].id);
      if sorted[i].id == sorted[j].id {
        TwoWithId(sorted, i, j);
      }
    }
  }

  lemma {:induction false} TwoWithId(cases: seq<CaseInfo>, i: nat, j: nat)
    requires i < j < |cases| && cases[i].id == cases[j].id
    ensures |WithId(CaseId, cases, cases[i].id)| >= 2
  {
    if i > 0 {
      TwoWithId(cases[1..], i - 1, j - 1);
    } else {
      AtLeastOne(cases[1..], j - 1);
    }
  }

  lemma {:induction false} AtLeastOne(cases: seq<CaseInfo>, j: nat)
    requires j < |cases|
    ensures |WithId(CaseId, cases, cases[j].id)| >= 1
  {
    if j == 0 {
    } else {
      AtLeastOne(cases[1..], j - 1);
    }
  }

  lemma {:induction false} OneWithId(cases: seq<CaseInfo>, id: Ident)
    requires DistinctIds(CaseId, cases)
    ensures |WithId(CaseId, cases, id)| <= 1
  {
    if cases == [] {
    } else {
      OneWithId(cases[1..], id);
      if cases[0].id == id {
        forall i | 0 <= i < |cases[1..]| ensures CaseId(cases[1..][i]) != id {
          assert cases[1..][i] == cases[i + 1];
        }
        WithIdNone(CaseId, cases[1..], id);
      }
    }
  }

  function Ids(cases: seq<CaseInfo>): seq<Ident> {
    seq(|cases|, i requires 0 <= i < |cases| => cases[i].id)
  }

  function ListedCases(fx: Fixtures, env: Env, registered: seq<CaseInfo>): seq<CaseInfo> {
    AllListed(fx, env, Sort(CaseId, registered))
  }

  lemma SettledSnoc(children: seq<Child>, outcomes: seq<TestStatus>, last: TestStatus)
    requires children != [] && SettledAll(children[..|children| - 1]) == outcomes
    requires Settled(children[|children| - 1]) == [last]
    ensures SettledAll(children) == outcomes + [last]
  {
  }

  lemma {:induction false} AllSettled(children: seq<Child>, outcomes: seq<TestStatus>)
    requires |children| == |outcomes|
    requires forall i :: 0 <= i < |children| ==> Settled(children[i]) == [outcomes[i]]
    ensures SettledAll(children) == outcomes
    decreases |children|
  {
    if children == [] {
    } else {
      var n := |children| - 1;
      AllSettled(children[..n], outcomes[..n]);
      SettledSnoc(children, outcomes[..n], outcomes[n]);
    }
  }

  lemma {:induction false} NoCrashProcessesAll(children: seq<Child>, abort: bool)
    requires forall i :: 0 <= i < |children| ==> !Crashed(children[i])
    ensures Processed(children, abort) == |children|
  {
    if children == [] {
    } else {
      NoCrashProcessesAll(children[1..], abort);
    }
  }

  /** What the discovered case at one position stands for. */
  lemma DiscoveredSettles(fx: Fixtures, w: World, outcome: CaseInfo -> TestStatus, left: Dev,
                          registered: seq<CaseInfo>, env: Env, tag: CStr, i: nat, child: Child)
    requires Independent(fx, w, registered, outcome) && DistinctIds(CaseId, registered)
    requires i < |ListedCases(fx, env, registered)| && Nameable(ListedCases(fx, env, registered)[i].id)
    requires CleanChild(child, ChildSteps(fx, w, left, registered, tag,
                                          CaseOf(ListedCases(fx, env, registered)[i].id)))
    ensures !Crashed(child) && Settled(child) == [outcome(ListedCases(fx, env, registered)[i])]
  {
    var c := ListedCases(fx, env, registered)[i];
    SelectMembers(x => Listed(fx, env, x), Sort(CaseId, registered));
    assert c in ListedCases(fx, env, registered);
    var k :| 0 <= k < |Sort(CaseId, registered)| && Sort(CaseId, registered)[k] == c;
    ChildSettles(fx, w, outcome, left, registered, tag, k, child);
  }

  /** The host discovers exactly the listed cases, in order. */
  lemma DiscoveredAreListed(fx: Fixtures, registered: seq<CaseInfo>, env: Env, cases: seq<TestCase>)
    requires forall c :: c in ListedCases(fx, env, registered) ==> Nameable(c.id)
    requires Interpret(LineCases, Lines(Printed(Ids(ListedCases(fx, env, registered))))) == Ok(cases)
    ensures cases == Cases(Ids(ListedCases(fx, env, registered)))
  {
    var listed := ListedCases(fx, env, registered);
    forall id | id in Ids(listed) ensures Printable(id) && DotFree(id) {
      var i :| 0 <= i < |listed| && Ids(listed)[i] == id;
      assert listed[i] in listed;
    }
    DiscoveryRecovered(Ids(listed));
  }

  /** Under a plain filter the host discovers exactly the cases an in-process run would select, in order. */
  lemma DiscoveredAreSelected(fx: Fixtures, registered: seq<CaseInfo>, env: Env, cases: seq<TestCase>)
    requires Plain(env)
    requires forall c :: c in ListedCases(fx, env, registered) ==> Nameable(c.id)
    requires Interpret(LineCases, Lines(Printed(Ids(ListedCases(fx, env, registered))))) == Ok(cases)
    ensures ListedCases(fx, env, registered) == Selected(fx, FilterOf(env), Sort(CaseId, registered))
    ensures cases == Cases(Ids(ListedCases(fx, env, registered)))
  {
    DiscoveredAreListed(fx, registered, env, cases);
    DiscoveryMatchesRun(env);
    SelectSame(c => Listed(fx, env, c), c => Matches(fx, FilterOf(env), c), Sort(CaseId, registered));
  }

  /** Children that settle the verdicts of the selected cases make the supervisor total what a run totals. */
  lemma SettledVerdictsTotal(fx: Fixtures, outcome: CaseInfo -> TestStatus, w: World, left: Dev,
                             registered: seq<CaseInfo>, selected: seq<CaseInfo>, cases: seq<TestCase>,
                             children: seq<Child>, abort: bool)
    requires Independent(fx, w, registered, outcome) && |selected| == |cases| == |children|
    requires (forall c :: c in selected ==> c in registered) && Sorted(CaseId, selected)
    requires DistinctIds(CaseId, selected)
    requires forall i :: 0 <= i < |children| ==>
               !Crashed(children[i]) && Settled(children[i]) == [outcome(selected[i])]
    ensures Processed(children, abort) == |children|
    ensures Supervised(cases, children, abort).counts == RunTotal(fx, w, left, selected)
  {
    AllSettled(children, OwnOutcomes(outcome, selected));
    NoCrashProcessesAll(children, abort);
    assert children[..|children|] == children && cases[..|cases|] == cases;
    SupervisorConserves(cases, children, abort);
    RunTotalsOutcomes(fx, w, left, selected);
    IndependentOutcomes(fx, w, registered, outcome, left, selected);
  }

  lemma ListedAreRegistered(fx: Fixtures, env: Env, registered: seq<CaseInfo>)
    requires DistinctIds(CaseId, registered)
    ensures DistinctIds(CaseId, ListedCases(fx, env, registered))
    ensures Sorted(CaseId, ListedCases(fx, env, registered))
    ensures forall c :: c in ListedCases(fx, env, registered) ==> c in registered
  {
    SortIsStableSort(CaseId, registered);
    SortedIsDistinct(registered);
    SelectSorted(c => Listed(fx, env, c), Sort(CaseId, registered));
    SelectDistinct(c => Listed(fx, env, c), Sort(CaseId, registered));
    SelectMembers(c => Listed(fx, env, c), Sort(CaseId, registered));
  }

  /** End to end: discovery is printed and parsed, every discovered case runs in its own clean child whose bytes
      arrive in arbitrary pieces, and the supervisor's totals are those of one in-process run. */
  lemma IsolatedEqualsInProcess(
    fx: Fixtures, registered: seq<CaseInfo>, env: Env, outcome: CaseInfo -> TestStatus, w: World, left: Dev,
    worlds: seq<World>, before: Dev, tag: CStr, cases: seq<TestCase>, children: seq<Child>, abort: bool)
    requires DistinctIds(CaseId, registered) && Plain(env)
    requires forall c :: c in ListedCases(fx, env, registered) ==> Nameable(c.id)
    requires Interpret(LineCases, Lines(Printed(Ids(ListedCases(fx, env, registered))))) == Ok(cases)
    requires |worlds| == |children| == |cases|
    requires Independent(fx, w, registered, outcome)
    requires forall i :: 0 <= i < |worlds| ==> Independent(fx, worlds[i], registered, outcome)
    requires forall i :: 0 <= i < |children| ==>
               CleanChild(children[i], ChildSteps(fx, worlds[i], before, registered, tag, cases[i]))
    ensures Processed(children, abort) == |children|
    ensures Supervised(cases, children, abort).counts ==
            RunTotal(fx, w, left, Selected(fx, FilterOf(env), Sort(CaseId, registered)))
  {
    var listed := ListedCases(fx, env, registered);
    DiscoveredAreSelected(fx, registered, env, cases);
    forall i | 0 <= i < |children|
      ensures !Crashed(children[i]) && Settled(children[i]) == [outcome(listed[i])]
    {
      assert listed[i] in listed && cases[i] == CaseOf(listed[i].id);
      DiscoveredSettles(fx, worlds[i], outcome, before, registered, env, tag, i, children[i]);
    }
    ListedAreRegistered(fx, env, registered);
    SettledVerdictsTotal(fx, outcome, w, left, registered, listed, cases, children, abort);
  }
}
