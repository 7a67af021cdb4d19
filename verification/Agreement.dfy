/** When the console counters and the JUnit table agree with the totals that a run or the supervisor announces. */
module Agreement {
  import opened Protocol
  import opened RunnerModel
  import opened RunVisits
  import opened DeviceRun
  import opened Supervisor
  import opened Isolation
  import opened Drain
  import opened JunitRows
  import opened JunitAgreement
  import R = Reporters

  /** The console counts case ends, one by one. */
  lemma {:induction false} ConsoleCountsEnds(events: seq<Event>)
    ensures forall status :: Of(R.Ends(events), status) == Count(EndStatuses(events), status)
  {
    if events == [] {
    } else {
      var init, last := events[..|events| - 1], events[|events| - 1];
      ConsoleCountsEnds(init);
      forall status ensures Of(R.Ends(events), status) == Count(EndStatuses(events), status) {
        if last.CaseEnd? {
          CountConcat(EndStatuses(init), [last.status], status);
          CountOne(last.status, status);
        } else {
          EmptyIsNeutral(EndStatuses(init));
        }
      }
    }
  }

  /** Every case end on a timeline fits its message. */
  ghost predicate ClosesFit(steps: seq<Step>) {
    forall k :: 0 <= k < |steps| && steps[k].Say? && steps[k].note.CaseClose? ==> NamesFit(steps[k].note.id)
  }

  lemma ClosesFitConcat(a: seq<Step>, b: seq<Step>)
    ensures ClosesFit(a + b) <==> ClosesFit(a) && ClosesFit(b)
  {
    if ClosesFit(a + b) {
      assert forall k :: 0 <= k < |a| ==> (a + b)[k] == a[k];
      assert forall k :: 0 <= k < |b| ==> (a + b)[|a| + k] == b[k];
    }
  }

  lemma {:induction false} ClosesInSkeleton(steps: seq<Step>)
    ensures ClosesFit(Skeleton(steps)) <==> ClosesFit(steps)
  {
    if steps == [] {
    } else {
      var before, last := steps[..|steps| - 1], steps[|steps| - 1];
      assert steps == before + [last];
      ClosesInSkeleton(before);
      ClosesFitConcat(before, [last]);
      ClosesFitConcat(Skeleton(before), if OfCase(last) then [last] else []);
    }
  }

  lemma VisitFits(fx: Fixtures, c: CaseInfo, outcome: TestStatus)
    ensures ClosesFit(Visit(fx, c, outcome)) <==> NamesFit(c.id)
  {
    var before := [Say(CaseOpen(c.id))] + Calls(GroupSetup, GroupSetupOf(fx, c.id)) + Calls(Body, c.fn)
                  + Calls(GroupTeardown, GroupTeardownOf(fx, c.id));
    assert ClosesFit(before);
    ClosesFitConcat(before, [Say(CaseClose(c.id, outcome))]);
    assert [Say(CaseClose(c.id, outcome))][0].note.id == c.id;
  }

  lemma {:induction false} VisitsFit(fx: Fixtures, cases: seq<CaseInfo>, outcomes: seq<TestStatus>)
    requires |cases| == |outcomes|
    ensures ClosesFit(Visits(fx, cases, outcomes)) <==> forall c :: c in cases ==> NamesFit(c.id)
  {
    if cases == [] {
    } else {
      VisitFits(fx, cases[0], outcomes[0]);
      VisitsFit(fx, cases[1..], outcomes[1..]);
      ClosesFitConcat(Visit(fx, cases[0], outcomes[0]), Visits(fx, cases[1..], outcomes[1..]));
      assert cases == [cases[0]] + cases[1..];
    }
  }

  /** The case ends that the host hears of: those that fit. */
  lemma {:induction false} HeardEnds(steps: seq<Step>)
    ensures |EndStatuses(Heard(steps))| <= |EndStatuses(Events(steps))|
    ensures |EndStatuses(Heard(steps))| == |EndStatuses(Events(steps))| <==> ClosesFit(steps)
    ensures ClosesFit(steps) ==> EndStatuses(Heard(steps)) == EndStatuses(Events(steps))
  {
    if steps == [] {
    } else {
      var before, last := steps[..|steps| - 1], steps[|steps| - 1];
      assert steps == before + [last];
      HeardEnds(before);
      ClosesFitConcat(before, [last]);
      StepEnds(before, last);
      OneCloseFits(last);
    }
  }

  lemma EndsWith(events: seq<Event>, more: seq<Event>)
    requires |more| <= 1
    ensures EndStatuses(events + more) ==
            EndStatuses(events) + if more != [] && more[0].CaseEnd? then [more[0].status] else []
  {
    if more == [] {
      EmptyIsNeutral(events);
      EmptyIsNeutral(EndStatuses(events));
    } else {
      assert more == [more[0]];
      EndsSnoc(events, more[0]);
    }
  }

  function Meant(step: Step): seq<Event> {
    if step.Say? && EventOfNote(step.note).Some? then [EventOfNote(step.note).value] else []
  }

  function EndOfStep(step: Step): seq<TestStatus> {
    if step.Say? && step.note.CaseClose? then [step.note.status] else []
  }

  lemma MeantEnd(step: Step)
    ensures (if Meant(step) != [] && Meant(step)[0].CaseEnd? then [Meant(step)[0].status] else []) == EndOfStep(step)
  {
  }

  lemma ToldEnd(step: Step)
    ensures (if Told(step) != [] && Told(step)[0].CaseEnd? then [Told(step)[0].status] else []) ==
            if EndOfStep(step) != [] && NamesFit(step.note.id) then EndOfStep(step) else []
  {
    if step.Say? && step.note.CaseClose? {
      ToldOfClose(step.note.id, step.note.status);
    }
  }

  lemma OneCloseFits(step: Step)
    ensures ClosesFit([step]) <==> EndOfStep(step) == [] || NamesFit(step.note.id)
  {
    assert [step][0] == step;
  }

  /** One more step adds its end to what is meant, and to what is heard if it fits. */
  lemma StepEnds(before: seq<Step>, step: Step)
    ensures EndStatuses(Events(before + [step])) == EndStatuses(Events(before)) + EndOfStep(step)
    ensures EndStatuses(Heard(before + [step])) ==
            EndStatuses(Heard(before)) + if ClosesFit([step]) then EndOfStep(step) else []
  {
    EventsSnoc(before, step);
    EndsWith(Events(before), Meant(step));
    MeantEnd(step);
    HeardSnoc(before, step);
    EndsWith(Heard(before), Told(step));
    ToldEnd(step);
    OneCloseFits(step);
  }

  lemma SameSize(a: Counts, outcomes: seq<TestStatus>)
    requires a == Tally(outcomes)
    ensures Size(a) == |outcomes|
  {
    CountsAll(outcomes);
  }

  /** When the bytes of a run have all arrived and decode, the console shows the totals, before the Done event
      overwrites them, if and only if the names of every case fit the message that ends it. */
  lemma ConsoleMatchesRun(fx: Fixtures, w: World, left: Dev, selected: seq<CaseInfo>, inputs: seq<Read>)
    requires Arrived(WholeRun(fx, w, left, selected).steps, inputs)
    ensures R.Ends(UntilDone(Received(inputs))) == RunTotal(fx, w, left, selected)
            <==> forall c :: c in selected ==> NamesFit(c.id)
  {
    var steps := WholeRun(fx, w, left, selected).steps;
    RunIsDrained(fx, w, left, selected, inputs);
    EndsOfRun(fx, w, left, selected);
    RunTotalsOutcomes(fx, w, left, selected);
    HeardEnds(steps);
    RunVisitsSelected(fx, w, left, selected);
    ClosesInSkeleton(steps);
    VisitsFit(fx, selected, Outcomes(fx, w, StartRun(left), selected));
    ConsoleCountsEnds(Heard(steps));
    IsTally(R.Ends(Heard(steps)), EndStatuses(Heard(steps)));
    SameSize(R.Ends(Heard(steps)), EndStatuses(Heard(steps)));
    SameSize(RunTotal(fx, w, left, selected), Outcomes(fx, w, StartRun(left), selected));
  }

  /** A child that crashed after reporting a pass or a skip: the supervisor takes that outcome back. */
  predicate Revoked(child: Child) {
    var ends := EndStatuses(child.events);
    Crashed(child) && ends != [] && ends[|ends| - 1] != Failed
  }

  /** The case ends the reporters are given for one child. */
  function ShownEnds(child: Child): seq<TestStatus> {
    var ends := EndStatuses(child.events);
    if Crashed(child) && ends == [] then [Failed] else ends
  }

  function ShownAll(children: seq<Child>): seq<TestStatus> {
    if children == [] then [] else ShownAll(children[..|children| - 1]) + ShownEnds(children[|children| - 1])
  }

  function RevokedCount(children: seq<Child>): nat {
    if children == [] then 0
    else RevokedCount(children[..|children| - 1]) + (if Revoked(children[|children| - 1]) then 1 else 0)
  }

  lemma {:induction false} ReceivedEnds(s: State, events: seq<Event>)
    ensures EndStatuses(ReceiveAll(s, events).reported) == EndStatuses(s.reported) + EndStatuses(events)
  {
    if events == [] {
      EmptyIsNeutral(EndStatuses(s.reported));
    } else {
      var init, last := events[..|events| - 1], events[|events| - 1];
      ReceivedEnds(s, init);
      EndsSnoc(ReceiveAll(s, init).reported, last);
      if last.CaseEnd? {
        Associative(EndStatuses(s.reported), EndStatuses(init), [last.status]);
      } else {
        EmptyIsNeutral(EndStatuses(init));
        EmptyIsNeutral(EndStatuses(ReceiveAll(s, init).reported));
      }
    }
  }

  lemma CrashEnds(reported: seq<Event>, c: TestCase, child: Child)
    ensures EndStatuses(reported + CrashEvents(c, child)) ==
            EndStatuses(reported) + (if EndStatuses(child.events) == [] then [Failed] else [])
  {
    var start: seq<Event> := if Ran(child.events) then [] else [CaseStart(c.suite, CaseLeaf(c))];
    var fail := AssertFail(c.suite, CaseLeaf(c), "", 0, ErrorText(child));
    var end := CaseEnd(c.suite, CaseLeaf(c), Failed);
    EmptyIsNeutral(EndStatuses(reported));
    EmptyIsNeutral(reported);
    if !Ran(child.events) {
      EndsSnoc(reported, CaseStart(c.suite, CaseLeaf(c)));
    }
    EndsSnoc(reported + start, fail);
    EndsSnoc(reported + start + [fail], end);
    Associative(reported, start, [fail]);
    Associative(reported, start + [fail], if EndStatuses(child.events) == [] then [end] else []);
    EmptyIsNeutral(reported + start + [fail]);
  }

  lemma {:induction false} ReportedEnds(cases: seq<TestCase>, children: seq<Child>)
    requires |cases| == |children|
    ensures EndStatuses(AfterCases(START, cases, children).reported) == ShownAll(children)
  {
    if cases == [] {
    } else {
      var n := |cases| - 1;
      var s := AfterCases(START, cases[..n], children[..n]);
      ReportedEnds(cases[..n], children[..n]);
      OneReportedEnds(s, cases[n], children[n]);
    }
  }

  lemma OneReportedEnds(s: State, c: TestCase, child: Child)
    ensures EndStatuses(AfterCase(s, c, child).reported) == EndStatuses(s.reported) + ShownEnds(child)
  {
    var ends := EndStatuses(child.events);
    ReceivedEnds(s, child.events);
    if Crashed(child) {
      CrashEnds(ReceiveAll(s, child.events).reported, c, child);
      EmptyIsNeutral(EndStatuses(s.reported));
      EmptyIsNeutral(EndStatuses(s.reported) + ends);
    }
  }

  lemma ShownAgainstSettled(child: Child, status: TestStatus)
    ensures !Revoked(child) ==> Settled(child) == ShownEnds(child)
    ensures Count(Settled(child), Failed) == Count(ShownEnds(child), Failed) + (if Revoked(child) then 1 else 0)
  {
    var ends := EndStatuses(child.events);
    if Crashed(child) && ends != [] {
      var init, last := ends[..|ends| - 1], ends[|ends| - 1];
      assert ends == init + [last];
      CountConcat(init, [last], Failed);
      CountConcat(init, [Failed], Failed);
      CountOne(last, Failed);
      CountOne(Failed, Failed);
    }
  }

  lemma {:induction false} AllShownAgainstSettled(children: seq<Child>)
    ensures Count(SettledAll(children), Failed) == Count(ShownAll(children), Failed) + RevokedCount(children)
    ensures RevokedCount(children) == 0 ==> SettledAll(children) == ShownAll(children)
  {
    if children == [] {
    } else {
      var n := |children| - 1;
      AllShownAgainstSettled(children[..n]);
      ShownAgainstSettled(children[n], Failed);
      CountConcat(SettledAll(children[..n]), Settled(children[n]), Failed);
      CountConcat(ShownAll(children[..n]), ShownEnds(children[n]), Failed);
    }
  }

  lemma {:induction false} NoneRevoked(children: seq<Child>)
    ensures RevokedCount(children) == 0 <==> forall i :: 0 <= i < |children| ==> !Revoked(children[i])
  {
    if children == [] {
    } else {
      var n := |children| - 1;
      NoneRevoked(children[..n]);
      assert forall i :: 0 <= i < n ==> children[..n][i] == children[i];
    }
  }

  lemma EqualUnlessRevoked(shown: Counts, counted: Counts, shownEnds: seq<TestStatus>, settled: seq<TestStatus>, k: nat)
    requires forall status :: Of(shown, status) == Count(shownEnds, status)
    requires forall status :: Of(counted, status) == Count(settled, status)
    requires Count(settled, Failed) == Count(shownEnds, Failed) + k
    requires k == 0 ==> settled == shownEnds
    ensures shown == counted <==> k == 0
  {
    assert Of(shown, Failed) + k == Of(counted, Failed);
    if k == 0 {
      SameCounts(shown, counted);
    }
  }

  /** After an isolated run the console shows the announced totals, before the Done event overwrites them, if and
      only if no processed child crashed after it had reported a pass or a skip. */
  lemma ConsoleMatchesSupervisor(cases: seq<TestCase>, children: seq<Child>, abort: bool)
    requires |cases| == |children|
    ensures var n, s := Processed(children, abort), Supervised(cases, children, abort);
            R.Ends(s.reported) == s.counts <==> forall i :: 0 <= i < n ==> !Revoked(children[i])
  {
    var n, s := Processed(children, abort), Supervised(cases, children, abort);
    var done := children[..n];
    CasesConserve(cases[..n], done);
    ReportedEnds(cases[..n], done);
    ConsoleCountsEnds(s.reported);
    AllShownAgainstSettled(done);
    NoneRevoked(done);
    EqualUnlessRevoked(R.Ends(s.reported), s.counts, ShownAll(done), SettledAll(done), RevokedCount(done));
    assert forall i :: 0 <= i < n ==> done[i] == children[i];
  }
}
