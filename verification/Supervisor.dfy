/** The host's isolated run: one child process per case, an event queue that may break off at any point, and
    counters that are corrected when a child dies after it has reported. */
module Supervisor {
  import opened Protocol
  import opened RunnerModel

  datatype TestCase = TestCase(suite: Str, group: Str, name: Str)

  /** How the event queue of a child ended: end of stream, a read or decoding error, or the deadline. */
  datatype Ending = Eof | StreamError(text: Str) | Timeout

  /** The exit status: `ok` for success or code 1; `shown` is its printed form. */
  datatype Exit = Exit(ok: bool, shown: Str)

  /** Arbitrary child behaviour, as the supervisor sees it. */
  datatype Child = Child(events: seq<Event>, ending: Ending, exit: Exit)

  function CaseLeaf(c: TestCase): Str {
    c.group + "." + c.name
  }

  predicate Ran(events: seq<Event>) {
    exists i :: 0 <= i < |events| && events[i].CaseStart?
  }

  /** The statuses of the case ends among the events, in order. */
  function EndStatuses(events: seq<Event>): seq<TestStatus> {
    if events == [] then []
    else
      var last := events[|events| - 1];
      EndStatuses(events[..|events| - 1]) + (if last.CaseEnd? then [last.status] else [])
  }

  predicate Crashed(child: Child) {
    !child.ending.Eof? || !child.exit.ok || !Ran(child.events)
  }

  const STREAM_ERROR: Str := "Error reading child stream: "
  const TIMED_OUT: Str := "timeout waiting for child process events"
  const EXITED: Str := "Process exited with status "
  const NOT_RUN: Str := "Process exited without running test case"

  function ErrorText(child: Child): Str {
    match child.ending
    case StreamError(text) => STREAM_ERROR + text
    case Timeout => STREAM_ERROR + TIMED_OUT
    case Eof => if !child.exit.ok then EXITED + child.exit.shown else NOT_RUN
  }

  /** The supervisor's own state: counters, suites already announced, the failure flag, and what every
      reporter has been given. */
  datatype State = State(counts: Counts, seen: set<Str>, suiteFailed: bool, reported: seq<Event>)

  function Receive(s: State, e: Event): State {
    match e
    case SuiteStart(name) =>
      if name in s.seen then s else s.(seen := s.seen + {name}, reported := s.reported + [e])
    case CaseStart(_, _) => s.(reported := s.reported + [e])
    case AssertFail(_, _, _, _, _) => s.(reported := s.reported + [e])
    case CaseEnd(_, _, status) =>
      s.(counts := Bump(s.counts, status), suiteFailed := s.suiteFailed || status == Failed,
         reported := s.reported + [e])
    case _ => s
  }

  function ReceiveAll(s: State, events: seq<Event>): State {
    if events == [] then s else Receive(ReceiveAll(s, events[..|events| - 1]), events[|events| - 1])
  }

  /** The events the supervisor adds for a child that crashed. */
  function CrashEvents(c: TestCase, child: Child): seq<Event> {
    (if Ran(child.events) then [] else [CaseStart(c.suite, CaseLeaf(c))])
    + [AssertFail(c.suite, CaseLeaf(c), "", 0, ErrorText(child))]
    + (if EndStatuses(child.events) == [] then [CaseEnd(c.suite, CaseLeaf(c), Failed)] else [])
  }

  /** Subtraction that stops at zero. */
  function Less1(n: nat): nat {
    if n == 0 then 0 else n - 1
  }

  /** A crash counts as a failure, and takes back the pass or skip that was reported last. */
  function Corrected(counts: Counts, statuses: seq<TestStatus>): Counts {
    if statuses == [] then Bump(counts, Failed)
    else match statuses[|statuses| - 1]
      case Passed => Bump(counts.(passed := Less1(counts.passed)), Failed)
      case Skipped => Bump(counts.(skipped := Less1(counts.skipped)), Failed)
      case Failed => counts
  }

  function AfterCase(s: State, c: TestCase, child: Child): State {
    var s1 := ReceiveAll(s, child.events);
    if !Crashed(child) then s1
    else s1.(counts := Corrected(s1.counts, EndStatuses(child.events)), suiteFailed := true,
             reported := s1.reported + CrashEvents(c, child))
  }

  /** How many cases are processed: all, or up to the first crash under the abort policy. */
  function Processed(children: seq<Child>, abort: bool): (n: nat)
    ensures n <= |children|
  {
    if children == [] then 0
    else if abort && Crashed(children[0]) then 1
    else 1 + Processed(children[1..], abort)
  }

  function AfterCases(s: State, cases: seq<TestCase>, children: seq<Child>): State
    requires |cases| == |children|
  {
    if cases == [] then s
    else AfterCase(AfterCases(s, cases[..|cases| - 1], children[..|children| - 1]),
                   cases[|cases| - 1], children[|children| - 1])
  }

  const START := State(ZERO, {}, false, [])

  /** The state when all processed cases are done, before the final Done event. */
  function Supervised(cases: seq<TestCase>, children: seq<Child>, abort: bool): State
    requires |cases| == |children|
  {
    var n := Processed(children, abort);
    AfterCases(START, cases[..n], children[..n])
  }

  function Size(c: Counts): nat {
    c.passed + c.failed + c.skipped
  }

  /** How many outcomes a child contributes: the ends it reported, or one when it crashed without any. */
  function Weight(child: Child): nat {
    if Crashed(child) && EndStatuses(child.events) == [] then 1 else |EndStatuses(child.events)|
  }

  function Weights(children: seq<Child>): nat {
    if children == [] then 0 else Weights(children[..|children| - 1]) + Weight(children[|children| - 1])
  }

  /** What a child's own reports add to the counters. */
  lemma {:induction false} ReportsCount(s: State, events: seq<Event>, status: TestStatus)
    ensures Of(ReceiveAll(s, events).counts, status) == Of(s.counts, status) + Count(EndStatuses(events), status)
    ensures ReceiveAll(s, events).suiteFailed <==> s.suiteFailed || Failed in EndStatuses(events)
  {
    if events == [] {
    } else {
      var before, e := events[..|events| - 1], events[|events| - 1];
      ReportsCount(s, before, status);
      if e.CaseEnd? {
        CountConcat(EndStatuses(before), [e.status], status);
        CountOne(e.status, status);
      } else {
        EmptyIsNeutral(EndStatuses(before));
      }
    }
  }

  lemma {:induction false} CountsPresent(outcomes: seq<TestStatus>, status: TestStatus)
    ensures status in outcomes <==> Count(outcomes, status) > 0
  {
    if outcomes == [] {
    } else {
      CountsPresent(outcomes[1..], status);
      assert outcomes == [outcomes[0]] + outcomes[1..];
    }
  }

  lemma {:induction false} CountsAll(outcomes: seq<TestStatus>)
    ensures Count(outcomes, Passed) + Count(outcomes, Failed) + Count(outcomes, Skipped) == |outcomes|
  {
    if outcomes == [] {
    } else {
      CountsAll(outcomes[1..]);
    }
  }

  /** The outcomes a processed case finally stands for: a crash replaces the last reported one by a failure. */
  function Settle(ends: seq<TestStatus>, crashed: bool): seq<TestStatus> {
    if !crashed then ends
    else if ends == [] then [Failed]
    else ends[..|ends| - 1] + [Failed]
  }

  function Settled(child: Child): seq<TestStatus> {
    Settle(EndStatuses(child.events), Crashed(child))
  }

  lemma CorrectionSettles(before: Counts, after: Counts, ends: seq<TestStatus>, status: TestStatus)
    requires forall st :: Of(after, st) == Of(before, st) + Count(ends, st)
    ensures Of(Corrected(after, ends), status) == Of(before, status) + Count(Settle(ends, true), status)
  {
    CountOne(Failed, status);
    if ends != [] {
      var init, last := ends[..|ends| - 1], ends[|ends| - 1];
      assert ends == init + [last];
      CountConcat(init, [last], status);
      CountConcat(init, [last], last);
      CountConcat(init, [Failed], status);
      CountOne(last, status);
      CountOne(last, last);
      assert Of(after, last) > 0;
    }
  }

  /** For arbitrary child behaviour: the counters grow by exactly the settled outcomes, so subtracting never
      hits the zero bound, and the failure flag means that some outcome failed. */
  lemma CaseConserves(s: State, c: TestCase, child: Child)
    requires s.suiteFailed <==> s.counts.failed > 0
    ensures forall status ::
              Of(AfterCase(s, c, child).counts, status) == Of(s.counts, status) + Count(Settled(child), status)
    ensures |Settled(child)| == Weight(child)
    ensures AfterCase(s, c, child).suiteFailed <==> AfterCase(s, c, child).counts.failed > 0
  {
    var ends, s1 := EndStatuses(child.events), ReceiveAll(s, child.events);
    forall st ensures Of(s1.counts, st) == Of(s.counts, st) + Count(ends, st) {
      ReportsCount(s, child.events, st);
    }
    forall status
      ensures Of(AfterCase(s, c, child).counts, status) == Of(s.counts, status) + Count(Settled(child), status)
    {
      CorrectionSettles(s.counts, s1.counts, ends, status);
    }
    ReportsCount(s, child.events, Failed);
    CountsPresent(Settled(child), Failed);
    assert AfterCase(s, c, child).counts.failed == Of(AfterCase(s, c, child).counts, Failed);
    assert s.counts.failed == Of(s.counts, Failed);
    if Crashed(child) {
      assert Settled(child)[|Settled(child)| - 1] == Failed;
    }
  }

  function SettledAll(children: seq<Child>): seq<TestStatus> {
    if children == [] then [] else SettledAll(children[..|children| - 1]) + Settled(children[|children| - 1])
  }

  lemma {:induction false} CasesConserve(cases: seq<TestCase>, children: seq<Child>)
    requires |cases| == |children|
    ensures var s := AfterCases(START, cases, children);
            && (forall status :: Of(s.counts, status) == Count(SettledAll(children), status))
            && (s.suiteFailed <==> s.counts.failed > 0)
    ensures |SettledAll(children)| == Weights(children)
  {
    if cases == [] {
    } else {
      var n := |cases| - 1;
      var before := AfterCases(START, cases[..n], children[..n]);
      CasesConserve(cases[..n], children[..n]);
      CaseConserves(before, cases[n], children[n]);
      forall status
        ensures Of(AfterCases(START, cases, children).counts, status) == Count(SettledAll(children), status)
      {
        CountConcat(SettledAll(children[..n]), Settled(children[n]), status);
      }
    }
  }

  ghost predicate Started(events: seq<Event>) {
    exists i :: 0 <= i < |events| && events[i].CaseStart?
  }

  ghost predicate Unended(events: seq<Event>) {
    forall i :: 0 <= i < |events| ==> !events[i].CaseEnd?
  }

  ghost predicate EndsOnce(events: seq<Event>) {
    forall i, j :: 0 <= i < j < |events| ==> !(events[i].CaseEnd? && events[j].CaseEnd?)
  }

  lemma {:induction false} EndsMeaning(events: seq<Event>)
    ensures EndStatuses(events) == [] <==> Unended(events)
    ensures EndsOnce(events) ==>
              forall i :: 0 <= i < |events| && events[i].CaseEnd? ==> EndStatuses(events) == [events[i].status]
  {
    if events == [] {
    } else {
      var init, last := events[..|events| - 1], events[|events| - 1];
      assert forall i :: 0 <= i < |init| ==> init[i] == events[i];
      EndsMeaning(init);
      EmptyIsNeutral(EndStatuses(init));
      if EndsOnce(events) {
        assert EndsOnce(init);
        assert last.CaseEnd? ==> Unended(init);
      }
    }
  }

  /** What a child that ends its case at most once does to the counters. A stream error, a timeout, an exit status
      other than success or 1, or a case that never started counts as one failure, whatever was reported. Otherwise
      the reported end counts, and a child without one leaves no trace in the counters. */
  lemma OneEndMeaning(s: State, c: TestCase, child: Child)
    requires EndsOnce(child.events) && (s.suiteFailed <==> s.counts.failed > 0)
    ensures var clean := child.ending.Eof? && child.exit.ok && Started(child.events);
            var before, after := s.counts, AfterCase(s, c, child).counts;
            && (!clean ==> after == Counts(before.passed, before.failed + 1, before.skipped))
            && (clean && Unended(child.events) <==> after == before)
            && (clean ==> forall i :: 0 <= i < |child.events| && child.events[i].CaseEnd? ==>
                  match child.events[i].status
                  case Passed => after == Counts(before.passed + 1, before.failed, before.skipped)
                  case Failed => after == Counts(before.passed, before.failed + 1, before.skipped)
                  case Skipped => after == Counts(before.passed, before.failed, before.skipped + 1))
  {
    EndsMeaning(child.events);
    CaseConserves(s, c, child);
    SettledOnce(child);
    var before, after := s.counts, AfterCase(s, c, child).counts;
    CountedAs(before, after, Settled(child));
    forall i | 0 <= i < |child.events| && child.events[i].CaseEnd?
      ensures EndStatuses(child.events) == [child.events[i].status]
    {
    }
    if !Unended(child.events) {
      var i :| 0 <= i < |child.events| && child.events[i].CaseEnd?;
      match child.events[i].status {
        case Passed =>
        case Failed =>
        case Skipped =>
      }
    }
  }

  lemma SettledOnce(child: Child)
    requires EndsOnce(child.events)
    ensures |EndStatuses(child.events)| <= 1
    ensures Settled(child) == if child.ending.Eof? && child.exit.ok && Started(child.events)
                              then EndStatuses(child.events) else [Failed]
  {
    EndsMeaning(child.events);
    if !Unended(child.events) {
      var i :| 0 <= i < |child.events| && child.events[i].CaseEnd?;
      assert EndStatuses(child.events) == [child.events[i].status];
      assert EndStatuses(child.events)[..0] == [];
    }
  }

  lemma CountedAs(before: Counts, after: Counts, outcomes: seq<TestStatus>)
    requires |outcomes| <= 1 && forall status :: Of(after, status) == Of(before, status) + Count(outcomes, status)
    ensures outcomes == [] ==> after == before
    ensures outcomes == [Passed] ==> after == Counts(before.passed + 1, before.failed, before.skipped)
    ensures outcomes == [Failed] ==> after == Counts(before.passed, before.failed + 1, before.skipped)
    ensures outcomes == [Skipped] ==> after == Counts(before.passed, before.failed, before.skipped + 1)
  {
    CountOne(Passed, Passed);
    CountOne(Failed, Passed);
    CountOne(Skipped, Passed);
    CountOne(Passed, Failed);
    CountOne(Failed, Failed);
    CountOne(Skipped, Failed);
    CountOne(Passed, Skipped);
    CountOne(Failed, Skipped);
    CountOne(Skipped, Skipped);
    assert Of(after, Passed) == after.passed && Of(after, Failed) == after.failed && Of(after, Skipped) == after.skipped;
    assert Of(before, Passed) == before.passed && Of(before, Failed) == before.failed
        && Of(before, Skipped) == before.skipped;
  }

  /** The reason the reporters are given. */
  lemma ErrorMeaning(child: Child)
    ensures child.ending.Timeout? ==>
              ErrorText(child) == "Error reading child stream: " + "timeout waiting for child process events"
    ensures child.ending.StreamError? ==> ErrorText(child) == "Error reading child stream: " + child.ending.text
    ensures child.ending.Eof? && !child.exit.ok ==> ErrorText(child) == "Process exited with status " + child.exit.shown
    ensures child.ending.Eof? && child.exit.ok ==> ErrorText(child) == "Process exited without running test case"
  {
  }

  /** A faulty child always settles a failure, and the reporters are told: the start of its case when it never
      started, its failure with the reason, and its failed end when it never ended; nothing else comes after. */
  lemma FaultIsReported(s: State, c: TestCase, child: Child)
    requires !child.ending.Eof? || !child.exit.ok || !Started(child.events)
    ensures Settled(child) != [] && Settled(child)[|Settled(child)| - 1] == Failed
    ensures var leaf := c.group + "." + c.name;
            AfterCase(s, c, child).reported ==
            ReceiveAll(s, child.events).reported
            + (if Started(child.events) then [] else [CaseStart(c.suite, leaf)])
            + [AssertFail(c.suite, leaf, "", 0, ErrorText(child))]
            + (if Unended(child.events) then [CaseEnd(c.suite, leaf, Failed)] else [])
    ensures AfterCase(s, c, child).suiteFailed
  {
    EndsMeaning(child.events);
    var reported := ReceiveAll(s, child.events).reported;
    var start: seq<Event> := if Ran(child.events) then [] else [CaseStart(c.suite, CaseLeaf(c))];
    var fail := AssertFail(c.suite, CaseLeaf(c), "", 0, ErrorText(child));
    var end: seq<Event> := if EndStatuses(child.events) == [] then [CaseEnd(c.suite, CaseLeaf(c), Failed)] else [];
    Associative(reported, start, [fail]);
    Associative(reported, start + [fail], end);
  }

  predicate CaseEvent(e: Event) {
    e.CaseStart? || e.AssertFail? || e.CaseEnd?
  }

  /** The events about cases, in order. */
  function OfCases(events: seq<Event>): seq<Event> {
    if events == [] then []
    else
      var last := events[|events| - 1];
      OfCases(events[..|events| - 1]) + if CaseEvent(last) then [last] else []
  }

  function SuiteStarts(events: seq<Event>): seq<Str> {
    if events == [] then []
    else
      var last := events[|events| - 1];
      SuiteStarts(events[..|events| - 1]) + if last.SuiteStart? then [last.name] else []
  }

  lemma ForwardedSnoc(events: seq<Event>, e: Event)
    ensures OfCases(events + [e]) ==
            OfCases(events) + if CaseEvent(e) then [e] else []
    ensures SuiteStarts(events + [e]) == SuiteStarts(events) + if e.SuiteStart? then [e.name] else []
  {
    assert (events + [e])[..|events|] == events;
  }

  /** Each suite's start is forwarded once. */
  ghost predicate StartsSeen(s: State) {
    && (forall i, j :: 0 <= i < j < |SuiteStarts(s.reported)| ==> SuiteStarts(s.reported)[i] != SuiteStarts(s.reported)[j])
    && forall name :: name in SuiteStarts(s.reported) <==> name in s.seen
  }

  /** Everything a child says about its cases is forwarded, in order. */
  lemma {:induction false} CasesForwarded(s: State, events: seq<Event>)
    ensures OfCases(ReceiveAll(s, events).reported) == OfCases(s.reported) + OfCases(events)
  {
    if events == [] {
      EmptyIsNeutral(OfCases(s.reported));
    } else {
      var init, e := events[..|events| - 1], events[|events| - 1];
      var mid := ReceiveAll(s, init);
      CasesForwarded(s, init);
      OneForwarded(mid, e);
      Associative(OfCases(s.reported), OfCases(init), if CaseEvent(e) then [e] else []);
    }
  }

  lemma OneForwarded(s: State, e: Event)
    ensures OfCases(Receive(s, e).reported) == OfCases(s.reported) + if CaseEvent(e) then [e] else []
    ensures SuiteStarts(Receive(s, e).reported) ==
            SuiteStarts(s.reported) + if e.SuiteStart? && e.name !in s.seen then [e.name] else []
    ensures |Receive(s, e).reported| ==
            |s.reported| + if CaseEvent(e) || (e.SuiteStart? && e.name !in s.seen) then 1 else 0
  {
    ForwardedSnoc(s.reported, e);
    EmptyIsNeutral(OfCases(s.reported));
    EmptyIsNeutral(SuiteStarts(s.reported));
  }

  /** Every suite's start is forwarded exactly once, and nothing else is: no totals and no log lines. */
  lemma {:induction false} StartsForwarded(s: State, events: seq<Event>)
    requires StartsSeen(s)
    ensures var after := ReceiveAll(s, events);
            && StartsSeen(after)
            && (forall name :: name in SuiteStarts(after.reported) <==>
                  name in SuiteStarts(s.reported) || name in SuiteStarts(events))
            && |after.reported| + |SuiteStarts(s.reported)| ==
               |s.reported| + |OfCases(events)| + |SuiteStarts(after.reported)|
  {
    if events == [] {
    } else {
      var init, e := events[..|events| - 1], events[|events| - 1];
      StartsForwarded(s, init);
      OneForwarded(ReceiveAll(s, init), e);
    }
  }

  predicate AtMostOneEnd(child: Child) {
    |EndStatuses(child.events)| <= 1
  }

  /** Conservation over a whole run: the totals are the settled outcomes of the processed cases. With at most
      one end per child, a case counts exactly once, or not at all if and only if it exited cleanly after
      starting without reporting an end. */
  lemma SupervisorConserves(cases: seq<TestCase>, children: seq<Child>, abort: bool)
    requires |cases| == |children|
    ensures var n, s := Processed(children, abort), Supervised(cases, children, abort);
            && s.counts == Tally(SettledAll(children[..n]))
            && Size(s.counts) == Weights(children[..n])
            && (s.suiteFailed <==> s.counts.failed > 0)
    ensures forall child :: child in children && AtMostOneEnd(child) ==>
              Weight(child) == if !Crashed(child) && EndStatuses(child.events) == [] then 0 else 1
  {
    var n := Processed(children, abort);
    CasesConserve(cases[..n], children[..n]);
    IsTally(Supervised(cases, children, abort).counts, SettledAll(children[..n]));
    CountsAll(SettledAll(children[..n]));
  }

  /** Under the abort policy nothing runs after the first crash, and everything runs without one. */
  lemma {:induction false} ProcessedUpToCrash(children: seq<Child>, abort: bool)
    ensures var n := Processed(children, abort);
            && (forall i :: 0 <= i < n - 1 ==> !(abort && Crashed(children[i])))
            && (n < |children| ==> abort && n > 0 && Crashed(children[n - 1]))
  {
    if children == [] || (abort && Crashed(children[0])) {
    } else {
      ProcessedUpToCrash(children[1..], abort);
    }
  }

  /** An upper bound on how often any counter can be incremented. */
  function Load(children: seq<Child>): nat {
    if children == [] then 0
    else Load(children[..|children| - 1]) + |children[|children| - 1].events| + 1
  }

  lemma {:induction false} ReceivedSize(s: State, events: seq<Event>)
    ensures Size(ReceiveAll(s, events).counts) <= Size(s.counts) + |events|
  {
    if events == [] {
    } else {
      ReceivedSize(s, events[..|events| - 1]);
    }
  }

  lemma {:induction false} LoadBounds(cases: seq<TestCase>, children: seq<Child>)
    requires |cases| == |children|
    ensures Size(AfterCases(START, cases, children).counts) <= Load(children)
  {
    if cases == [] {
    } else {
      var n := |cases| - 1;
      LoadBounds(cases[..n], children[..n]);
      ReceivedSize(AfterCases(START, cases[..n], children[..n]), children[n].events);
    }
  }

  lemma {:induction false} LoadOfPrefix(children: seq<Child>, n: nat)
    requires n <= |children|
    ensures Load(children[..n]) <= Load(children)
    decreases |children|
  {
    if n < |children| {
      LoadOfPrefix(children[..|children| - 1], n);
      assert children[..|children| - 1][..n] == children[..n];
    } else {
      assert children[..n] == children;
    }
  }

  lemma NextCase(cases: seq<TestCase>, children: seq<Child>, k: nat, abort: bool)
    requires k < |cases| == |children|
    ensures AfterCases(START, cases[..k + 1], children[..k + 1]) ==
            AfterCase(AfterCases(START, cases[..k], children[..k]), cases[k], children[k])
    ensures Processed(children[k..], abort) ==
            1 + if abort && Crashed(children[k]) then 0 else Processed(children[k + 1..], abort)
    ensures Size(AfterCases(START, cases[..k], children[..k]).counts) + |children[k].events| + 1 <= Load(children)
  {
    LoadBounds(cases[..k], children[..k]);
    LoadOfPrefix(children, k + 1);
    assert children[..k + 1][..k] == children[..k] && cases[..k + 1][..k] == cases[..k];
    assert children[k..][0] == children[k] && children[k..][1..] == children[k + 1..];
  }

  lemma ReceiveSnoc(s: State, events: seq<Event>, k: nat)
    requires k < |events|
    ensures ReceiveAll(s, events[..k + 1]) == Receive(ReceiveAll(s, events[..k]), events[k])
  {
    assert events[..k + 1][..k] == events[..k];
  }

  lemma EndsStep(events: seq<Event>, k: nat)
    requires k < |events|
    ensures EndStatuses(events[..k + 1]) ==
            EndStatuses(events[..k]) + (if events[k].CaseEnd? then [events[k].status] else [])
    ensures Ran(events[..k + 1]) <==> Ran(events[..k]) || events[k].CaseStart?
  {
    assert events[..k + 1][..k] == events[..k];
    assert Ran(events[..k]) ==> exists i :: 0 <= i < k && events[..k][i].CaseStart? && events[..k + 1][i].CaseStart?;
    assert events[..k + 1][k] == events[k];
    assert forall i :: 0 <= i < k ==> events[..k + 1][i] == events[..k][i];
  }

  /** The isolated run itself. Counters are 32 bits wide; the load bound is what keeps them from overflowing. */
  class IsolatedRun {
    var passed: u32
    var failed: u32
    var skipped: u32
    var seenSuites: set<Str>
    var suiteFailed: bool
    var reported: seq<Event>

    constructor ()
      ensures Now() == START
    {
      passed, failed, skipped := 0, 0, 0;
      seenSuites, suiteFailed, reported := {}, false, [];
    }

    ghost function Now(): State
      reads this
    {
      State(Counts(passed, failed, skipped), seenSuites, suiteFailed, reported)
    }

    method CountEnd(status: TestStatus)
      requires Size(Now().counts) + 1 < 0x1_0000_0000
      modifies this`passed, this`failed, this`skipped, this`suiteFailed
      ensures Now() == old(Now()).(counts := Bump(old(Now()).counts, status),
                                   suiteFailed := old(Now()).suiteFailed || status == Failed)
    {
      match status {
        case Passed => passed := passed + 1;
        case Failed =>
          failed := failed + 1;
          suiteFailed := true;
        case Skipped => skipped := skipped + 1;
      }
    }

    /** The event loop of one child: forwards, counts, and remembers the last reported status. */
    method ReceiveEvents(child: Child) returns (ranCase: bool, receivedEnd: bool, parsedStatus: TestStatus)
      requires Size(Now().counts) + |child.events| < 0x1_0000_0000
      modifies this
      ensures Now() == ReceiveAll(old(Now()), child.events)
      ensures ranCase <==> Ran(child.events)
      ensures receivedEnd <==> EndStatuses(child.events) != []
      ensures receivedEnd ==> parsedStatus == EndStatuses(child.events)[|EndStatuses(child.events)| - 1]
    {
      ranCase, receivedEnd, parsedStatus := false, false, Passed;
      ghost var events, start := child.events, Now();
      assert events[..0] == [];
      for k := 0 to |child.events|
        invariant Now() == ReceiveAll(start, events[..k])
        invariant ranCase <==> Ran(events[..k])
        invariant receivedEnd <==> EndStatuses(events[..k]) != []
        invariant receivedEnd ==> parsedStatus == EndStatuses(events[..k])[|EndStatuses(events[..k])| - 1]
      {
        var e := child.events[k];
        ReceivedSize(start, events[..k]);
        ReceiveSnoc(start, events, k);
        EndsStep(events, k);
        match e {
          case SuiteStart(name) =>
            if name !in seenSuites {
              seenSuites := seenSuites + {name};
              reported := reported + [e];
            }
          case CaseStart(_, _) =>
            ranCase := true;
            reported := reported + [e];
          case AssertFail(_, _, _, _, _) =>
            reported := reported + [e];
          case CaseEnd(_, _, status) =>
            receivedEnd := true;
            parsedStatus := status;
            CountEnd(status);
            reported := reported + [e];
          case _ =>
        }
      }
      assert events[..|events|] == events;
    }

    /** Moves the outcome of a crashed case to failed, whatever it reported before. */
    method CountCrash(ghost ends: seq<TestStatus>, receivedEnd: bool, parsedStatus: TestStatus)
      requires Size(Now().counts) + 1 < 0x1_0000_0000
      requires receivedEnd <==> ends != []
      requires receivedEnd ==> parsedStatus == ends[|ends| - 1]
      requires Failed in ends ==> suiteFailed
      modifies this`passed, this`failed, this`skipped, this`suiteFailed
      ensures Now() == old(Now()).(counts := Corrected(old(Now()).counts, ends), suiteFailed := true)
    {
      if !receivedEnd {
        failed := failed + 1;
        suiteFailed := true;
      } else if parsedStatus != Failed {
        match parsedStatus {
          case Passed => passed := if passed == 0 then 0 else passed - 1;
          case Skipped => skipped := if skipped == 0 then 0 else skipped - 1;
          case _ =>
        }
        failed := failed + 1;
        suiteFailed := true;
      }
    }

    /** One case: its child's events, then the crash handling. */
    method RunCase(c: TestCase, child: Child) returns (crashed: bool)
      requires Size(Now().counts) + |child.events| + 1 < 0x1_0000_0000
      modifies this
      ensures Now() == AfterCase(old(Now()), c, child) && crashed == Crashed(child)
    {
      ghost var start, ends := Now(), EndStatuses(child.events);
      var ranCase, receivedEnd, parsedStatus := ReceiveEvents(child);
      ghost var s1 := Now();
      crashed := !child.ending.Eof? || !child.exit.ok || !ranCase;
      if !crashed {
        return;
      }
      if !ranCase {
        reported := reported + [CaseStart(c.suite, CaseLeaf(c))];
      }
      reported := reported + [AssertFail(c.suite, CaseLeaf(c), "", 0, ErrorText(child))];
      if !receivedEnd {
        reported := reported + [CaseEnd(c.suite, CaseLeaf(c), Failed)];
      }
      assert reported == s1.reported + CrashEvents(c, child);
      ReceivedSize(start, child.events);
      ReportsCount(start, child.events, Failed);
      CountCrash(ends, receivedEnd, parsedStatus);
    }

    /** The whole isolated run: an error when nothing was discovered, else every case up to an aborting crash,
        one final Done event, and a failing exit exactly when some outcome failed. */
    method Run(cases: seq<TestCase>, children: seq<Child>, abort: bool) returns (r: Result<int, Str>)
      requires |cases| == |children| && Load(children) < 0x1_0000_0000
      requires Now() == START
      modifies this
      ensures cases == [] ==> r.Err? && reported == []
      ensures cases != [] ==>
                var s := Supervised(cases, children, abort);
                && Now() == s.(reported := s.reported + [Done(passed, failed, skipped)])
                && r == Ok(if failed > 0 then 1 else 0)
    {
      if cases == [] {
        return Err("no test cases discovered for isolated run");
      }
      var k := 0;
      var crashed := false;
      assert cases[..0] == [] && children[..0] == [] && children[0..] == children;
      while k < |cases| && !(abort && crashed)
        invariant 0 <= k <= |cases|
        invariant Now() == AfterCases(START, cases[..k], children[..k])
        invariant if abort && crashed then Processed(children, abort) == k
                  else Processed(children, abort) == k + Processed(children[k..], abort)
        decreases |cases| - k
      {
        NextCase(cases, children, k, abort);
        crashed := RunCase(cases[k], children[k]);
        k := k + 1;
      }
      assert k == Processed(children, abort) && Now() == Supervised(cases, children, abort);
      CasesConserve(cases[..k], children[..k]);
      reported := reported + [Done(passed, failed, skipped)];
      r := Ok(if suiteFailed then 1 else 0);
    }
  }
}
