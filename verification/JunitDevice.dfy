/** The JUnit table of an isolated run whose children are the device's own, and how long names spoil it. */
module JunitDevice {
  import opened Protocol
  import opened Framing
  import opened DeviceWire
  import opened CaseOrder
  import opened Sorting
  import opened RunnerModel
  import opened TextTools
  import opened DeviceRun
  import opened Discovery
  import opened Supervisor
  import opened Filters
  import opened Isolation
  import opened JunitRows
  import opened JunitAgreement
  import opened JunitIsolated
  import opened R = Reporters

  /** Speaks of this row only. */
  ghost predicate About(events: seq<Event>, key: Key) {
    forall i :: 0 <= i < |events| ==> Concerns(events[i], key)
  }

  /** About this row, and no failure behind a case end. */
  ghost predicate Orderly(events: seq<Event>, key: Key) {
    About(events, key) && forall i, j :: 0 <= i < j < |events| && events[i].CaseEnd? ==> !events[j].AssertFail?
  }

  lemma OrderlySnoc(events: seq<Event>, e: Event, key: Key)
    requires Orderly(events, key) && Concerns(e, key) && !e.AssertFail?
    ensures Orderly(events + [e], key)
  {
  }

  lemma {:induction false} ActionsSpeak(d: Dev, actions: seq<Action>)
    requires About(Heard(d.steps), KeyFor(d.cur)) && Unended(Heard(d.steps))
    ensures About(Heard(ActAll(d, actions).steps), KeyFor(d.cur)) && Unended(Heard(ActAll(d, actions).steps))
    ensures ActAll(d, actions).cur == d.cur
    decreases |actions|
  {
    if actions == [] {
    } else {
      ActSpeaks(d, actions[0]);
      ActTouches(d, actions[0]);
      ActionsSpeak(Act(d, actions[0]), actions[1..]);
    }
  }

  lemma SpeaksSnoc(events: seq<Event>, e: Event, key: Key)
    requires About(events, key) && Unended(events) && Concerns(e, key) && !e.CaseEnd?
    ensures About(events + [e], key) && Unended(events + [e])
  {
  }

  lemma FailSpeaks(d: Dev, note: Note)
    requires About(Heard(d.steps), KeyFor(d.cur)) && Unended(Heard(d.steps)) && note.Failure? && note.id == d.cur
    ensures About(Heard(d.steps + [Say(note)]), KeyFor(d.cur)) && Unended(Heard(d.steps + [Say(note)]))
  {
    HeardSnoc(d.steps, Say(note));
    ToldOfFailure(note);
    EmptyIsNeutral(Heard(d.steps));
    if Travels(note) {
      SpeaksSnoc(Heard(d.steps), Told(Say(note))[0], KeyFor(d.cur));
    }
  }

  lemma ActSpeaks(d: Dev, a: Action)
    requires About(Heard(d.steps), KeyFor(d.cur)) && Unended(Heard(d.steps))
    ensures About(Heard(Act(d, a).steps), KeyFor(d.cur)) && Unended(Heard(Act(d, a).steps))
  {
    if a.Fail? {
      FailSpeaks(d, FailureNote(d.cur, a));
    } else {
      QuietActs(d, a);
    }
  }

  lemma InvokeSpeaks(w: World, d: Dev, role: Role, fn: Option<nat>)
    requires About(Heard(d.steps), KeyFor(d.cur)) && Unended(Heard(d.steps))
    ensures var after := Invoke(w, d, role, fn);
            About(Heard(after.steps), KeyFor(d.cur)) && Unended(Heard(after.steps)) && after.cur == d.cur
  {
    if fn.Some? {
      SendsNothing(d.steps, Call(role, fn.value));
      ActionsSpeak(d.(steps := d.steps + [Call(role, fn.value)]), w(d.steps + [Call(role, fn.value)]));
    }
  }

  /** A note that opens something speaks of no row. */
  lemma OpeningSpeaks(steps: seq<Step>, note: Note, key: Key)
    requires About(Heard(steps), key) && Unended(Heard(steps)) && (note.CaseOpen? || note.SuiteOpen?)
    ensures About(Heard(steps + [Say(note)]), key) && Unended(Heard(steps + [Say(note)]))
  {
    HeardSnoc(steps, Say(note));
    EmptyIsNeutral(Heard(steps));
    if Told(Say(note)) != [] {
      SpeaksSnoc(Heard(steps), Told(Say(note))[0], key);
    }
  }

  lemma BodySpeaks(fx: Fixtures, w: World, d: Dev, c: CaseInfo)
    requires About(Heard(d.steps), KeyFor(c.id)) && Unended(Heard(d.steps))
    ensures var after := RunBody(fx, w, d, c);
            About(Heard(after.steps), KeyFor(c.id)) && Unended(Heard(after.steps))
  {
    var d0 := Emit(d.(cur := c.id, failed := false, skipped := false), CaseOpen(c.id));
    var d1 := Invoke(w, d0, GroupSetup, GroupSetupOf(fx, c.id));
    OpeningSpeaks(d.steps, CaseOpen(c.id), KeyFor(c.id));
    InvokeSpeaks(w, d0, GroupSetup, GroupSetupOf(fx, c.id));
    InvokeSpeaks(w, d1, Body, c.fn);
    InvokeSpeaks(w, Invoke(w, d1, Body, c.fn), GroupTeardown, GroupTeardownOf(fx, c.id));
  }

  /** The notes that close a case or a suite, and the total. */
  lemma ClosingSpeaks(steps: seq<Step>, note: Note, key: Key)
    requires Orderly(Heard(steps), key) && (note.CaseClose? ==> KeyFor(note.id) == key)
    requires note.CaseClose? || note.SuiteClose? || note.AllDone?
    ensures Orderly(Heard(steps + [Say(note)]), key)
  {
    HeardSnoc(steps, Say(note));
    EmptyIsNeutral(Heard(steps));
    if note.CaseClose? {
      ToldOfClose(note.id, note.status);
    }
    if Told(Say(note)) != [] {
      OrderlySnoc(Heard(steps), Told(Say(note))[0], key);
    }
  }

  lemma FinishSpeaks(fx: Fixtures, w: World, r: Run, key: Key)
    requires QuietSuites(w) && r.open.Some? && Orderly(Heard(r.dev.steps), key)
    ensures Orderly(Heard(FinishRun(fx, w, r).steps), key)
  {
    var torn := Invoke(w, r.dev, SuiteTeardown, TeardownOf(fx, r.open));
    QuietInvoke(w, r.dev, SuiteTeardown, TeardownOf(fx, r.open));
    ClosingSpeaks(torn.steps, SuiteClose(r.open, r.suite), key);
    ClosingSpeaks(torn.steps + [Say(SuiteClose(r.open, r.suite))], AllDone(r.total), key);
  }

  lemma OpenSpeaks(fx: Fixtures, w: World, left: Dev, suite: CStr, key: Key)
    requires QuietSuites(w)
    ensures var up := OpenSuite(fx, w, StartRun(left).dev, suite);
            About(Heard(up.steps), key) && Unended(Heard(up.steps))
  {
    var start := StartRun(left).dev;
    assert start.steps[..0] == [];
    QuietInvoke(w, start, SuiteSetup, SetupOf(fx, suite));
    OpeningSpeaks(Invoke(w, start, SuiteSetup, SetupOf(fx, suite)).steps, SuiteOpen(suite), key);
  }

  /** A run of one case whose suite fixtures are quiet speaks of that case only, and of no failure behind its end. */
  lemma OneCaseSpeaks(fx: Fixtures, w: World, left: Dev, c: CaseInfo)
    requires QuietSuites(w) && c.id.suite.Some?
    ensures Orderly(Heard(WholeRun(fx, w, left, [c]).steps), KeyFor(c.id))
  {
    var up := OpenSuite(fx, w, StartRun(left).dev, c.id.suite);
    var ran := RunBody(fx, w, up, c);
    OpenSpeaks(fx, w, left, c.id.suite, KeyFor(c.id));
    BodySpeaks(fx, w, up, c);
    ClosingSpeaks(ran.steps, CaseClose(c.id, Outcome(ran)), KeyFor(c.id));
    assert [c][1..] == [] && RunCases(fx, w, StartRun(left), [c]) == RunOne(fx, w, StartRun(left), c);
    FinishSpeaks(fx, w, RunOne(fx, w, StartRun(left), c), KeyFor(c.id));
  }

  /** What the device calls a discovered case: its leaf is cut to the leaf buffer. */
  function SentKey(c: TestCase): Key {
    Key(c.suite, Cut(CaseLeaf(c), LEAF_MAX))
  }

  lemma SentKeyFits(id: Ident)
    requires Nameable(id)
    ensures KeyFor(id) == SentKey(CaseOf(id))
  {
  }

  lemma SomeEnd(events: seq<Event>, key: Key, other: Key)
    requires About(events, key) && EndStatuses(events) != [] && key != other
    ensures !About(events, other)
  {
    HasEnd(events);
    var i :| 0 <= i < |events| && events[i].CaseEnd?;
    assert Concerns(events[i], key) && !Concerns(events[i], other);
  }

  /** A clean child of a registered case, its suite fixtures quiet, behaves well for the name it sends; for the
      name the supervisor uses it does so if and only if group and name fit the 128-byte leaf buffer. */
  lemma CleanChildBehaves(fx: Fixtures, w: World, left: Dev, registered: seq<CaseInfo>, tag: CStr, k: nat, child: Child)
    requires DistinctIds(CaseId, registered) && QuietSuites(w)
    requires k < |Sort(CaseId, registered)| && Nameable(Sort(CaseId, registered)[k].id)
    requires CleanChild(child, ChildSteps(fx, w, left, registered, tag, CaseOf(Sort(CaseId, registered)[k].id)))
    ensures var c := CaseOf(Sort(CaseId, registered)[k].id);
            && WellBehaved(child, SentKey(c)) && !Crashed(child)
            && (WellBehaved(child, KeyOfCase(c)) <==> |CaseLeaf(c)| <= LEAF_MAX)
  {
    var info := Sort(CaseId, registered)[k];
    var c := CaseOf(info.id);
    ChildRunsOne(fx, w, left, registered, tag, k, child);
    OneCaseSpeaks(fx, w, left, info);
    SentKeyFits(info.id);
    if |CaseLeaf(c)| > LEAF_MAX {
      SomeEnd(child.events, SentKey(c), KeyOfCase(c));
    }
  }

  function SentKeys(cases: seq<TestCase>): seq<Key> {
    seq(|cases|, i requires 0 <= i < |cases| => SentKey(cases[i]))
  }

  /** Dot-free groups keep the leaves of distinct cases apart. */
  lemma LeavesApart(a: TestCase, b: TestCase)
    requires '.' !in a.group && '.' !in b.group && CaseLeaf(a) == CaseLeaf(b)
    ensures a.group == b.group && a.name == b.name
  {
    SplitFinds('.', a.group, a.name);
    SplitFinds('.', b.group, b.name);
  }

  lemma ShortNamesApart(ids: seq<Ident>)
    requires forall i :: 0 <= i < |ids| ==> Nameable(ids[i]) && |CaseLeaf(CaseOf(ids[i]))| <= LEAF_MAX
    requires forall i, j :: 0 <= i < j < |ids| ==> ids[i] != ids[j]
    ensures DistinctKeys(SentKeys(Cases(ids)))
  {
    var keys := SentKeys(Cases(ids));
    forall i, j | 0 <= i < j < |keys| ensures keys[i] != keys[j] {
      if keys[i] == keys[j] {
        LeavesApart(CaseOf(ids[i]), CaseOf(ids[j]));
      }
    }
  }

  lemma DeviceChild(fx: Fixtures, registered: seq<CaseInfo>, env: Env, w: World, left: Dev, tag: CStr,
                    i: nat, child: Child)
    requires DistinctIds(CaseId, registered) && QuietSuites(w)
    requires i < |ListedCases(fx, env, registered)| && Nameable(ListedCases(fx, env, registered)[i].id)
    requires CleanChild(child, ChildSteps(fx, w, left, registered, tag,
                                          CaseOf(ListedCases(fx, env, registered)[i].id)))
    ensures WellBehaved(child, SentKey(CaseOf(ListedCases(fx, env, registered)[i].id))) && !Crashed(child)
  {
    var c := ListedCases(fx, env, registered)[i];
    SelectMembers(x => Listed(fx, env, x), Sort(CaseId, registered));
    assert c in ListedCases(fx, env, registered);
    var k :| 0 <= k < |Sort(CaseId, registered)| && Sort(CaseId, registered)[k] == c;
    CleanChildBehaves(fx, w, left, registered, tag, k, child);
  }

  lemma ListedApart(fx: Fixtures, registered: seq<CaseInfo>, env: Env)
    requires DistinctIds(CaseId, registered)
    requires forall c :: c in ListedCases(fx, env, registered) ==> Nameable(c.id)
    requires forall c :: c in Cases(Ids(ListedCases(fx, env, registered))) ==> |CaseLeaf(c)| <= LEAF_MAX
    ensures DistinctKeys(SentKeys(Cases(Ids(ListedCases(fx, env, registered)))))
  {
    var listed := ListedCases(fx, env, registered);
    SortedIsDistinct(registered);
    SelectDistinct(c => Listed(fx, env, c), Sort(CaseId, registered));
    forall i | 0 <= i < |listed|
      ensures Nameable(Ids(listed)[i]) && |CaseLeaf(CaseOf(Ids(listed)[i]))| <= LEAF_MAX
    {
      assert listed[i] in listed && Cases(Ids(listed))[i] in Cases(Ids(listed));
    }
    ShortNamesApart(Ids(listed));
  }

  /** The table of an isolated run whose children are clean, their suite fixtures quiet, has one row per case, with
      the announced failures, if and only if no two discovered cases share a suite and the first 127 characters of
      group and name. */
  lemma JunitMatchesDevice(
    fx: Fixtures, registered: seq<CaseInfo>, env: Env, worlds: seq<World>, before: Dev, tag: CStr,
    cases: seq<TestCase>, children: seq<Child>, abort: bool)
    requires DistinctIds(CaseId, registered)
    requires forall c :: c in ListedCases(fx, env, registered) ==> Nameable(c.id)
    requires Interpret(LineCases, Lines(Printed(Ids(ListedCases(fx, env, registered))))) == Ok(cases)
    requires |worlds| == |children| == |cases| && forall i :: 0 <= i < |worlds| ==> QuietSuites(worlds[i])
    requires forall i :: 0 <= i < |children| ==>
               CleanChild(children[i], ChildSteps(fx, worlds[i], before, registered, tag, cases[i]))
    ensures var s := Supervised(cases, children, abort);
            && (|Table(s.reported)| == |cases| <==> DistinctKeys(SentKeys(cases)))
            && (DistinctKeys(SentKeys(cases)) ==> CountFailed(Table(s.reported)) == s.counts.failed)
            && ((forall c :: c in cases ==> |CaseLeaf(c)| <= LEAF_MAX) ==> DistinctKeys(SentKeys(cases)))
  {
    var listed := ListedCases(fx, env, registered);
    DiscoveredAreListed(fx, registered, env, cases);
    forall i | 0 <= i < |children| ensures WellBehaved(children[i], SentKeys(cases)[i]) && !Crashed(children[i]) {
      assert listed[i] in listed && cases[i] == CaseOf(listed[i].id);
      DeviceChild(fx, registered, env, worlds[i], before, tag, i, children[i]);
    }
    NoCrashProcessesAll(children, abort);
    assert cases[..|cases|] == cases && children[..|children|] == children;
    assert SentKeys(cases)[..|cases|] == SentKeys(cases);
    JunitMatchesSupervisor(cases, children, SentKeys(cases), abort);
    if forall c :: c in cases ==> |CaseLeaf(c)| <= LEAF_MAX {
      ListedApart(fx, registered, env);
    }
  }

  /** A failing input: two registered cases whose names agree up to the cut, run clean, the first failing and the
      second passing. They share a row, and the failure is lost from the table, though not from the totals. */
  lemma SharedRow(a: TestCase, b: TestCase, first: Child, second: Child, abort: bool)
    requires SentKey(a) == SentKey(b) && !Crashed(first) && !Crashed(second)
    requires WellBehaved(first, SentKey(a)) && EndStatuses(first.events) == [Failed]
    requires WellBehaved(second, SentKey(b)) && EndStatuses(second.events) == [Passed]
    ensures var s := Supervised([a, b], [first, second], abort);
            s.counts == Counts(1, 1, 0) && |Table(s.reported)| == 1 && CountFailed(Table(s.reported)) == 0
  {
    var key := SentKey(a);
    var s1 := AfterCase(START, a, first);
    ChildRow(START, a, first, key);
    SupervisedTwo(a, b, first, second, abort);
    ReceivedRow(s1, second.events, key);
    EndIsLastWord(second.events, key);
    var events := AfterCase(s1, b, second).reported;
    assert Keys(events) == [key] && R.Verdict(events, key) == Some(Passed);
    OneRowPassed(events, key);
    TwoSettled(a, b, first, second);
  }

  lemma OneRowPassed(events: seq<Event>, key: Key)
    requires Keys(events) == [key] && R.Verdict(events, key) == Some(Passed)
    ensures |Table(events)| == 1 && CountFailed(Table(events)) == 0
  {
    TableFrom(events, [key], [Passed]);
    CountOne(Passed, Failed);
  }

  lemma TwoSettled(a: TestCase, b: TestCase, first: Child, second: Child)
    requires !Crashed(first) && !Crashed(second)
    requires EndStatuses(first.events) == [Failed] && EndStatuses(second.events) == [Passed]
    ensures AfterCase(AfterCase(START, a, first), b, second).counts == Counts(1, 1, 0)
  {
    var s1 := AfterCase(START, a, first);
    forall status ensures Of(AfterCase(s1, b, second).counts, status) == Of(Counts(1, 1, 0), status) {
      ReportsCount(START, first.events, status);
      ReportsCount(s1, second.events, status);
      CountOne(Failed, status);
      CountOne(Passed, status);
    }
    SameCounts(AfterCase(s1, b, second).counts, Counts(1, 1, 0));
  }

  lemma SupervisedTwo(a: TestCase, b: TestCase, first: Child, second: Child, abort: bool)
    requires !Crashed(first) && !Crashed(second)
    ensures Supervised([a, b], [first, second], abort) == AfterCase(AfterCase(START, a, first), b, second)
  {
    var cases, children := [a, b], [first, second];
    NoCrashProcessesAll(children, abort);
    assert cases[..2] == cases && children[..2] == children && cases[..1] == [a] && children[..1] == [first];
    assert [a][..0] == [] && [first][..0] == [];
    assert AfterCases(START, [a], [first]) == AfterCase(AfterCases(START, [], []), a, first);
  }

  lemma SupervisedOne(c: TestCase, child: Child, abort: bool)
    ensures Supervised([c], [child], abort) == AfterCase(START, c, child)
  {
    var cases, children := [c], [child];
    var none: seq<Child> := children[1..];
    assert none == [] && Processed(none, abort) == 0;
    assert Processed(children, abort) == 1 && cases[..1] == cases && children[..1] == children;
    assert cases[..0] == [] && children[..0] == [];
    assert AfterCases(START, cases, children) == AfterCase(AfterCases(START, cases[..0], children[..0]), c, child);
  }

  /** A failing input: a child of a case with a long name sends a whole run that passes and then crashes. The case
      gets two rows. */
  lemma CrashOfLongName(c: TestCase, child: Child, abort: bool)
    requires |CaseLeaf(c)| > LEAF_MAX && Crashed(child)
    requires Orderly(child.events, SentKey(c)) && EndStatuses(child.events) == [Passed]
    ensures var s := Supervised([c], [child], abort);
            s.counts == Counts(0, 1, 0) && |Table(s.reported)| == 2
  {
    var sent, full := SentKey(c), KeyOfCase(c);
    var s1 := ReceiveAll(START, child.events);
    SupervisedOne(c, child, abort);
    ReceivedRow(START, child.events, sent);
    EndIsLastWord(child.events, sent);
    CrashRow(s1.reported, c, child);
    assert sent != full && Keys(s1.reported) == [sent];
    TableIsLastWord(s1.reported + CrashEvents(c, child));
    CaseConserves(START, c, child);
    forall status ensures Of(AfterCase(START, c, child).counts, status) == Of(Counts(0, 1, 0), status) {
      CountOne(Failed, status);
      assert Settled(child) == [Failed];
    }
    SameCounts(AfterCase(START, c, child).counts, Counts(0, 1, 0));
  }
}
