/** The JUnit table of an isolated run: for arbitrary well-behaved children, and for the device's own. */
module JunitIsolated {
  import opened Protocol
  import opened RunnerModel
  import opened Supervisor
  import opened JunitRows
  import opened R = Reporters

  /** A child that speaks only of its own case, ends it at most once, and, when it exits cleanly, ends it and
      reports no failure afterwards. */
  predicate WellBehaved(child: Child, key: Key) {
    && (forall i :: 0 <= i < |child.events| ==> Concerns(child.events[i], key))
    && |EndStatuses(child.events)| <= 1
    && (!Crashed(child) ==>
          EndStatuses(child.events) != []
          && forall i, j :: 0 <= i < j < |child.events| && child.events[i].CaseEnd? ==> !child.events[j].AssertFail?)
  }

  function KeyOfCase(c: TestCase): Key {
    Key(c.suite, CaseLeaf(c))
  }

  lemma {:induction false} ReceivedRow(s: State, events: seq<Event>, key: Key)
    requires forall i :: 0 <= i < |events| ==> Concerns(events[i], key)
    ensures Touches(s.reported, ReceiveAll(s, events).reported, key)
    ensures R.Verdict(events, key).Some? ==>
              R.Verdict(ReceiveAll(s, events).reported, key) == R.Verdict(events, key)
              && key in Keys(ReceiveAll(s, events).reported)
  {
    if events == [] {
    } else {
      var init, last := events[..|events| - 1], events[|events| - 1];
      var s1 := ReceiveAll(s, init);
      ReceivedRow(s, init, key);
      TouchesSnoc(s1.reported, last, key);
      TouchesOnce(s.reported, s1.reported, ReceiveAll(s, events).reported, key);
    }
  }

  /** A cleanly ended case has its reported status as the last word. */
  lemma {:induction false} EndIsLastWord(events: seq<Event>, key: Key)
    requires forall i :: 0 <= i < |events| ==> Concerns(events[i], key)
    requires |EndStatuses(events)| == 1
    requires forall i, j :: 0 <= i < j < |events| && events[i].CaseEnd? ==> !events[j].AssertFail?
    ensures R.Verdict(events, key) == Some(EndStatuses(events)[0])
  {
    var init, last := events[..|events| - 1], events[|events| - 1];
    if !last.CaseEnd? {
      EmptyIsNeutral(EndStatuses(init));
      EndIsLastWord(init, key);
      HasEnd(init);
      var i :| 0 <= i < |init| && init[i].CaseEnd?;
      assert events[i].CaseEnd?;
    }
  }

  lemma {:induction false} HasEnd(events: seq<Event>)
    requires EndStatuses(events) != []
    ensures exists i :: 0 <= i < |events| && events[i].CaseEnd?
  {
    if !events[|events| - 1].CaseEnd? {
      var init := events[..|events| - 1];
      EmptyIsNeutral(EndStatuses(init));
      HasEnd(init);
      var i :| 0 <= i < |init| && init[i].CaseEnd?;
      assert events[i].CaseEnd?;
    }
  }

  lemma CrashRow(reported: seq<Event>, c: TestCase, child: Child)
    ensures Touches(reported, reported + CrashEvents(c, child), KeyOfCase(c))
    ensures R.Verdict(reported + CrashEvents(c, child), KeyOfCase(c)) == Some(Failed)
    ensures KeyOfCase(c) in Keys(reported + CrashEvents(c, child))
  {
    var key := KeyOfCase(c);
    var start: seq<Event> := if Ran(child.events) then [] else [CaseStart(c.suite, CaseLeaf(c))];
    var fail := AssertFail(c.suite, CaseLeaf(c), "", 0, ErrorText(child));
    var end := CaseEnd(c.suite, CaseLeaf(c), Failed);
    var ending := if EndStatuses(child.events) == [] then [end] else [];
    var a, b := reported + start, reported + start + [fail];
    Associative(reported, start, [fail]);
    Associative(reported, start + [fail], ending);
    EmptyIsNeutral(reported);
    EmptyIsNeutral(b);
    if !Ran(child.events) {
      TouchesSnoc(reported, CaseStart(c.suite, CaseLeaf(c)), key);
    }
    TouchesSnoc(a, fail, key);
    TouchesOnce(reported, a, b, key);
    TouchesSnoc(b, end, key);
    TouchesOnce(reported, b, b + ending, key);
  }

  lemma ChildRow(s: State, c: TestCase, child: Child, key: Key)
    requires WellBehaved(child, key) && (Crashed(child) ==> key == KeyOfCase(c)) && key !in Keys(s.reported)
    ensures |Settled(child)| == 1
    ensures var after := AfterCase(s, c, child).reported;
            && Keys(after) == Keys(s.reported) + [key]
            && R.Verdict(after, key) == Some(Settled(child)[0])
            && forall other :: other != key ==> R.Verdict(after, other) == R.Verdict(s.reported, other)
  {
    var s1 := ReceiveAll(s, child.events);
    ReceivedRow(s, child.events, key);
    if Crashed(child) {
      CrashRow(s1.reported, c, child);
      TouchesOnce(s.reported, s1.reported, AfterCase(s, c, child).reported, key);
    } else {
      EndIsLastWord(child.events, key);
    }
  }

  /** Each child behaves well for its key; a crashed one's key is the one the supervisor itself uses. */
  ghost predicate AllWellBehaved(cases: seq<TestCase>, children: seq<Child>, keys: seq<Key>)
    requires |cases| == |children| == |keys|
  {
    forall i :: 0 <= i < |cases| ==>
      WellBehaved(children[i], keys[i]) && (Crashed(children[i]) ==> keys[i] == KeyOfCase(cases[i]))
  }

  /** The rows the table will have: these keys in order, with these outcomes. */
  ghost predicate RowsAre(events: seq<Event>, keys: seq<Key>, outcomes: seq<TestStatus>) {
    && Keys(events) == keys && |outcomes| == |keys|
    && forall i :: 0 <= i < |keys| ==> R.Verdict(events, keys[i]) == Some(outcomes[i])
  }

  /** One more child with a new key adds its row and leaves the rows before it. */
  lemma RowsGrow(s: State, c: TestCase, child: Child, keys: seq<Key>, outcomes: seq<TestStatus>, key: Key)
    requires RowsAre(s.reported, keys, outcomes) && key !in keys
    requires WellBehaved(child, key) && (Crashed(child) ==> key == KeyOfCase(c))
    ensures RowsAre(AfterCase(s, c, child).reported, keys + [key], outcomes + Settled(child))
  {
    ChildRow(s, c, child, key);
    var after := AfterCase(s, c, child).reported;
    forall i | 0 <= i < |keys| + 1
      ensures R.Verdict(after, (keys + [key])[i]) == Some((outcomes + Settled(child))[i])
    {
      if i < |keys| {
        assert keys[i] != key;
      }
    }
  }

  lemma {:induction false} RowsOfChildren(cases: seq<TestCase>, children: seq<Child>, keys: seq<Key>)
    requires |cases| == |children| == |keys| && AllWellBehaved(cases, children, keys) && DistinctKeys(keys)
    ensures RowsAre(AfterCases(START, cases, children).reported, keys, SettledAll(children))
    decreases |cases|
  {
    if cases != [] {
      var n := |cases| - 1;
      assert keys == keys[..n] + [keys[n]];
      RowsOfChildren(cases[..n], children[..n], keys[..n]);
      RowsGrow(AfterCases(START, cases[..n], children[..n]), cases[n], children[n], keys[..n],
               SettledAll(children[..n]), keys[n]);
    }
  }

  lemma ChildKeys(s: State, c: TestCase, child: Child, key: Key)
    requires WellBehaved(child, key) && (Crashed(child) ==> key == KeyOfCase(c))
    ensures forall other :: other in Keys(AfterCase(s, c, child).reported) ==> other in Keys(s.reported) || other == key
  {
    ReceivedRow(s, child.events, key);
    if Crashed(child) {
      CrashRow(ReceiveAll(s, child.events).reported, c, child);
    }
  }

  lemma {:induction false} KeysOfChildren(cases: seq<TestCase>, children: seq<Child>, keys: seq<Key>)
    requires |cases| == |children| == |keys| && AllWellBehaved(cases, children, keys)
    ensures forall key :: key in Keys(AfterCases(START, cases, children).reported) ==> key in keys
    decreases |cases|
  {
    if cases == [] {
    } else {
      var n := |cases| - 1;
      assert keys == keys[..n] + [keys[n]];
      KeysOfChildren(cases[..n], children[..n], keys[..n]);
      ChildKeys(AfterCases(START, cases[..n], children[..n]), cases[n], children[n], keys[n]);
    }
  }

  /** After an isolated run of well-behaved children the JUnit table has one row per processed case if and only if
      their keys are distinct; each row then has its case's settled outcome, and the table's failures are the
      announced failed count. */
  lemma JunitMatchesSupervisor(cases: seq<TestCase>, children: seq<Child>, keys: seq<Key>, abort: bool)
    requires |cases| == |children| == |keys|
    requires var n := Processed(children, abort); AllWellBehaved(cases[..n], children[..n], keys[..n])
    ensures var n, s := Processed(children, abort), Supervised(cases, children, abort);
            var rows := Table(s.reported);
            && (|rows| == n <==> DistinctKeys(keys[..n]))
            && (DistinctKeys(keys[..n]) ==>
                  && |SettledAll(children[..n])| == n && CountFailed(rows) == s.counts.failed
                  && forall i :: 0 <= i < n ==> rows[i].key == keys[i] && rows[i].status == SettledAll(children[..n])[i])
  {
    var n, s := Processed(children, abort), Supervised(cases, children, abort);
    TableIsLastWord(s.reported);
    KeysOfChildren(cases[..n], children[..n], keys[..n]);
    if |Table(s.reported)| == n {
      Pigeonhole(Keys(s.reported), keys[..n]);
    }
    if DistinctKeys(keys[..n]) {
      RowsOfChildren(cases[..n], children[..n], keys[..n]);
      TableFrom(s.reported, keys[..n], SettledAll(children[..n]));
      CasesConserve(cases[..n], children[..n]);
      assert Of(s.counts, Failed) == s.counts.failed;
    }
  }

  /** A stream error, a timeout, a bad exit status or a case that never started makes the case's row a failed one,
      whatever the child reported. */
  lemma FaultyRowFails(s: State, c: TestCase, child: Child)
    requires !child.ending.Eof? || !child.exit.ok || !Started(child.events)
    ensures R.Verdict(AfterCase(s, c, child).reported, Key(c.suite, c.group + "." + c.name)) == Some(Failed)
  {
    CrashRow(ReceiveAll(s, child.events).reported, c, child);
  }
}
