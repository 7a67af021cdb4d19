/** The rows of the JUnit table, as what the host hears of a timeline makes them. */
module JunitRows {
  import opened Protocol
  import opened DeviceWire
  import opened CaseOrder
  import opened RunnerModel
  import opened Payload
  import opened DeviceRun
  import opened R = Reporters

  /** Between the two streams only the row of `key` may have appeared or changed. */
  ghost predicate Touches(before: seq<Event>, after: seq<Event>, key: Key) {
    && (Keys(after) == Keys(before) || (key !in Keys(before) && Keys(after) == Keys(before) + [key]))
    && forall other :: other != key ==> R.Verdict(after, other) == R.Verdict(before, other)
  }

  predicate Concerns(e: Event, key: Key) {
    KeyOf(e) == None || KeyOf(e) == Some(key)
  }

  lemma TouchesSnoc(events: seq<Event>, e: Event, key: Key)
    requires Concerns(e, key)
    ensures Touches(events, events + [e], key)
    ensures KeyOf(e) == None ==> Keys(events + [e]) == Keys(events)
    ensures R.Verdict(events + [e], key) == if KeyOf(e).Some? then Some(StatusOf(e)) else R.Verdict(events, key)
    ensures KeyOf(e) == Some(key) && key !in Keys(events) ==> Keys(events + [e]) == Keys(events) + [key]
    ensures KeyOf(e) == Some(key) && key in Keys(events) ==> Keys(events + [e]) == Keys(events)
  {
  }

  lemma TouchesOnce(a: seq<Event>, b: seq<Event>, c: seq<Event>, key: Key)
    requires Touches(a, b, key) && Touches(b, c, key)
    ensures Touches(a, c, key)
  {
  }

  /** The row of a case, as the host hears of it. */
  function KeyFor(id: Ident): Key {
    Key(Clamp(Chars(id.suite)), Leaf(id))
  }

  function KeysFor(cases: seq<CaseInfo>): seq<Key> {
    seq(|cases|, i requires 0 <= i < |cases| => KeyFor(cases[i].id))
  }

  /** Suite and leaf are short enough for the messages that carry both. */
  predicate NamesFit(id: Ident) {
    |Clamp(Chars(id.suite))| + |Leaf(id)| <= TEXT_MAX
  }

  lemma ToldOfFailure(note: Note)
    requires note.Failure?
    ensures Travels(note) ==> Told(Say(note)) == [Carried(EventOfNote(note).value)]
                              && Told(Say(note))[0].AssertFail? && KeyOf(Told(Say(note))[0]) == Some(KeyFor(note.id))
    ensures !Travels(note) ==> Told(Say(note)) == []
  {
  }

  lemma ToldOfClose(id: Ident, status: TestStatus)
    ensures Told(Say(CaseClose(id, status))) ==
            if NamesFit(id) then [CaseEnd(KeyFor(id).suite, KeyFor(id).name, status)] else []
  {
  }

  /** Nothing but failures and case ends concerns a row. */
  lemma ToldOfOther(step: Step)
    requires step.Call? || !(step.note.Failure? || step.note.CaseClose?)
    ensures forall e :: e in Told(step) ==> KeyOf(e) == None
  {
  }

  lemma StepTouches(steps: seq<Step>, step: Step, key: Key)
    requires forall e :: e in Told(step) ==> Concerns(e, key)
    ensures Touches(Heard(steps), Heard(steps + [step]), key)
  {
    HeardSnoc(steps, step);
    EmptyIsNeutral(Heard(steps));
    if Told(step) != [] {
      TouchesSnoc(Heard(steps), Told(step)[0], key);
    }
  }

  lemma ActTouches(d: Dev, a: Action)
    ensures Touches(Heard(d.steps), Heard(Act(d, a).steps), KeyFor(d.cur)) && Act(d, a).cur == d.cur
  {
    match a
    case Fail(file, line, message) =>
      var note := Failure(d.cur, file, line, if message.None? then "fail" else message.value);
      ToldOfFailure(note);
      StepTouches(d.steps, Say(note), KeyFor(d.cur));
    case Ignore(message) =>
      if message.Some? {
        StepTouches(d.steps, Say(Ignored(d.cur, message.value)), KeyFor(d.cur));
      }
    case Abort =>
  }

  lemma {:induction false} ActionsTouch(d: Dev, actions: seq<Action>)
    ensures Touches(Heard(d.steps), Heard(ActAll(d, actions).steps), KeyFor(d.cur))
    ensures ActAll(d, actions).cur == d.cur
    decreases |actions|
  {
    if actions == [] {
    } else {
      var next := Act(d, actions[0]);
      ActTouches(d, actions[0]);
      ActionsTouch(next, actions[1..]);
      TouchesOnce(Heard(d.steps), Heard(next.steps), Heard(ActAll(d, actions).steps), KeyFor(d.cur));
    }
  }

  lemma InvokeTouches(w: World, d: Dev, role: Role, fn: Option<nat>)
    ensures Touches(Heard(d.steps), Heard(Invoke(w, d, role, fn).steps), KeyFor(d.cur))
    ensures Invoke(w, d, role, fn).cur == d.cur
  {
    if fn.Some? {
      var entered := d.(steps := d.steps + [Call(role, fn.value)]);
      StepTouches(d.steps, Call(role, fn.value), KeyFor(d.cur));
      ActionsTouch(entered, w(entered.steps));
      TouchesOnce(Heard(d.steps), Heard(entered.steps), Heard(Invoke(w, d, role, fn).steps), KeyFor(d.cur));
    }
  }

  lemma BodyTouches(fx: Fixtures, w: World, d: Dev, c: CaseInfo)
    ensures Touches(Heard(d.steps), Heard(RunBody(fx, w, d, c).steps), KeyFor(c.id))
  {
    var clean := d.(cur := c.id, failed := false, skipped := false);
    var d0 := Emit(clean, CaseOpen(c.id));
    var d1 := Invoke(w, d0, GroupSetup, GroupSetupOf(fx, c.id));
    var d2 := Invoke(w, d1, Body, c.fn);
    var d3 := Invoke(w, d2, GroupTeardown, GroupTeardownOf(fx, c.id));
    StepTouches(d.steps, Say(CaseOpen(c.id)), KeyFor(c.id));
    InvokeTouches(w, d0, GroupSetup, GroupSetupOf(fx, c.id));
    InvokeTouches(w, d1, Body, c.fn);
    InvokeTouches(w, d2, GroupTeardown, GroupTeardownOf(fx, c.id));
    TouchesOnce(Heard(d.steps), Heard(d0.steps), Heard(d1.steps), KeyFor(c.id));
    TouchesOnce(Heard(d.steps), Heard(d1.steps), Heard(d2.steps), KeyFor(c.id));
    TouchesOnce(Heard(d.steps), Heard(d2.steps), Heard(d3.steps), KeyFor(c.id));
  }

  /** Distinct rows for distinct cases. */
  ghost predicate DistinctKeys(keys: seq<Key>) {
    forall i, j :: 0 <= i < j < |keys| ==> keys[i] != keys[j]
  }

  lemma {:induction false} FailedRows(rows: seq<Row>, statuses: seq<TestStatus>)
    requires |rows| == |statuses| && forall i :: 0 <= i < |rows| ==> rows[i].status == statuses[i]
    ensures CountFailed(rows) == Count(statuses, Failed)
    decreases |rows|
  {
    if rows == [] {
    } else {
      var n := |rows| - 1;
      FailedRows(rows[..n], statuses[..n]);
      assert statuses == statuses[..n] + [statuses[n]];
      CountConcat(statuses[..n], [statuses[n]], Failed);
      CountOne(statuses[n], Failed);
    }
  }

  /** A stream whose keys are these, with these last words, makes exactly this table. */
  lemma TableFrom(events: seq<Event>, keys: seq<Key>, statuses: seq<TestStatus>)
    requires Keys(events) == keys && |keys| == |statuses|
    requires forall i :: 0 <= i < |keys| ==> R.Verdict(events, keys[i]) == Some(statuses[i])
    ensures |Table(events)| == |keys|
    ensures forall i :: 0 <= i < |keys| ==> Table(events)[i].key == keys[i] && Table(events)[i].status == statuses[i]
    ensures CountFailed(Table(events)) == Count(statuses, Failed)
  {
    TableIsLastWord(events);
    FailedRows(Table(events), statuses);
  }

  function KeySet(keys: seq<Key>): set<Key> {
    set key | key in keys
  }

  lemma {:induction false} KeySetSize(keys: seq<Key>)
    ensures |KeySet(keys)| <= |keys| && (|KeySet(keys)| == |keys| <==> DistinctKeys(keys))
  {
    if keys == [] {
    } else {
      var n := |keys| - 1;
      KeySetSize(keys[..n]);
      assert keys == keys[..n] + [keys[n]];
      assert KeySet(keys) == KeySet(keys[..n]) + {keys[n]};
      if keys[n] in keys[..n] {
        assert KeySet(keys) == KeySet(keys[..n]);
        var i :| 0 <= i < n && keys[..n][i] == keys[n];
        assert keys[i] == keys[n];
      }
    }
  }

  lemma {:induction false} SubsetSize(a: set<Key>, b: set<Key>)
    requires a <= b
    ensures |a| <= |b|
  {
    if a == {} {
    } else {
      var key :| key in a;
      SubsetSize(a - {key}, b - {key});
    }
  }

  /** As many distinct keys as there are, all among these, leave no room for repetition and leave none out. */
  lemma Pigeonhole(found: seq<Key>, keys: seq<Key>)
    requires DistinctKeys(found) && |found| == |keys| && forall key :: key in found ==> key in keys
    ensures DistinctKeys(keys) && forall key :: key in keys ==> key in found
  {
    KeySetSize(found);
    KeySetSize(keys);
    SubsetSize(KeySet(found), KeySet(keys));
    SubsetEqual(KeySet(found), KeySet(keys));
    forall key | key in keys ensures key in found {
      assert key in KeySet(keys);
    }
  }

  lemma SubsetEqual(a: set<Key>, b: set<Key>)
    requires a <= b && |a| >= |b|
    ensures a == b
  {
    if key :| key in b && key !in a {
      SubsetSize(a, b - {key});
    }
  }
}
