/** The console counters and the JUnit table, both accumulated event by event. */
module Reporters {
  import opened Protocol
  import opened RunnerModel

  datatype Key = Key(suite: Str, name: Str)

  datatype Row = Row(key: Key, status: TestStatus, message: Option<Str>)

  /** The row an event updates, if it updates one. */
  function KeyOf(e: Event): Option<Key> {
    match e
    case CaseEnd(suite, name, _) => Some(Key(suite, name))
    case AssertFail(suite, name, _, _, _) => Some(Key(suite, name))
    case _ => None
  }

  function StatusOf(e: Event): TestStatus {
    if e.CaseEnd? then e.status else Failed
  }

  /** The position of the last row with this key, as a search from the end finds it. */
  function Find(rows: seq<Row>, key: Key): (k: Option<nat>)
    ensures k.Some? ==> k.value < |rows| && rows[k.value].key == key
    ensures k.None? ==> forall i :: 0 <= i < |rows| ==> rows[i].key != key
  {
    if rows == [] then None
    else if rows[|rows| - 1].key == key then Some(|rows| - 1)
    else Find(rows[..|rows| - 1], key)
  }

  function Updated(row: Row, e: Event): Row {
    if e.AssertFail? then row.(status := Failed, message := Some(e.message)) else row.(status := StatusOf(e))
  }

  function Report(rows: seq<Row>, e: Event): seq<Row> {
    if KeyOf(e).None? then rows
    else
      var key := KeyOf(e).value;
      var k := Find(rows, key);
      if k.Some? then rows[k.value := Updated(rows[k.value], e)]
      else rows + [Updated(Row(key, Failed, None), e)]
  }

  function Table(events: seq<Event>): seq<Row> {
    if events == [] then [] else Report(Table(events[..|events| - 1]), events[|events| - 1])
  }

  lemma TableSnoc(events: seq<Event>, e: Event)
    ensures Table(events + [e]) == Report(Table(events), e)
  {
  }

  /** What the events say about one key on their own: the last word on its status and its last failure message. */
  function Verdict(events: seq<Event>, key: Key): Option<TestStatus> {
    if events == [] then None
    else
      var last := events[|events| - 1];
      if KeyOf(last) == Some(key) then Some(StatusOf(last)) else Verdict(events[..|events| - 1], key)
  }

  function LastMessage(events: seq<Event>, key: Key): Option<Str> {
    if events == [] then None
    else
      var last := events[|events| - 1];
      if KeyOf(last) == Some(key) && last.AssertFail? then Some(last.message)
      else LastMessage(events[..|events| - 1], key)
  }

  /** The keys the events mention, in the order of their first mention. */
  function Keys(events: seq<Event>): seq<Key> {
    if events == [] then []
    else
      var before, key := Keys(events[..|events| - 1]), KeyOf(events[|events| - 1]);
      if key.None? || key.value in before then before else before + [key.value]
  }

  /** The table has one row per key mentioned, in order of first mention; each row says what the last event
      about its key said. */
  lemma {:induction false} TableIsLastWord(events: seq<Event>)
    ensures var rows, keys := Table(events), Keys(events);
            && |rows| == |keys| && (forall i, j :: 0 <= i < j < |keys| ==> keys[i] != keys[j])
            && forall i :: 0 <= i < |rows| ==>
                 rows[i].key == keys[i] && Some(rows[i].status) == Verdict(events, keys[i])
                 && rows[i].message == LastMessage(events, keys[i])
  {
    if events == [] {
    } else {
      var before, e := events[..|events| - 1], events[|events| - 1];
      TableIsLastWord(before);
      if KeyOf(e).Some? && KeyOf(e).value !in Keys(before) {
        Unmentioned(before, KeyOf(e).value);
      }
    }
  }

  lemma {:induction false} Unmentioned(events: seq<Event>, key: Key)
    requires key !in Keys(events)
    ensures Verdict(events, key) == None && LastMessage(events, key) == None
  {
    if events == [] {
    } else {
      Unmentioned(events[..|events| - 1], key);
    }
  }

  function CountFailed(rows: seq<Row>): nat {
    if rows == [] then 0
    else CountFailed(rows[..|rows| - 1]) + (if rows[|rows| - 1].status == Failed then 1 else 0)
  }

  /** The console's counters before a Done event overwrites them. */
  function Ends(events: seq<Event>): Counts {
    if events == [] then ZERO
    else
      var last := events[|events| - 1];
      var before := Ends(events[..|events| - 1]);
      if last.CaseEnd? then Bump(before, last.status) else before
  }

  class ConsoleReporter {
    var passed: nat
    var failed: nat
    var skipped: nat
    ghost var seen: seq<Event>

    constructor ()
      ensures Shown() == ZERO && seen == []
    {
      passed, failed, skipped := 0, 0, 0;
      seen := [];
    }

    ghost function Shown(): Counts
      reads this
    {
      Counts(passed, failed, skipped)
    }

    /** Counts case ends; a Done event replaces the counters by its own. */
    method OnEvent(e: Event)
      modifies this
      ensures seen == old(seen) + [e]
      ensures old(Shown()) == Ends(old(seen)) && !e.Done? ==> Shown() == Ends(seen)
      ensures e.Done? ==> Shown() == Counts(e.passed, e.failed, e.skipped)
      ensures !e.CaseEnd? && !e.Done? ==> Shown() == old(Shown())
    {
      match e {
        case CaseEnd(_, _, status) =>
          match status {
            case Passed => passed := passed + 1;
            case Failed => failed := failed + 1;
            case Skipped => skipped := skipped + 1;
          }
        case Done(p, f, s) =>
          passed, failed, skipped := p, f, s;
        case _ =>
      }
      seen := seen + [e];
      assert seen[..|seen| - 1] == old(seen);
    }
  }

  class JunitReporter {
    var cases: seq<Row>
    var suite: Str
    ghost var seen: seq<Event>

    ghost predicate Valid()
      reads this
    {
      cases == Table(seen)
    }

    constructor ()
      ensures Valid() && seen == [] && suite == "polyontest"
    {
      cases, suite, seen := [], "polyontest", [];
    }

    /** Searches the rows from the end. */
    method FindRow(key: Key) returns (k: Option<nat>)
      ensures k == Find(cases, key)
    {
      var i := |cases|;
      assert cases[..i] == cases;
      while i > 0
        invariant 0 <= i <= |cases|
        invariant Find(cases, key) == Find(cases[..i], key)
      {
        i := i - 1;
        assert cases[..i + 1][..i] == cases[..i];
        if cases[i].key == key {
          return Some(i);
        }
      }
      k := None;
    }

    method OnEvent(e: Event)
      requires Valid()
      modifies this
      ensures Valid() && seen == old(seen) + [e]
      ensures suite == if e.SuiteStart? then e.name else old(suite)
    {
      TableSnoc(seen, e);
      match e {
        case SuiteStart(name) =>
          suite := name;
        case CaseEnd(s, n, status) =>
          var k := FindRow(Key(s, n));
          if k.Some? {
            cases := cases[k.value := cases[k.value].(status := status)];
          } else {
            cases := cases + [Row(Key(s, n), status, None)];
          }
        case AssertFail(s, n, _, _, message) =>
          var k := FindRow(Key(s, n));
          if k.Some? {
            cases := cases[k.value := cases[k.value].(message := Some(message), status := Failed)];
          } else {
            cases := cases + [Row(Key(s, n), Failed, Some(message))];
          }
        case _ =>
      }
      seen := seen + [e];
    }

    /** The counts of the report's header. */
    method Finish() returns (tests: nat, failures: nat)
      requires Valid()
      ensures tests == |Table(seen)| && failures == CountFailed(Table(seen))
    {
      failures := 0;
      for i := 0 to |cases|
        invariant failures == CountFailed(cases[..i])
      {
        assert cases[..i + 1][..i] == cases[..i];
        if cases[i].status == Failed {
          failures := failures + 1;
        }
      }
      assert cases[..|cases|] == cases;
      tests := |cases|;
    }
  }
}
