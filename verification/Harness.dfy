/** The on-target runner: its linked registries, its flags and counters, and the run loop. */
module Harness {
  import opened Protocol
  import opened DeviceWire
  import opened CaseOrder
  import opened Sorting
  import opened Registry
  import opened RunnerModel
  import opened Filters
  import L = RunnerLaws

  function Infos<T>(nodes: seq<Node<T>>): seq<T> {
    seq(|nodes|, i requires 0 <= i < |nodes| => nodes[i].info)
  }

  function NodeId(n: Node<CaseInfo>): Ident {
    n.info.id
  }

  lemma {:induction false} InsertInfo(nodes: seq<Node<CaseInfo>>, x: Node<CaseInfo>)
    ensures Infos(Insert(NodeId, nodes, x)) == Insert(CaseId, Infos(nodes), x.info)
  {
    if nodes == [] {
    } else {
      InsertInfo(nodes[1..], x);
      assert Infos(nodes) == [nodes[0].info] + Infos(nodes[1..]);
      assert Infos([x] + nodes) == [x.info] + Infos(nodes);
      assert Infos([nodes[0]] + Insert(NodeId, nodes[1..], x)) ==
             [nodes[0].info] + Infos(Insert(NodeId, nodes[1..], x));
    }
  }

  lemma {:induction false} InsertAllInfo(sorted: seq<Node<CaseInfo>>, rest: seq<Node<CaseInfo>>)
    ensures Infos(InsertAll(NodeId, sorted, rest)) == InsertAll(CaseId, Infos(sorted), Infos(rest))
    decreases |rest|
  {
    if rest == [] {
    } else {
      InsertInfo(sorted, rest[0]);
      InsertAllInfo(Insert(NodeId, sorted, rest[0]), rest[1..]);
      assert Infos(rest)[1..] == Infos(rest[1..]);
    }
  }

  /** Sorting the nodes sorts what they describe. */
  lemma SortInfo(nodes: seq<Node<CaseInfo>>)
    ensures Infos(Sort(NodeId, nodes)) == Sort(CaseId, Infos(nodes))
  {
    InsertAllInfo([], nodes);
    assert Infos<CaseInfo>([]) == [];
  }

  /** With distinct identifiers, the whole timeline of a run depends only on which cases are registered, never on
      the order of their registration. */
  lemma RunIgnoresRegistration(fx: Fixtures, w: World, left: Dev, f: Filter, a: seq<CaseInfo>, b: seq<CaseInfo>)
    requires DistinctIds(CaseId, a) && multiset(a) == multiset(b)
    ensures WholeRun(fx, w, left, Selected(fx, f, Sort(CaseId, a))) ==
            WholeRun(fx, w, left, Selected(fx, f, Sort(CaseId, b)))
  {
    OrderIgnoresRegistration(CaseId, a, b);
  }

  /** A later run that registers nothing new leaves the list, and so the order of its cases, as the run before
      it left them, ties included. */
  lemma LaterRunKeepsOrder(nodes: seq<Node<CaseInfo>>, section: seq<Node<CaseInfo>>)
    requires forall n :: n in section ==> n in nodes
    ensures Sort(NodeId, Registered(Sort(NodeId, nodes), section)) == Sort(NodeId, nodes)
  {
    SortIsStableSort<Node<CaseInfo>>(NodeId, nodes);
    CollectedOnce(Sort(NodeId, nodes), section);
    SortIsIdempotent<Node<CaseInfo>>(NodeId, nodes);
  }

  lemma NodesWellBracketed(fx: Fixtures, w: World, left: Dev, f: Filter, nodes: seq<Node<CaseInfo>>)
    ensures var selected := Selected(fx, f, Infos(Sort(NodeId, nodes)));
            var end := L.Watched(WholeRun(fx, w, left, selected).steps);
            && (end.Finished? <==> forall c :: c in selected ==> c.id.suite.Some?)
            && (end.Finished? ==> end == L.Finished(RunTotal(fx, w, left, selected)))
  {
    SortInfo(nodes);
    L.EveryRunIsWellBracketed(fx, w, left, f, Infos(nodes));
  }

  class Harness {
    const cases: List<CaseInfo>
    const suites: List<SuiteInfo>
    const groups: List<GroupInfo>
    var cur: Ident
    var currentFailed: bool
    var currentSkipped: bool
    var passed: nat
    var failed: nat
    var skipped: nat
    var steps: seq<Step>

    ghost predicate Valid()
      reads this, cases, suites, groups, cases.nodes, suites.nodes, groups.nodes
    {
      cases.Valid() && suites.Valid() && groups.Valid()
    }

    ghost function Fx(): Fixtures
      reads this, suites, groups
    {
      Fixtures(Infos(suites.nodes), Infos(groups.nodes))
    }

    ghost function Now(): Dev
      reads this
    {
      Dev(steps, cur, currentFailed, currentSkipped)
    }

    constructor ()
      ensures Valid() && cases.nodes == [] && suites.nodes == [] && groups.nodes == []
      ensures Now() == Dev([], Ident(None, None, None), false, false)
      ensures fresh(cases) && fresh(suites) && fresh(groups)
    {
      cases := new List<CaseInfo>();
      suites := new List<SuiteInfo>();
      groups := new List<GroupInfo>();
      cur := Ident(None, None, None);
      currentFailed, currentSkipped := false, false;
      passed, failed, skipped := 0, 0, 0;
      steps := [];
    }

    method PotFailAt(file: CStr, line: int, message: CStr)
      modifies this`steps, this`currentFailed
      ensures Now() == Act(old(Now()), Fail(file, line, message))
    {
      currentFailed := true;
      var text := if message.None? then "fail" else message.value;
      steps := steps + [Say(Failure(cur, file, line, text))];
    }

    method PotIgnore(message: CStr)
      modifies this`steps, this`currentSkipped
      ensures Now() == Act(old(Now()), Ignore(message))
    {
      currentSkipped := true;
      if message.Some? && message.value != "" {
        steps := steps + [Say(Ignored(cur, message.value))];
      }
    }

    method PotAbort()
      modifies this`currentFailed
      ensures Now() == Act(old(Now()), Abort)
    {
      currentFailed := true;
    }

    /** Runs a callback when there is one: user code then calls back into the runner. */
    method Callback(w: World, role: Role, fn: Option<nat>)
      modifies this`steps, this`currentFailed, this`currentSkipped
      ensures Now() == Invoke(w, old(Now()), role, fn)
    {
      if fn.None? {
        return;
      }
      steps := steps + [Call(role, fn.value)];
      var actions := w(steps);
      ghost var entered := Now();
      assert actions[0..] == actions;
      for k := 0 to |actions|
        invariant cur == entered.cur
        invariant ActAll(Now(), actions[k..]) == ActAll(entered, actions)
      {
        match actions[k] {
          case Fail(file, line, message) => PotFailAt(file, line, message);
          case Ignore(message) => PotIgnore(message);
          case Abort => PotAbort();
        }
        assert actions[k..][1..] == actions[k + 1..];
      }
    }

    method FindSuite(name: CStr) returns (s: Option<SuiteInfo>)
      requires Valid()
      ensures s == RunnerModel.FindSuite(Fx().suites, name)
    {
      var t := suites.head;
      ghost var k, all := 0, Infos(suites.nodes);
      assert all[0..] == all;
      while t != null
        invariant 0 <= k <= |suites.nodes| && t == if k < |suites.nodes| then suites.nodes[k] else null
        invariant RunnerModel.FindSuite(all, name) == RunnerModel.FindSuite(all[k..], name)
        decreases |suites.nodes| - k
      {
        if StrCmp(t.info.name, name) == 0 {
          return Some(t.info);
        }
        assert all[k..][1..] == all[k + 1..];
        t := t.next;
        k := k + 1;
      }
      s := None;
    }

    method FindGroup(suite: CStr, group: CStr) returns (g: Option<GroupInfo>)
      requires Valid()
      ensures g == RunnerModel.FindGroup(Fx().groups, suite, group)
    {
      var t := groups.head;
      ghost var k, all := 0, Infos(groups.nodes);
      assert all[0..] == all;
      while t != null
        invariant 0 <= k <= |groups.nodes| && t == if k < |groups.nodes| then groups.nodes[k] else null
        invariant RunnerModel.FindGroup(all, suite, group) == RunnerModel.FindGroup(all[k..], suite, group)
        decreases |groups.nodes| - k
      {
        if StrCmp(t.info.suite, suite) == 0 && StrCmp(t.info.name, group) == 0 {
          return Some(t.info);
        }
        assert all[k..][1..] == all[k + 1..];
        t := t.next;
        k := k + 1;
      }
      g := None;
    }

    method CaseMatches(f: Filter, c: CaseInfo) returns (b: bool)
      requires Valid()
      ensures b == Matches(Fx(), f, c)
    {
      if f.ByTag? {
        var s := FindSuite(c.id.suite);
        var g := FindGroup(c.id.suite, c.id.group);
        return f.tag in c.tags || (s.Some? && f.tag in s.value.tags) || (g.Some? && f.tag in g.value.tags);
      }
      b := match f
           case All => true
           case BySuite(suite) => StrCmp(c.id.suite, suite) == 0
           case ByGroup(suite, group) => StrCmp(c.id.suite, suite) == 0 && StrCmp(c.id.group, group) == 0
           case ByCase(suite, group, name) =>
             StrCmp(c.id.suite, suite) == 0 && StrCmp(c.id.group, group) == 0 && StrCmp(c.id.name, name) == 0
           case _ => false;
    }

    method CloseSuite(w: World, open: CStr, counts: Counts)
      requires Valid()
      modifies this`steps, this`currentFailed, this`currentSkipped
      ensures Valid() && Now() == RunnerModel.CloseSuite(Fx(), w, old(Now()), open, counts)
    {
      if open.None? {
        return;
      }
      var s := FindSuite(open);
      Callback(w, SuiteTeardown, if s.None? then None else s.value.teardown);
      steps := steps + [Say(SuiteClose(open, counts))];
    }

    method OpenSuiteEmit(w: World, name: CStr)
      requires Valid()
      modifies this`steps, this`currentFailed, this`currentSkipped
      ensures Valid() && Now() == OpenSuite(Fx(), w, old(Now()), name)
    {
      var s := FindSuite(name);
      Callback(w, SuiteSetup, if s.None? then None else s.value.setup);
      steps := steps + [Say(SuiteOpen(name))];
    }

    /** The body of the loop for one matching case, up to its group teardown. */
    method RunCaseBody(w: World, c: CaseInfo)
      requires Valid()
      modifies this`steps, this`currentFailed, this`currentSkipped, this`cur
      ensures Valid() && Now() == RunBody(Fx(), w, old(Now()), c)
    {
      cur := c.id;
      currentFailed, currentSkipped := false, false;
      steps := steps + [Say(CaseOpen(c.id))];
      var g := FindGroup(c.id.suite, c.id.group);
      Callback(w, GroupSetup, if g.None? then None else g.value.setup);
      Callback(w, Body, c.fn);
      Callback(w, GroupTeardown, if g.None? then None else g.value.teardown);
    }

    /** Classifies the case that just ran and counts it for the run and for its suite. */
    method CountOutcome(id: Ident, suite: Counts) returns (suite': Counts)
      modifies this`steps, this`passed, this`failed, this`skipped
      ensures var outcome := Outcome(old(Now()));
              && Now() == Emit(old(Now()), CaseClose(id, outcome)) && suite' == Bump(suite, outcome)
              && Counts(passed, failed, skipped) == Bump(old(Counts(passed, failed, skipped)), outcome)
    {
      suite' := suite;
      if currentSkipped {
        skipped := skipped + 1;
        suite' := suite'.(skipped := suite'.skipped + 1);
        steps := steps + [Say(CaseClose(id, Skipped))];
      } else if currentFailed {
        failed := failed + 1;
        suite' := suite'.(failed := suite'.failed + 1);
        steps := steps + [Say(CaseClose(id, Failed))];
      } else {
        passed := passed + 1;
        suite' := suite'.(passed := suite'.passed + 1);
        steps := steps + [Say(CaseClose(id, Passed))];
      }
    }

    /** One matching case: switches suite if needed, runs it and counts its outcome. */
    method RunMatching(w: World, c: CaseInfo, open: CStr, suite: Counts) returns (open': CStr, suite': Counts)
      requires Valid()
      modifies this
      ensures Valid()
      ensures Run(Now(), open', suite', Counts(passed, failed, skipped)) ==
              RunOne(Fx(), w, old(Run(Now(), open, suite, Counts(passed, failed, skipped))), c)
    {
      open', suite' := open, suite;
      if StrCmp(open', c.id.suite) != 0 {
        CloseSuite(w, open', suite');
        open' := c.id.suite;
        suite' := ZERO;
        OpenSuiteEmit(w, open');
      }
      ghost var r := SwitchSuite(Fx(), w, old(Run(Now(), open, suite, Counts(passed, failed, skipped))), c.id.suite);
      assert Run(Now(), open', suite', Counts(passed, failed, skipped)) == r;
      RunCaseBody(w, c);
      suite' := CountOutcome(c.id, suite');
    }

    /** Walks the list and runs every case that matches. */
    method VisitCases(f: Filter, w: World) returns (open: CStr, suite: Counts)
      requires Valid()
      modifies this
      ensures Valid()
      ensures Run(Now(), open, suite, Counts(passed, failed, skipped)) ==
              RunCases(Fx(), w, old(Run(Now(), None, ZERO, Counts(passed, failed, skipped))),
                       Selected(Fx(), f, Infos(cases.nodes)))
    {
      open, suite := None, ZERO;
      ghost var fx, all := Fx(), Infos(cases.nodes);
      ghost var last := RunCases(fx, w, Run(Now(), open, suite, Counts(passed, failed, skipped)), Selected(fx, f, all));
      ghost var k := 0;
      var t := cases.head;
      assert all[0..] == all;
      while t != null
        invariant Valid()
        invariant 0 <= k <= |all| && t == if k < |all| then cases.nodes[k] else null
        invariant RunCases(fx, w, Run(Now(), open, suite, Counts(passed, failed, skipped)),
                           Selected(fx, f, all[k..])) == last
        decreases |all| - k
      {
        var c := t.info;
        assert all[k..][0] == c && all[k..][1..] == all[k + 1..];
        var matching := CaseMatches(f, c);
        t := t.next;
        k := k + 1;
        if !matching {
          continue;
        }
        open, suite := RunMatching(w, c, open, suite);
      }
    }

    /** Collects the section's cases, sorts the registry and resets the counters and the timeline. */
    method Prepare(section: seq<Node<CaseInfo>>)
      requires Valid()
      modifies this, cases, (set n | n in cases.nodes), set n | n in section
      ensures Valid() && Fx() == old(Fx())
      ensures cases.nodes == Sort(NodeId, Registered(old(cases.nodes), section))
      ensures Run(Now(), None, ZERO, Counts(passed, failed, skipped)) == StartRun(old(Now()))
    {
      CollectAndSort(NodeId, cases, section);
      Reset();
    }

    method Reset()
      modifies this`passed, this`failed, this`skipped, this`steps
      ensures Run(Now(), None, ZERO, Counts(passed, failed, skipped)) == StartRun(old(Now()))
    {
      passed, failed, skipped := 0, 0, 0;
      steps := [Say(Banner)];
    }

    method Finish(w: World, open: CStr, suite: Counts)
      requires Valid()
      modifies this`steps, this`currentFailed, this`currentSkipped
      ensures Valid() && Now() == FinishRun(Fx(), w, old(Run(Now(), open, suite, Counts(passed, failed, skipped))))
    {
      CloseSuite(w, open, suite);
      steps := steps + [Say(AllDone(Counts(passed, failed, skipped)))];
    }

    /** One run: sorts the registry, then visits every case and runs those that match. */
    method RunFiltered(f: Filter, w: World, section: seq<Node<CaseInfo>>) returns (exitCode: int)
      requires Valid()
      modifies this, cases, (set n | n in cases.nodes), set n | n in section
      ensures Valid() && cases.nodes == Sort(NodeId, Registered(old(cases.nodes), section))
      ensures var selected := Selected(Fx(), f, Infos(cases.nodes));
              && Now() == WholeRun(Fx(), w, old(Now()), selected)
              && Counts(passed, failed, skipped) == RunTotal(Fx(), w, old(Now()), selected)
      ensures Fx() == old(Fx())
      ensures L.Watched(steps).Finished? <==>
              forall c :: c in Selected(Fx(), f, Infos(cases.nodes)) ==> c.id.suite.Some?
      ensures L.Watched(steps).Finished? ==> L.Watched(steps) == L.Finished(Counts(passed, failed, skipped))
      ensures exitCode == if Wrap32(failed) != 0 then 1 else 0
    {
      NodesWellBracketed(Fx(), w, Now(), f, Registered(cases.nodes, section));
      Prepare(section);
      var open, suite := VisitCases(f, w);
      Finish(w, open, suite);
      exitCode := if Wrap32(failed) != 0 then 1 else 0;
    }
  }
}
