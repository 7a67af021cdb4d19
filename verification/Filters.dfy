/** Which cases a run executes and which ones discovery lists, under the same environment. */
module Filters {
  import opened Protocol
  import opened DeviceWire
  import opened CaseOrder
  import opened Sorting
  import opened RunnerModel

  datatype Filter =
    | All
    | ByTag(tag: Str)
    | BySuite(suite: CStr)
    | ByGroup(suite: CStr, group: CStr)
    | ByCase(suite: CStr, group: CStr, name: CStr)

  /** POT_TAG, POT_SUITE, POT_GROUP and POT_CASE; an empty variable counts as unset. */
  datatype Env = Env(tag: CStr, suite: CStr, group: CStr, name: CStr)

  predicate IsSet(v: CStr) {
    v.Some? && v.value != ""
  }

  /** A case's own tags, its suite's and its group's. */
  predicate MatchesTag(fx: Fixtures, c: CaseInfo, tag: Str) {
    var s, g := FindSuite(fx.suites, c.id.suite), FindGroup(fx.groups, c.id.suite, c.id.group);
    tag in c.tags || (s.Some? && tag in s.value.tags) || (g.Some? && tag in g.value.tags)
  }

  predicate Matches(fx: Fixtures, f: Filter, c: CaseInfo) {
    match f
    case All => true
    case ByTag(tag) => MatchesTag(fx, c, tag)
    case BySuite(suite) => StrCmp(c.id.suite, suite) == 0
    case ByGroup(suite, group) => StrCmp(c.id.suite, suite) == 0 && StrCmp(c.id.group, group) == 0
    case ByCase(suite, group, name) =>
      StrCmp(c.id.suite, suite) == 0 && StrCmp(c.id.group, group) == 0 && StrCmp(c.id.name, name) == 0
  }

  function Selected(fx: Fixtures, f: Filter, cases: seq<CaseInfo>): seq<CaseInfo> {
    Select(c => Matches(fx, f, c), cases)
  }

  /** The routing of an ordinary run: a full case wins, then the tag alone, then suite and group. */
  function FilterOf(env: Env): Filter {
    if IsSet(env.suite) && IsSet(env.group) && IsSet(env.name) then ByCase(env.suite, env.group, env.name)
    else if IsSet(env.tag) then ByTag(env.tag.value)
    else if IsSet(env.suite) && IsSet(env.group) then ByGroup(env.suite, env.group)
    else if IsSet(env.suite) then BySuite(env.suite)
    else All
  }

  /** The filter of discovery: every variable that is set must match; the case name is not looked at. */
  predicate Listed(fx: Fixtures, env: Env, c: CaseInfo) {
    && (IsSet(env.tag) ==> MatchesTag(fx, c, env.tag.value))
    && (IsSet(env.suite) ==> StrCmp(c.id.suite, env.suite) == 0)
    && (IsSet(env.group) ==> StrCmp(c.id.group, env.group) == 0)
  }

  function AllListed(fx: Fixtures, env: Env, cases: seq<CaseInfo>): seq<CaseInfo> {
    Select(c => Listed(fx, env, c), cases)
  }

  /** No filter, a tag alone, a suite alone, or a suite with a group. */
  predicate Plain(env: Env) {
    && !(IsSet(env.suite) && IsSet(env.group) && IsSet(env.name))
    && (IsSet(env.tag) ==> !IsSet(env.suite) && !IsSet(env.group))
    && (IsSet(env.group) ==> IsSet(env.suite))
  }

  /** A case that an ordinary run and discovery treat differently. */
  function Witness(env: Env): CaseInfo {
    if IsSet(env.suite) && IsSet(env.group) && IsSet(env.name) then
      CaseInfo(Ident(env.suite, env.group, None), None, if IsSet(env.tag) then [env.tag.value] else [])
    else
      CaseInfo(Ident(if IsSet(env.group) then env.suite else None, None, None), None,
               if IsSet(env.tag) then [env.tag.value] else [])
  }

  /** Discovery lists exactly what the same environment would run, for every registry, if and only if the
      filter is none, a tag alone, a suite alone or a suite with a group. */
  lemma DiscoveryMatchesRun(env: Env)
    ensures Plain(env) <==> forall fx, c :: Listed(fx, env, c) <==> Matches(fx, FilterOf(env), c)
  {
    if !Plain(env) {
      var fx, c := Fixtures([], []), Witness(env);
      StrCmpLaws(None, env.suite);
      StrCmpLaws(None, env.group);
      StrCmpLaws(None, env.name);
      StrCmpLaws(env.suite, env.suite);
      StrCmpLaws(env.group, env.group);
      assert Listed(fx, env, c) != Matches(fx, FilterOf(env), c);
    }
  }

  /** With distinct identifiers, an environment that names a case in full selects that case only. */
  lemma {:induction false} NamedCaseAlone(fx: Fixtures, cases: seq<CaseInfo>, k: nat)
    requires k < |cases| && forall i, j :: 0 <= i < j < |cases| ==> cases[i].id != cases[j].id
    ensures var id := cases[k].id;
            Selected(fx, ByCase(id.suite, id.group, id.name), cases) == [cases[k]]
  {
    var id := cases[k].id;
    var f := ByCase(id.suite, id.group, id.name);
    var p := c => Matches(fx, f, c);
    forall c ensures p(c) <==> c.id == id {
      StrCmpLaws(c.id.suite, id.suite);
      StrCmpLaws(c.id.group, id.group);
      StrCmpLaws(c.id.name, id.name);
    }
    if k == 0 {
      SelectNone(p, cases[1..]);
      assert [cases[0]] + [] == [cases[k]];
    } else {
      NamedCaseAlone(fx, cases[1..], k - 1);
    }
  }

  lemma {:induction false} SelectNone(p: CaseInfo -> bool, cases: seq<CaseInfo>)
    requires forall c :: c in cases ==> !p(c)
    ensures Select(p, cases) == []
  {
    if cases == [] {
    } else {
      SelectNone(p, cases[1..]);
    }
  }

  lemma {:induction false} SelectSame(p: CaseInfo -> bool, q: CaseInfo -> bool, cases: seq<CaseInfo>)
    requires forall c :: c in cases ==> p(c) == q(c)
    ensures Select(p, cases) == Select(q, cases)
  {
    if cases == [] {
    } else {
      SelectSame(p, q, cases[1..]);
    }
  }

  lemma {:induction false} SelectMembers(p: CaseInfo -> bool, cases: seq<CaseInfo>)
    ensures forall c :: c in Select(p, cases) <==> c in cases && p(c)
  {
    if cases == [] {
    } else {
      SelectMembers(p, cases[1..]);
    }
  }

  /** What is selected from a sorted registry is sorted. */
  lemma {:induction false} SelectSorted(p: CaseInfo -> bool, cases: seq<CaseInfo>)
    requires Sorted(CaseId, cases)
    ensures Sorted(CaseId, Select(p, cases))
  {
    if cases == [] {
    } else {
      var rest := Select(p, cases[1..]);
      SelectSorted(p, cases[1..]);
      SelectMembers(p, cases[1..]);
      forall y | y in rest ensures IdCmp(CaseId(cases[0]), CaseId(y)) <= 0 {
        assert y in cases[1..];
      }
      SortedCons(CaseId, cases[0], rest);
    }
  }

  lemma {:induction false} SelectDistinct(p: CaseInfo -> bool, cases: seq<CaseInfo>)
    requires DistinctIds(CaseId, cases)
    ensures DistinctIds(CaseId, Select(p, cases))
  {
    if cases == [] {
    } else {
      var rest := Select(p, cases[1..]);
      SelectDistinct(p, cases[1..]);
      SelectMembers(p, cases[1..]);
      forall i | 0 <= i < |rest| ensures CaseId(rest[i]) != CaseId(cases[0]) {
        assert rest[i] in cases[1..];
      }
    }
  }

  /** A case has a tag if and only if it is among its own tags, or among those of the first registered suite of its
      suite's name, or of the first registered group of its suite's and group's names. */
  lemma MatchesTagMeaning(fx: Fixtures, c: CaseInfo, tag: Str)
    ensures MatchesTag(fx, c, tag) <==>
            || tag in c.tags
            || (exists i :: IsSuite(fx.suites, c.id.suite, i) && tag in fx.suites[i].tags)
            || (exists i :: IsGroup(fx.groups, c.id.suite, c.id.group, i) && tag in fx.groups[i].tags)
  {
    FindSuiteMeaning(fx.suites, c.id.suite);
    FindGroupMeaning(fx.groups, c.id.suite, c.id.group);
  }

  /** What every other filter selects. */
  lemma MatchesMeaning(fx: Fixtures, f: Filter, c: CaseInfo)
    ensures f.All? ==> Matches(fx, f, c)
    ensures f.ByTag? ==> (Matches(fx, f, c) <==> MatchesTag(fx, c, f.tag))
    ensures f.BySuite? ==> (Matches(fx, f, c) <==> c.id.suite == f.suite)
    ensures f.ByGroup? ==> (Matches(fx, f, c) <==> c.id.suite == f.suite && c.id.group == f.group)
    ensures f.ByCase? ==> (Matches(fx, f, c) <==> c.id == Ident(f.suite, f.group, f.name))
  {
    if f.BySuite? || f.ByGroup? || f.ByCase? {
      StrCmpLaws(c.id.suite, f.suite);
    }
    if f.ByGroup? || f.ByCase? {
      StrCmpLaws(c.id.group, f.group);
    }
    if f.ByCase? {
      StrCmpLaws(c.id.name, f.name);
    }
  }

  /** An empty variable is as good as none. */
  function Unset(v: CStr): CStr {
    if v == Some("") then None else v
  }

  /** What discovery lists under variables that are not empty. */
  lemma ListedMeaning(fx: Fixtures, env: Env, c: CaseInfo)
    ensures var given := Env(Unset(env.tag), Unset(env.suite), Unset(env.group), Unset(env.name));
            && FilterOf(env) == FilterOf(given)
            && (Listed(fx, env, c) <==>
                  && (given.tag.Some? ==> MatchesTag(fx, c, given.tag.value))
                  && (given.suite.Some? ==> c.id.suite == given.suite)
                  && (given.group.Some? ==> c.id.group == given.group))
  {
    StrCmpLaws(c.id.suite, env.suite);
    StrCmpLaws(c.id.group, env.group);
  }

  /** The routing, on variables that are set to something or not at all. */
  lemma FilterMeaning(tag: CStr, suite: CStr, group: CStr, name: CStr)
    requires tag != Some("") && suite != Some("") && group != Some("") && name != Some("")
    ensures var f := FilterOf(Env(tag, suite, group, name));
            && (suite.Some? && group.Some? && name.Some? ==> f == ByCase(suite, group, name))
            && ((suite.None? || group.None? || name.None?) && tag.Some? ==> f == ByTag(tag.value))
            && (name.None? && tag.None? && suite.Some? && group.Some? ==> f == ByGroup(suite, group))
            && (tag.None? && suite.Some? && group.None? ==> f == BySuite(suite))
            && (tag.None? && suite.None? ==> f == All)
  {
  }
}
