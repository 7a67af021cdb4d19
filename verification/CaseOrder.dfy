/** The order the runner sorts by: (suite, group, name), each by unsigned bytes, NULL first. */
module CaseOrder {
  import opened Protocol
  import opened DeviceWire

  datatype Ident = Ident(suite: CStr, group: CStr, name: CStr)

  /** The sign of strcmp: the first differing byte decides, and a proper prefix comes first. */
  function StrCompare(a: Str, b: Str): int {
    if a == [] then if b == [] then 0 else -1
    else if b == [] then 1
    else if a[0] != b[0] then a[0] as int - b[0] as int
    else StrCompare(a[1..], b[1..])
  }

  function StrCmp(a: CStr, b: CStr): int {
    if a.None? then if b.None? then 0 else -1
    else if b.None? then 1
    else StrCompare(a.value, b.value)
  }

  function IdCmp(a: Ident, b: Ident): int {
    if StrCmp(a.suite, b.suite) != 0 then StrCmp(a.suite, b.suite)
    else if StrCmp(a.group, b.group) != 0 then StrCmp(a.group, b.group)
    else StrCmp(a.name, b.name)
  }

  lemma {:induction false} StrCompareLaws(a: Str, b: Str)
    ensures StrCompare(a, b) == 0 <==> a == b
    ensures StrCompare(a, b) < 0 <==> StrCompare(b, a) > 0
    ensures StrCompare(a, b) > 0 <==> StrCompare(b, a) < 0
  {
    if a == [] || b == [] {
    } else {
      StrCompareLaws(a[1..], b[1..]);
      assert a == [a[0]] + a[1..] && b == [b[0]] + b[1..];
    }
  }

  lemma {:induction false} StrCompareTransitive(a: Str, b: Str, c: Str)
    requires StrCompare(a, b) <= 0 && StrCompare(b, c) <= 0
    ensures StrCompare(a, c) <= 0
    ensures StrCompare(a, b) < 0 || StrCompare(b, c) < 0 ==> StrCompare(a, c) < 0
  {
    if a == [] || b == [] || c == [] || a[0] != b[0] || b[0] != c[0] {
    } else {
      StrCompareTransitive(a[1..], b[1..], c[1..]);
    }
  }

  lemma StrCmpLaws(a: CStr, b: CStr)
    ensures StrCmp(a, b) == 0 <==> a == b
    ensures StrCmp(a, b) < 0 <==> StrCmp(b, a) > 0
    ensures StrCmp(a, b) > 0 <==> StrCmp(b, a) < 0
  {
    if a.Some? && b.Some? {
      StrCompareLaws(a.value, b.value);
    }
  }

  lemma StrCmpTransitive(a: CStr, b: CStr, c: CStr)
    requires StrCmp(a, b) <= 0 && StrCmp(b, c) <= 0
    ensures StrCmp(a, c) <= 0
    ensures StrCmp(a, b) < 0 || StrCmp(b, c) < 0 ==> StrCmp(a, c) < 0
  {
    if a.Some? && b.Some? && c.Some? {
      StrCompareTransitive(a.value, b.value, c.value);
    }
  }

  /** The comparator is a total order whose ties are exactly equal identifiers. */
  lemma IdCmpLaws(a: Ident, b: Ident)
    ensures IdCmp(a, b) == 0 <==> a == b
    ensures IdCmp(a, b) < 0 <==> IdCmp(b, a) > 0
    ensures IdCmp(a, b) > 0 <==> IdCmp(b, a) < 0
  {
    StrCmpLaws(a.suite, b.suite);
    StrCmpLaws(a.group, b.group);
    StrCmpLaws(a.name, b.name);
  }

  lemma IdCmpTransitive(a: Ident, b: Ident, c: Ident)
    requires IdCmp(a, b) <= 0 && IdCmp(b, c) <= 0
    ensures IdCmp(a, c) <= 0
    ensures IdCmp(a, b) < 0 || IdCmp(b, c) < 0 ==> IdCmp(a, c) < 0
  {
    StrCmpLaws(a.suite, b.suite);
    StrCmpLaws(b.suite, c.suite);
    StrCmpLaws(a.suite, c.suite);
    StrCmpLaws(a.group, b.group);
    StrCmpLaws(b.group, c.group);
    StrCmpLaws(a.group, c.group);
    StrCmpTransitive(a.suite, b.suite, c.suite);
    if a.suite == b.suite == c.suite {
      StrCmpTransitive(a.group, b.group, c.group);
      if a.group == b.group == c.group {
        StrCmpTransitive(a.name, b.name, c.name);
      }
    }
  }

  /** Dictionary order by byte: a proper prefix comes first, else the first differing byte decides. */
  ghost predicate Precedes(a: Str, b: Str) {
    (a != b && a <= b) || exists i :: 0 <= i < |a| && i < |b| && a[..i] == b[..i] && a[i] < b[i]
  }

  lemma PrecedesBehind(a: Str, b: Str)
    requires a != [] && b != [] && a[0] == b[0]
    ensures Precedes(a, b) <==> Precedes(a[1..], b[1..])
  {
    assert a == [a[0]] + a[1..] && b == [b[0]] + b[1..];
    if i :| 0 <= i < |a| && i < |b| && a[..i] == b[..i] && a[i] < b[i] {
      assert a[..i][1..] == a[1..][..i - 1] && b[..i][1..] == b[1..][..i - 1];
      assert a[1..][i - 1] < b[1..][i - 1];
    }
    if i :| 0 <= i < |a[1..]| && i < |b[1..]| && a[1..][..i] == b[1..][..i] && a[1..][i] < b[1..][i] {
      assert a[..i + 1] == [a[0]] + a[1..][..i] && b[..i + 1] == [b[0]] + b[1..][..i];
      assert a[i + 1] < b[i + 1];
    }
  }

  /** The comparator's sign is the dictionary order. */
  lemma {:induction false} StrCompareMeaning(a: Str, b: Str)
    ensures StrCompare(a, b) < 0 <==> Precedes(a, b)
  {
    if a == [] || b == [] {
    } else if a[0] != b[0] {
      assert a[..0] == b[..0];
    } else {
      PrecedesBehind(a, b);
      StrCompareMeaning(a[1..], b[1..]);
    }
  }

  /** The same with NULL before every string. */
  ghost predicate NullFirst(a: CStr, b: CStr) {
    b.Some? && (a.None? || Precedes(a.value, b.value))
  }

  lemma StrCmpMeaning(a: CStr, b: CStr)
    ensures StrCmp(a, b) < 0 <==> NullFirst(a, b)
  {
    if a.Some? && b.Some? {
      StrCompareMeaning(a.value, b.value);
    }
  }

  /** By suite, then by group, then by name. */
  ghost predicate Before(a: Ident, b: Ident) {
    || NullFirst(a.suite, b.suite)
    || (a.suite == b.suite && NullFirst(a.group, b.group))
    || (a.suite == b.suite && a.group == b.group && NullFirst(a.name, b.name))
  }

  /** A case comes first if and only if the first of suite, group and name that differs does. */
  lemma IdCmpMeaning(a: Ident, b: Ident)
    ensures IdCmp(a, b) < 0 <==> Before(a, b)
  {
    StrCmpMeaning(a.suite, b.suite);
    StrCmpMeaning(a.group, b.group);
    StrCmpMeaning(a.name, b.name);
    StrCmpLaws(a.suite, b.suite);
    StrCmpLaws(a.group, b.group);
    if a.suite == b.suite {
      StrCompareIrreflexive(a.suite);
    }
    if a.group == b.group {
      StrCompareIrreflexive(a.group);
    }
  }

  lemma StrCompareIrreflexive(a: CStr)
    ensures !NullFirst(a, a)
  {
    StrCmpMeaning(a, a);
    StrCmpLaws(a, a);
  }
}
