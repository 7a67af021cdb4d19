/** Stable insertion sort over identified items, and what it guarantees. */
module Sorting {
  import opened Protocol
  import opened CaseOrder

  /** Puts `x` in front of the first item that is strictly greater. */
  function Insert<T>(id: T -> Ident, s: seq<T>, x: T): seq<T> {
    if s == [] then [x]
    else if IdCmp(id(x), id(s[0])) < 0 then [x] + s
    else [s[0]] + Insert(id, s[1..], x)
  }

  function InsertAll<T>(id: T -> Ident, sorted: seq<T>, rest: seq<T>): seq<T>
    decreases |rest|
  {
    if rest == [] then sorted else InsertAll(id, Insert(id, sorted, rest[0]), rest[1..])
  }

  function Sort<T>(id: T -> Ident, s: seq<T>): seq<T> {
    InsertAll(id, [], s)
  }

  ghost predicate Sorted<T>(id: T -> Ident, s: seq<T>) {
    forall i, j :: 0 <= i < j < |s| ==> IdCmp(id(s[i]), id(s[j])) <= 0
  }

  ghost function Own<T>(id: T -> Ident, x: T, k: Ident): seq<T> {
    if id(x) == k then [x] else []
  }

  /** The items that carry the identifier `k`, in their order. */
  ghost function WithId<T>(id: T -> Ident, s: seq<T>, k: Ident): seq<T> {
    if s == [] then []
    else Own(id, s[0], k) + WithId(id, s[1..], k)
  }

  lemma {:induction false} InsertContents<T>(id: T -> Ident, s: seq<T>, x: T)
    ensures multiset(Insert(id, s, x)) == multiset(s) + multiset{x}
  {
    if s == [] || IdCmp(id(x), id(s[0])) < 0 {
    } else {
      InsertContents(id, s[1..], x);
      assert s == [s[0]] + s[1..];
    }
  }

  lemma SortedCons<T>(id: T -> Ident, x: T, s: seq<T>)
    requires Sorted(id, s) && forall y :: y in s ==> IdCmp(id(x), id(y)) <= 0
    ensures Sorted(id, [x] + s)
  {
  }

  lemma {:induction false} InsertSorts<T>(id: T -> Ident, s: seq<T>, x: T)
    requires Sorted(id, s)
    ensures Sorted(id, Insert(id, s, x))
  {
    if s == [] {
    } else if IdCmp(id(x), id(s[0])) < 0 {
      forall y | y in s ensures IdCmp(id(x), id(y)) <= 0 {
        if y != s[0] {
          IdCmpTransitive(id(x), id(s[0]), id(y));
        }
      }
      SortedCons(id, x, s);
    } else {
      var tail := Insert(id, s[1..], x);
      InsertSorts(id, s[1..], x);
      InsertContents(id, s[1..], x);
      IdCmpLaws(id(x), id(s[0]));
      forall y | y in tail ensures IdCmp(id(s[0]), id(y)) <= 0 {
        assert y in multiset(tail);
        assert y in s[1..] || y == x;
      }
      SortedCons(id, s[0], tail);
    }
  }

  lemma {:induction false} WithIdNone<T>(id: T -> Ident, s: seq<T>, k: Ident)
    requires forall i :: 0 <= i < |s| ==> id(s[i]) != k
    ensures WithId(id, s, k) == []
  {
    if s == [] {
    } else {
      WithIdNone(id, s[1..], k);
    }
  }

  /** A new item goes behind the ones it ties with. */
  lemma {:induction false} InsertIsStable<T>(id: T -> Ident, s: seq<T>, x: T, k: Ident)
    requires Sorted(id, s)
    ensures WithId(id, Insert(id, s, x), k) == WithId(id, s, k) + Own(id, x, k)
  {
    if s == [] {
    } else if IdCmp(id(x), id(s[0])) < 0 {
      if id(x) == k {
        forall i | 0 <= i < |s| ensures id(s[i]) != k {
          IdCmpLaws(id(x), id(s[i]));
          if i > 0 {
            IdCmpTransitive(id(x), id(s[0]), id(s[i]));
          }
        }
        WithIdNone(id, s, k);
      }
      assert ([x] + s)[1..] == s;
    } else {
      InsertIsStable(id, s[1..], x, k);
    }
  }

  lemma {:induction false} InsertAllSorts<T>(id: T -> Ident, sorted: seq<T>, rest: seq<T>)
    requires Sorted(id, sorted)
    ensures Sorted(id, InsertAll(id, sorted, rest))
    ensures multiset(InsertAll(id, sorted, rest)) == multiset(sorted) + multiset(rest)
    decreases |rest|
  {
    if rest == [] {
    } else {
      InsertSorts(id, sorted, rest[0]);
      InsertContents(id, sorted, rest[0]);
      InsertAllSorts(id, Insert(id, sorted, rest[0]), rest[1..]);
      assert rest == [rest[0]] + rest[1..];
    }
  }

  lemma {:induction false} InsertAllIsStable<T>(id: T -> Ident, sorted: seq<T>, rest: seq<T>, k: Ident)
    requires Sorted(id, sorted)
    ensures WithId(id, InsertAll(id, sorted, rest), k) == WithId(id, sorted, k) + WithId(id, rest, k)
    decreases |rest|
  {
    if rest != [] {
      InsertSorts(id, sorted, rest[0]);
      InsertIsStable(id, sorted, rest[0], k);
      InsertAllIsStable(id, Insert(id, sorted, rest[0]), rest[1..], k);
      Associative(WithId(id, sorted, k), Own(id, rest[0], k), WithId(id, rest[1..], k));
    } else {
      EmptyIsNeutral(WithId(id, sorted, k));
    }
  }

  /** The sort orders, keeps exactly the same items, and keeps equal ones in their order. */
  lemma SortIsStableSort<T>(id: T -> Ident, s: seq<T>)
    ensures Sorted(id, Sort(id, s))
    ensures multiset(Sort(id, s)) == multiset(s) && |Sort(id, s)| == |s|
    ensures forall k :: WithId(id, Sort(id, s), k) == WithId(id, s, k)
    ensures forall x :: x in Sort(id, s) <==> x in s
  {
    InsertAllSorts(id, [], s);
    assert |multiset(s)| == |s| && |multiset(Sort(id, s))| == |Sort(id, s)|;
    forall k ensures WithId(id, Sort(id, s), k) == WithId(id, s, k) {
      InsertAllIsStable(id, [], s, k);
      assert WithId(id, [], k) + WithId(id, s, k) == WithId(id, s, k);
    }
    forall x ensures x in Sort(id, s) <==> x in s {
      assert x in Sort(id, s) <==> x in multiset(Sort(id, s));
    }
  }

  lemma {:induction false} InsertLast<T>(id: T -> Ident, s: seq<T>, x: T)
    requires forall i :: 0 <= i < |s| ==> IdCmp(id(s[i]), id(x)) <= 0
    ensures Insert(id, s, x) == s + [x]
  {
    if s == [] {
    } else {
      IdCmpLaws(id(x), id(s[0]));
      InsertLast(id, s[1..], x);
      assert [s[0]] + (s[1..] + [x]) == s + [x];
    }
  }

  lemma {:induction false} InsertAllSorted<T>(id: T -> Ident, sorted: seq<T>, rest: seq<T>)
    requires Sorted(id, sorted + rest)
    ensures InsertAll(id, sorted, rest) == sorted + rest
    decreases |rest|
  {
    if rest == [] {
      assert sorted + rest == sorted;
    } else {
      var all := sorted + rest;
      forall i | 0 <= i < |sorted| ensures IdCmp(id(sorted[i]), id(rest[0])) <= 0 {
        assert all[i] == sorted[i] && all[|sorted|] == rest[0];
      }
      InsertLast(id, sorted, rest[0]);
      assert sorted + [rest[0]] + rest[1..] == all;
      InsertAllSorted(id, sorted + [rest[0]], rest[1..]);
    }
  }

  /** Sorting again changes nothing, so a second run visits the cases in the same order. */
  lemma SortIsIdempotent<T>(id: T -> Ident, s: seq<T>)
    ensures Sort(id, Sort(id, s)) == Sort(id, s)
  {
    SortIsStableSort(id, s);
    assert [] + Sort(id, s) == Sort(id, s);
    InsertAllSorted(id, [], Sort(id, s));
  }

  ghost predicate DistinctIds<T>(id: T -> Ident, s: seq<T>) {
    forall i, j :: 0 <= i < j < |s| ==> id(s[i]) != id(s[j])
  }

  lemma {:induction false} SortedIsUnique<T>(id: T -> Ident, a: seq<T>, b: seq<T>)
    requires Sorted(id, a) && Sorted(id, b) && multiset(a) == multiset(b)
    requires forall x, y :: x in a && y in a && id(x) == id(y) ==> x == y
    ensures a == b
  {
    assert |multiset(a)| == |a| && |multiset(b)| == |b|;
    if a == [] {
    } else {
      SameHead(id, a, b);
      Tail(id, a);
      Tail(id, b);
      SortedIsUnique(id, a[1..], b[1..]);
    }
  }

  lemma Tail<T>(id: T -> Ident, s: seq<T>)
    requires Sorted(id, s) && s != []
    ensures Sorted(id, s[1..]) && multiset(s[1..]) == multiset(s) - multiset{s[0]}
    ensures s == [s[0]] + s[1..] && forall x :: x in s[1..] ==> x in s
  {
    assert s == [s[0]] + s[1..];
  }

  lemma SameHead<T>(id: T -> Ident, a: seq<T>, b: seq<T>)
    requires Sorted(id, a) && Sorted(id, b) && multiset(a) == multiset(b) && a != [] && b != []
    requires forall x, y :: x in a && y in a && id(x) == id(y) ==> x == y
    ensures a[0] == b[0]
  {
    assert a[0] in multiset(b) && b[0] in multiset(a);
    IdCmpLaws(id(a[0]), id(b[0]));
  }

  /** With distinct identifiers the order depends only on which items there are. */
  lemma OrderIgnoresRegistration<T>(id: T -> Ident, a: seq<T>, b: seq<T>)
    requires DistinctIds(id, a) && multiset(a) == multiset(b)
    ensures Sort(id, a) == Sort(id, b)
  {
    SortIsStableSort(id, a);
    SortIsStableSort(id, b);
    forall x, y | x in Sort(id, a) && y in Sort(id, a) && id(x) == id(y) ensures x == y {
      assert x in multiset(Sort(id, a)) && y in multiset(Sort(id, a));
      assert x in multiset(a) && y in multiset(a);
    }
    SortedIsUnique(id, Sort(id, a), Sort(id, b));
  }

  /** No item of the sorted sequence comes before an earlier one in dictionary order of suite, group and name. */
  lemma SortsByName<T>(id: T -> Ident, s: seq<T>)
    ensures var sorted := Sort(id, s);
            forall i, j :: 0 <= i < j < |sorted| ==> !Before(id(sorted[j]), id(sorted[i]))
  {
    var sorted := Sort(id, s);
    SortIsStableSort(id, s);
    forall i, j | 0 <= i < j < |sorted| ensures !Before(id(sorted[j]), id(sorted[i])) {
      IdCmpLaws(id(sorted[i]), id(sorted[j]));
      IdCmpMeaning(id(sorted[j]), id(sorted[i]));
    }
  }
}
