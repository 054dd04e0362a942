/** Sorted listings: sort.Slice and sorted on distinct keys, and what makes their result unique. */
module Sorting {

  /** A strict order, as the comparison passed to a sort. */
  ghost predicate Order<T(!new)>(before: (T, T) -> bool) {
    && (forall x, y :: before(x, y) ==> !before(y, x))
    && (forall x, y, z :: before(x, y) && before(y, z) ==> before(x, z))
  }

  function InsertBy<T>(x: T, s: seq<T>, before: (T, T) -> bool): seq<T> {
    if s == [] || !before(s[0], x) then [x] + s else [s[0]] + InsertBy(x, s[1..], before)
  }

  function SortBy<T>(s: seq<T>, before: (T, T) -> bool): seq<T> {
    if s == [] then [] else InsertBy(s[0], SortBy(s[1..], before), before)
  }

  predicate Differ<T>(x: T, y: T, before: (T, T) -> bool) { before(x, y) || before(y, x) }

  predicate DistinctBy<T>(s: seq<T>, before: (T, T) -> bool) {
    forall i, j :: 0 <= i < j < |s| ==> Differ(s[i], s[j], before)
  }

  predicate AscendingBy<T>(s: seq<T>, before: (T, T) -> bool) {
    forall i, j :: 0 <= i < j < |s| ==> before(s[i], s[j])
  }

  lemma MultisetMember<T>(a: seq<T>, x: T, s: seq<T>, i: nat)
    requires multiset(a) == multiset{x} + multiset(s) && i < |a| && a[i] != x
    ensures exists j :: 0 <= j < |s| && s[j] == a[i]
  {
    assert a[i] in multiset(a);
    assert a[i] in multiset(s);
  }

  lemma AscendingCons<T>(x: T, s: seq<T>, before: (T, T) -> bool)
    requires AscendingBy(s, before) && forall i :: 0 <= i < |s| ==> before(x, s[i])
    ensures AscendingBy([x] + s, before)
  {
  }

  lemma {:induction false} InsertByKeeps<T(!new)>(x: T, s: seq<T>, before: (T, T) -> bool)
    requires Order(before) && AscendingBy(s, before) && forall i :: 0 <= i < |s| ==> Differ(s[i], x, before)
    ensures AscendingBy(InsertBy(x, s, before), before)
    ensures multiset(InsertBy(x, s, before)) == multiset{x} + multiset(s)
  {
    hide AscendingBy;
    if s == [] {
      AscendingOne(x, before);
      assert [x] + s == [x];
    } else if before(s[0], x) {
      TailOf(s, before);
      InsertByKeeps(x, s[1..], before);
      FirstStays(x, s, InsertBy(x, s[1..], before), before);
      AscendingCons(s[0], InsertBy(x, s[1..], before), before);
    } else {
      NewFirst(x, s, before);
      AscendingCons(x, s, before);
    }
  }

  lemma AscendingOne<T>(x: T, before: (T, T) -> bool)
    ensures AscendingBy([x], before)
  {
  }

  lemma NewFirst<T(!new)>(x: T, s: seq<T>, before: (T, T) -> bool)
    requires Order(before) && AscendingBy(s, before) && s != [] && before(x, s[0])
    ensures forall i :: 0 <= i < |s| ==> before(x, s[i])
  {
    forall i | 0 <= i < |s| ensures before(x, s[i]) {
      if i > 0 {
        assert before(s[0], s[i]);
      }
    }
  }

  lemma FirstStays<T>(x: T, s: seq<T>, rest: seq<T>, before: (T, T) -> bool)
    requires AscendingBy(s, before) && s != [] && before(s[0], x) && multiset(rest) == multiset{x} + multiset(s[1..])
    ensures forall i :: 0 <= i < |rest| ==> before(s[0], rest[i])
  {
    forall i | 0 <= i < |rest| ensures before(s[0], rest[i]) {
      if rest[i] != x {
        MultisetMember(rest, x, s[1..], i);
        var j :| 0 <= j < |s[1..]| && s[1..][j] == rest[i];
        assert s[j + 1] == rest[i];
      }
    }
  }

  lemma SameElements<T>(a: seq<T>, b: seq<T>)
    requires multiset(a) == multiset(b)
    ensures forall x :: x in a <==> x in b
  {
    forall x ensures x in a <==> x in b {
      assert x in a <==> x in multiset(a);
      assert x in b <==> x in multiset(b);
    }
  }

  /** Sorting elements of which any two differ gives an ascending list of the same elements. */
  lemma {:induction false} SortByKeeps<T(!new)>(s: seq<T>, before: (T, T) -> bool)
    requires Order(before) && DistinctBy(s, before)
    ensures AscendingBy(SortBy(s, before), before) && multiset(SortBy(s, before)) == multiset(s)
    ensures forall x :: x in SortBy(s, before) <==> x in s
  {
    hide Order, AscendingBy;
    if s == [] {
      AscendingEmpty<T>(before);
    } else {
      var rest := SortBy(s[1..], before);
      SortByKeeps(s[1..], before);
      forall i | 0 <= i < |rest| ensures Differ(rest[i], s[0], before) {
        assert rest[i] in multiset(rest);
        assert rest[i] in multiset(s[1..]);
        var j :| 0 <= j < |s[1..]| && s[1..][j] == rest[i];
        assert s[j + 1] == rest[i];
      }
      InsertByKeeps(s[0], rest, before);
      assert s == [s[0]] + s[1..];
    }
    SameElements(SortBy(s, before), s);
  }

  lemma AscendingEmpty<T>(before: (T, T) -> bool)
    ensures AscendingBy([], before)
  {
  }

  /** There is only one such list of the same elements. */
  lemma {:induction false} AscendingByUnique<T(!new)>(a: seq<T>, b: seq<T>, before: (T, T) -> bool)
    requires Order(before) && AscendingBy(a, before) && AscendingBy(b, before) && multiset(a) == multiset(b)
    ensures a == b
  {
    hide AscendingBy, Order;
    assert |multiset(a)| == |a| && |multiset(b)| == |b|;
    if a != [] {
      TailOf(a, before);
      TailOf(b, before);
      SameFirst(a, b, before);
      AscendingByUnique(a[1..], b[1..], before);
    }
  }

  lemma SameFirst<T(!new)>(a: seq<T>, b: seq<T>, before: (T, T) -> bool)
    requires Order(before) && AscendingBy(a, before) && AscendingBy(b, before) && multiset(a) == multiset(b)
    requires a != [] && b != []
    ensures a[0] == b[0]
  {
    hide AscendingBy;
    assert a[0] in multiset(a) && b[0] in multiset(b);
    FirstBy(a, before, b[0]);
    FirstBy(b, before, a[0]);
  }

  lemma TailOf<T>(a: seq<T>, before: (T, T) -> bool)
    requires AscendingBy(a, before) && a != []
    ensures AscendingBy(a[1..], before) && a == [a[0]] + a[1..] && multiset(a[1..]) == multiset(a) - multiset{a[0]}
    ensures forall i :: 0 <= i < |a[1..]| ==> a[1..][i] == a[i + 1]
  {
    assert a == [a[0]] + a[1..];
    forall i, j | 0 <= i < j < |a[1..]| ensures before(a[1..][i], a[1..][j]) {
      assert before(a[i + 1], a[j + 1]);
    }
  }

  lemma FirstBy<T>(a: seq<T>, before: (T, T) -> bool, x: T)
    requires AscendingBy(a, before) && a != [] && x in multiset(a)
    ensures x == a[0] || before(a[0], x)
  {
    var i :| 0 <= i < |a| && a[i] == x;
  }

  /** What is sorted already stays. */
  lemma SortedStays<T(!new)>(s: seq<T>, before: (T, T) -> bool)
    requires Order(before) && AscendingBy(s, before)
    ensures SortBy(s, before) == s
  {
    assert DistinctBy(s, before);
    SortByKeeps(s, before);
    AscendingByUnique(SortBy(s, before), s, before);
  }

  // Numbers

  predicate Less(x: int, y: int) { x < y }

  function Sort(s: seq<int>): seq<int> { SortBy(s, Less) }

  predicate Distinct(s: seq<int>) { forall i, j :: 0 <= i < j < |s| ==> s[i] != s[j] }

  predicate Ascending(s: seq<int>) { forall i, j :: 0 <= i < j < |s| ==> s[i] < s[j] }

  /** The strictly ascending list of the elements of a set. */
  ghost predicate ListOf(s: seq<int>, elements: set<int>) {
    Ascending(s) && forall x :: x in s <==> x in elements
  }

  lemma SortKeeps(s: seq<int>)
    requires Distinct(s)
    ensures Ascending(Sort(s)) && forall x :: x in Sort(s) <==> x in s
  {
    assert Order(Less) && DistinctBy(s, Less);
    SortByKeeps(s, Less);
    var sorted := Sort(s);
    forall i, j | 0 <= i < j < |sorted| ensures sorted[i] < sorted[j] {
      assert Less(sorted[i], sorted[j]);
    }
  }

  /** There is only one strictly ascending list with given elements. */
  lemma {:induction false} ListUnique(a: seq<int>, b: seq<int>)
    requires Ascending(a) && Ascending(b) && forall x :: x in a <==> x in b
    ensures a == b
  {
    assert a == [] || a[0] in a;
    assert b == [] || b[0] in b;
    if a != [] {
      assert a[0] == b[0];
      forall x ensures x in a[1..] <==> x in b[1..] {
        assert a == [a[0]] + a[1..] && b == [b[0]] + b[1..];
        assert x in a <==> x == a[0] || x in a[1..];
        assert x in b <==> x == b[0] || x in b[1..];
      }
      ListUnique(a[1..], b[1..]);
    }
  }
}
