/** Facts that do not depend on the order of a sequence. */
module Permutations {

  function Map<T, U>(s: seq<T>, f: T -> U): seq<U> { seq(|s|, i requires 0 <= i < |s| => f(s[i])) }

  predicate Pairwise<T>(s: seq<T>, ok: (T, T) -> bool) { forall i, j :: 0 <= i < j < |s| ==> ok(s[i], s[j]) }

  /** A relation between different things, in either order. */
  ghost predicate Between<T(!new)>(ok: (T, T) -> bool) {
    (forall x :: !ok(x, x)) && forall x, y :: ok(x, y) ==> ok(y, x)
  }

  lemma Without<T>(a: seq<T>, b: seq<T>, j: nat)
    requires multiset(a) == multiset(b) && a != [] && j < |b| && b[j] == a[0]
    ensures b == b[..j] + [b[j]] + b[j + 1..] && multiset(a[1..]) == multiset(b[..j] + b[j + 1..])
  {
    var x, l, r := b[j], b[..j], b[j + 1..];
    assert a == [x] + a[1..] && b == l + [x] + r;
    assert multiset(a) == multiset{x} + multiset(a[1..]);
    assert multiset(l + [x] + r) == multiset(l) + multiset{x} + multiset(r);
    assert multiset(l + r) == multiset(l) + multiset(r);
    assert multiset(a[1..]) == multiset(a) - multiset{x};
    assert multiset(l + r) == multiset(b) - multiset{x};
  }

  lemma {:induction false} MapPermuted<T, U>(a: seq<T>, b: seq<T>, f: T -> U)
    requires multiset(a) == multiset(b)
    ensures multiset(Map(a, f)) == multiset(Map(b, f))
  {
    SameSize(a, b);
    if a != [] {
      assert a[0] in multiset(a);
      assert a[0] in multiset(b);
      var j :| 0 <= j < |b| && b[j] == a[0];
      Without(a, b, j);
      MapPermuted(a[1..], b[..j] + b[j + 1..], f);
      assert Map(a, f) == [f(a[0])] + Map(a[1..], f);
      assert Map(b[..j] + b[j + 1..], f) == Map(b[..j], f) + Map(b[j + 1..], f);
      assert Map(b, f) == Map(b[..j], f) + [f(b[j])] + Map(b[j + 1..], f);
    }
  }

  lemma SameSize<T>(a: seq<T>, b: seq<T>)
    requires multiset(a) == multiset(b)
    ensures |a| == |b|
  {
    assert |multiset(a)| == |a| && |multiset(b)| == |b|;
  }

  lemma SameMember<T>(a: seq<T>, b: seq<T>, i: nat)
    requires multiset(a) == multiset(b) && i < |a|
    ensures exists j :: 0 <= j < |b| && b[j] == a[i]
  {
    assert a[i] in multiset(a);
    assert a[i] in multiset(b);
  }

  lemma Twice<T>(b: seq<T>, i: nat, j: nat)
    requires i < j < |b| && b[i] == b[j]
    ensures multiset(b)[b[i]] >= 2
  {
    assert b == b[..j] + b[j..];
    assert b[..j][i] in multiset(b[..j]);
    assert b[j..][0] in multiset(b[j..]);
  }

  lemma {:induction false} Once<T(!new)>(a: seq<T>, ok: (T, T) -> bool, x: T)
    requires Pairwise(a, ok) && !ok(x, x)
    ensures multiset(a)[x] <= 1
  {
    if a != [] {
      assert a == [a[0]] + a[1..];
      Once(a[1..], ok, x);
      if a[0] == x {
        forall j | 0 <= j < |a[1..]| ensures a[1..][j] != x {
          assert ok(a[0], a[j + 1]);
        }
        assert x !in a[1..];
      }
    }
  }

  /** What holds between the items of a list holds in any order. */
  lemma PairwisePermuted<T(!new)>(a: seq<T>, b: seq<T>, ok: (T, T) -> bool)
    requires multiset(a) == multiset(b) && Between(ok) && Pairwise(a, ok)
    ensures Pairwise(b, ok)
  {
    forall i, j | 0 <= i < j < |b| ensures ok(b[i], b[j]) {
      SameMember(b, a, i);
      SameMember(b, a, j);
      var p :| 0 <= p < |a| && a[p] == b[i];
      var q :| 0 <= q < |a| && a[q] == b[j];
      Once(a, ok, b[i]);
      if b[i] == b[j] {
        Twice(b, i, j);
      }
      assert p < q ==> ok(a[p], a[q]);
      assert q < p ==> ok(a[q], a[p]);
    }
  }
}
