/** Sums of a natural-number weight over a sequence; the protocols use them for reader counts,
    wait groups and termination measures. */
module Counting {

  function Sum<T>(s: seq<T>, weight: T -> nat): nat {
    if |s| == 0 then 0 else Sum(s[..|s| - 1], weight) + weight(s[|s| - 1])
  }

  lemma SumAppend<T>(s: seq<T>, x: T, weight: T -> nat)
    ensures Sum(s + [x], weight) == Sum(s, weight) + weight(x)
  {
    assert (s + [x])[..|s|] == s;
  }

  lemma {:induction false} SumUpdate<T>(s: seq<T>, i: nat, x: T, weight: T -> nat)
    requires i < |s|
    ensures Sum(s[i := x], weight) + weight(s[i]) == Sum(s, weight) + weight(x)
  {
    var last := |s| - 1;
    if i == last {
      assert s[i := x][..last] == s[..last];
    } else {
      SumUpdate(s[..last], i, x, weight);
      assert s[i := x][..last] == s[..last][i := x];
    }
  }

  lemma {:induction false} SumZero<T>(s: seq<T>, weight: T -> nat)
    ensures Sum(s, weight) == 0 <==> forall i :: 0 <= i < |s| ==> weight(s[i]) == 0
  {
    if |s| > 0 {
      var last := |s| - 1;
      SumZero(s[..last], weight);
      if forall i :: 0 <= i < last ==> weight(s[..last][i]) == 0 {
        assert forall i :: 0 <= i < last ==> weight(s[i]) == 0 by {
          assert forall i :: 0 <= i < last ==> s[..last][i] == s[i];
        }
      } else {
        var i :| 0 <= i < last && weight(s[..last][i]) != 0;
        assert weight(s[i]) != 0;
      }
    }
  }

  /** Every single weight is bounded by the sum. */
  lemma {:induction false} SumBounds<T>(s: seq<T>, i: nat, weight: T -> nat)
    requires i < |s|
    ensures weight(s[i]) <= Sum(s, weight)
  {
    var last := |s| - 1;
    if i < last {
      SumBounds(s[..last], i, weight);
    }
  }

  /** Replacing every element of weight 0 by one of weight w adds w for each element. */
  lemma {:induction false} SumConstant<T>(s: seq<T>, weight: T -> nat, w: nat)
    requires forall i :: 0 <= i < |s| ==> weight(s[i]) == w
    ensures Sum(s, weight) == w * |s|
  {
    if |s| > 0 {
      SumConstant(s[..|s| - 1], weight, w);
    }
  }

  lemma {:induction false} SumMonotone<T>(s: seq<T>, low: T -> nat, high: T -> nat)
    requires forall i :: 0 <= i < |s| ==> low(s[i]) <= high(s[i])
    ensures Sum(s, low) <= Sum(s, high)
  {
    if |s| > 0 {
      SumMonotone(s[..|s| - 1], low, high);
    }
  }
}
