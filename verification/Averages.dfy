// Sums and rounded means of windows of raw counts.
module Averages {
  import opened FixedWidth
  import opened MassMath

  function Sum(s: seq<i32>): int {
    if s == [] then 0 else Sum(s[..|s| - 1]) + s[|s| - 1]
  }

  ghost predicate Between(s: seq<i32>, low: int, high: int) {
    forall k :: 0 <= k < |s| ==> low <= s[k] <= high
  }

  lemma {:induction false} SumBetween(s: seq<i32>, low: int, high: int)
    requires Between(s, low, high)
    ensures |s| * low <= Sum(s) <= |s| * high
  {
    if s != [] {
      SumBetween(s[..|s| - 1], low, high);
      OneMoreTerm(|s|, low);
      OneMoreTerm(|s|, high);
    }
  }

  lemma OneMoreTerm(n: int, term: int)
    ensures n * term == (n - 1) * term + term
  {}

  // The sum of a window that moves by one.
  lemma {:induction false} SumWithoutFirst(s: seq<i32>)
    requires s != []
    ensures Sum(s[1..]) == Sum(s) - s[0]
  {
    if |s| > 1 {
      SumWithoutFirst(s[..|s| - 1]);
      assert s[1..][..|s| - 2] == s[..|s| - 1][1..];
    }
  }

  lemma {:induction false} SumAppend(a: seq<i32>, b: seq<i32>)
    ensures Sum(a + b) == Sum(a) + Sum(b)
  {
    if b == [] {
      assert a + b == a;
    } else {
      assert (a + b)[..|a + b| - 1] == a + b[..|b| - 1];
      SumAppend(a, b[..|b| - 1]);
    }
  }

  // An average lies within the bounds of what is averaged.
  lemma AverageBetween(s: seq<i32>, low: int, high: int)
    requires s != [] && Between(s, low, high)
    ensures low <= RoundHalfAway(Sum(s), |s|) <= high
  {
    SumBetween(s, low, high);
    RoundHalfAwayExact(low, |s|);
    RoundHalfAwayExact(high, |s|);
    RoundHalfAwayMonotone(|s| * low, Sum(s), |s|);
    RoundHalfAwayMonotone(Sum(s), |s| * high, |s|);
  }

  lemma SumFits(s: seq<i32>)
    requires |s| <= 32
    ensures FitsI64(Sum(s))
  {
    SumBetween(s, INT32_MIN, INT32_MAX);
  }
}
