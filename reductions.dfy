/**
 * The numpy reductions the analysis relies on (np.sum, np.min, np.max),
 * stated over sequences, with the facts about them the other modules use.
 */
module Reductions {

  /** np.sum over a vector of integers. */
  function Sum(s: seq<int>): int
  {
    if |s| == 0 then 0 else s[0] + Sum(s[1..])
  }

  /** np.sum over a vector of reals. */
  function RealSum(s: seq<real>): real
  {
    if |s| == 0 then 0.0 else s[0] + RealSum(s[1..])
  }

  /** np.min: a lower bound of every element that is itself an element. */
  function Min(s: seq<real>): (m: real)
    requires |s| > 0
    ensures forall i :: 0 <= i < |s| ==> m <= s[i]
    ensures exists i :: 0 <= i < |s| && s[i] == m
  {
    if |s| == 1 then s[0]
    else
      var rest := Min(s[1..]);
      assert forall i :: 1 <= i < |s| ==> s[i] == s[1..][i - 1];
      if s[0] <= rest then s[0] else rest
  }

  /** np.max: an upper bound of every element that is itself an element. */
  function Max(s: seq<real>): (m: real)
    requires |s| > 0
    ensures forall i :: 0 <= i < |s| ==> s[i] <= m
    ensures exists i :: 0 <= i < |s| && s[i] == m
  {
    if |s| == 1 then s[0]
    else
      var rest := Max(s[1..]);
      assert forall i :: 1 <= i < |s| ==> s[i] == s[1..][i - 1];
      if s[0] >= rest then s[0] else rest
  }

  predicate NonNegative(s: seq<int>)
  {
    forall i :: 0 <= i < |s| ==> s[i] >= 0
  }

  /** Replacing one element changes the sum by the difference. */
  lemma {:induction false} SumUpdate(s: seq<int>, j: nat, v: int)
    requires j < |s|
    ensures Sum(s[j := v]) == Sum(s) - s[j] + v
  {
    if j == 0 {
      assert s[j := v][1..] == s[1..];
    } else {
      assert s[j := v][1..] == s[1..][j - 1 := v];
      SumUpdate(s[1..], j - 1, v);
    }
  }

  /** Every element of a non-negative vector lies between 0 and the sum. */
  lemma {:induction false} ElementAtMostSum(s: seq<int>, j: nat)
    requires NonNegative(s)
    requires j < |s|
    ensures 0 <= s[j] <= Sum(s)
  {
    SumNonNegative(s[1..]);
    if j > 0 {
      ElementAtMostSum(s[1..], j - 1);
    }
  }

  lemma {:induction false} SumNonNegative(s: seq<int>)
    requires NonNegative(s)
    ensures Sum(s) >= 0
  {
    if |s| > 0 {
      SumNonNegative(s[1..]);
    }
  }

  /** A non-negative vector sums to zero exactly when every element is zero. */
  lemma {:induction false} SumZeroIffAllZero(s: seq<int>)
    requires NonNegative(s)
    ensures Sum(s) == 0 <==> forall i :: 0 <= i < |s| ==> s[i] == 0
  {
    if Sum(s) == 0 {
      forall i | 0 <= i < |s|
        ensures s[i] == 0
      {
        ElementAtMostSum(s, i);
      }
    }
    if forall i :: 0 <= i < |s| ==> s[i] == 0 {
      AllZeroSum(s);
    }
  }

  lemma {:induction false} AllZeroSum(s: seq<int>)
    requires forall i :: 0 <= i < |s| ==> s[i] == 0
    ensures Sum(s) == 0
  {
    if |s| > 0 {
      AllZeroSum(s[1..]);
    }
  }

  /** Dividing every element by t and multiplying by k divides and multiplies the sum alike. */
  lemma {:induction false} SumScaled(s: seq<int>, r: seq<real>, t: real, k: real)
    requires t != 0.0
    requires |r| == |s|
    requires forall i :: 0 <= i < |s| ==> r[i] == s[i] as real / t * k
    ensures RealSum(r) == Sum(s) as real / t * k
  {
    if |s| > 0 {
      SumScaled(s[1..], r[1..], t, k);
      var a, b := s[0] as real, Sum(s[1..]) as real;
      assert (a + b) / t == a / t + b / t;
      assert (a / t + b / t) * k == a / t * k + b / t * k;
    }
  }

  /** The product of two positive reals is positive. */
  lemma ProductPositive(x: real, y: real)
    requires x > 0.0 && y > 0.0
    ensures x * y > 0.0
  {
  }
}
