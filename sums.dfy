/** Totals of rows of counts and of rows of probabilities (`ndarray.sum`). */
module Sums {

  function Sum(xs: seq<nat>): nat
  {
    if |xs| == 0 then 0 else xs[0] + Sum(xs[1..])
  }

  function SumReal(xs: seq<real>): real
  {
    if |xs| == 0 then 0.0 else xs[0] + SumReal(xs[1..])
  }

  /** Adding one to a single entry, and changing nothing else, adds one to the total. */
  lemma {:induction false} SumBump(xs: seq<nat>, ys: seq<nat>, j: nat)
    requires |xs| == |ys| && j < |xs|
    requires ys[j] == xs[j] + 1
    requires forall k :: 0 <= k < |xs| && k != j ==> ys[k] == xs[k]
    ensures Sum(ys) == Sum(xs) + 1
  {
    if j == 0 {
      assert xs[1..] == ys[1..];
    } else {
      SumBump(xs[1..], ys[1..], j - 1);
    }
  }

  /** No entry exceeds the total. */
  lemma {:induction false} EntryAtMostSum(xs: seq<nat>, j: nat)
    requires j < |xs|
    ensures xs[j] <= Sum(xs)
  {
    if j > 0 {
      EntryAtMostSum(xs[1..], j - 1);
    }
  }

  /** A total is zero exactly when every entry is zero. */
  lemma {:induction false} SumZeroIffAllZero(xs: seq<nat>)
    ensures Sum(xs) == 0 <==> forall j :: 0 <= j < |xs| ==> xs[j] == 0
  {
    if |xs| > 0 {
      SumZeroIffAllZero(xs[1..]);
      if Sum(xs) == 0 {
        forall j | 0 <= j < |xs| ensures xs[j] == 0 {
          EntryAtMostSum(xs, j);
        }
      }
      if forall j :: 0 <= j < |xs| ==> xs[j] == 0 {
        assert forall j :: 0 <= j < |xs| - 1 ==> xs[1..][j] == xs[j + 1];
      }
    }
  }
}
