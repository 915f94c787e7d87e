/**
 * Row normalisation of the count matrix:
 * `np.divide(counts, row_sums, out=zeros, where=row_sums != 0)`,
 * on exact reals instead of floating point.
 */
module Normalisation {
  import opened Sums

  /** Each entry in [0, 1], and the entries add up to 1 or are all 0. */
  predicate StochasticOrZero(row: seq<real>)
  {
    && (forall j :: 0 <= j < |row| ==> 0.0 <= row[j] <= 1.0)
    && (SumReal(row) == 1.0 || forall j :: 0 <= j < |row| ==> row[j] == 0.0)
  }

  /** The row divided entry by entry by a positive total. */
  function Divide(row: seq<nat>, total: nat): seq<real>
    requires total > 0
  {
    seq(|row|, j requires 0 <= j < |row| => row[j] as real / total as real)
  }

  lemma {:induction false} DivideSum(row: seq<nat>, total: nat)
    requires total > 0
    ensures SumReal(Divide(row, total)) == Sum(row) as real / total as real
  {
    if |row| > 0 {
      DivideSum(row[1..], total);
      assert Divide(row, total)[1..] == Divide(row[1..], total);
      var t := total as real;
      calc {
        SumReal(Divide(row, total));
        row[0] as real / t + Sum(row[1..]) as real / t;
        { DivisionDistributes(row[0] as real, Sum(row[1..]) as real, t); }
        (row[0] as real + Sum(row[1..]) as real) / t;
      }
    }
  }

  lemma DivisionDistributes(x: real, y: real, t: real)
    requires t > 0.0
    ensures x / t + y / t == (x + y) / t
  {
  }

  lemma RatioAtMostOne(x: real, t: real)
    requires 0.0 <= x <= t && t > 0.0
    ensures 0.0 <= x / t <= 1.0
  {
    assert x / t * t == x;
  }

  /**
   * One row of the transition matrix: each count divided by the row's
   * total, or all zeros when the row has no counts at all.
   */
  function NormaliseRow(row: seq<nat>): (r: seq<real>)
    ensures |r| == |row|
    ensures StochasticOrZero(r)
    ensures SumReal(r) == 1.0 <==> Sum(row) > 0
    ensures Sum(row) > 0 ==> forall j :: 0 <= j < |row| ==> r[j] == row[j] as real / Sum(row) as real
    ensures Sum(row) == 0 ==> forall j :: 0 <= j < |row| ==> r[j] == 0.0
  {
    var total := Sum(row);
    if total == 0 then
      var r := seq(|row|, j => 0.0);
      ZeroRowSum(r);
      r
    else
      var r := Divide(row, total);
      DivideSum(row, total);
      assert total as real / total as real == 1.0;
      DividedInUnit(row, total);
      r
  }

  lemma DividedInUnit(row: seq<nat>, total: nat)
    requires total == Sum(row) && total > 0
    ensures forall j :: 0 <= j < |row| ==> 0.0 <= Divide(row, total)[j] <= 1.0
  {
    forall j | 0 <= j < |row| ensures 0.0 <= Divide(row, total)[j] <= 1.0 {
      EntryAtMostSum(row, j);
      RatioAtMostOne(row[j] as real, total as real);
    }
  }

  lemma {:induction false} ZeroRowSum(r: seq<real>)
    requires forall j :: 0 <= j < |r| ==> r[j] == 0.0
    ensures SumReal(r) == 0.0
  {
    if |r| > 0 {
      ZeroRowSum(r[1..]);
    }
  }

  /** The whole transition matrix, row by row. */
  function Normalise(counts: seq<seq<nat>>): (m: seq<seq<real>>)
    ensures |m| == |counts|
    ensures forall r :: 0 <= r < |m| ==> |m[r]| == |counts[r]| && StochasticOrZero(m[r])
  {
    seq(|counts|, r requires 0 <= r < |counts| => NormaliseRow(counts[r]))
  }
}
