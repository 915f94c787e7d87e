/**
 * Worked cases: small weather tables and the model estimated from them.
 */
module Scenarios {
  import opened Sums
  import opened LabelOrder
  import opened Observations
  import opened StateSpace
  import opened Counting
  import opened Normalisation
  import opened Estimator

  function FourDays(): seq<Observation>
  {
    [Observation(1, "sol"), Observation(2, "sol"), Observation(3, "lluvia"), Observation(4, "sol")]
  }

  lemma TwoStates(rows: seq<Observation>)
    requires forall x :: Occurs(rows, x) <==> x == "lluvia" || x == "sol"
    ensures States(rows) == ["lluvia", "sol"]
  {
    assert Less("lluvia", "sol");
    AscendingUnique(States(rows), ["lluvia", "sol"]);
  }

  /** A table of three adjacent pairs, counted pair by pair. */
  lemma ThreePairs(rows: seq<Observation>, a: string, b: string)
    requires |rows| == 4
    ensures TransitionCount(rows, a, b) ==
      (if IsTransition(rows, 0, a, b) then 1 else 0)
      + (if IsTransition(rows, 1, a, b) then 1 else 0)
      + (if IsTransition(rows, 2, a, b) then 1 else 0)
  {
    assert Pairs(rows) == 3;
    assert TransitionsBefore(rows, 1, a, b) == (if IsTransition(rows, 0, a, b) then 1 else 0);
    assert TransitionsBefore(rows, 2, a, b) == TransitionsBefore(rows, 1, a, b)
      + (if IsTransition(rows, 1, a, b) then 1 else 0);
  }

  lemma FourDaysCounts()
    ensures CountMatrix(FourDays(), ["lluvia", "sol"]) == [[0, 1], [1, 1]]
  {
    var rows := FourDays();
    ThreePairs(rows, "lluvia", "lluvia");
    ThreePairs(rows, "lluvia", "sol");
    ThreePairs(rows, "sol", "lluvia");
    ThreePairs(rows, "sol", "sol");
    var counts := CountMatrix(rows, ["lluvia", "sol"]);
    assert counts[0] == [0, 1];
    assert counts[1] == [1, 1];
  }

  lemma SmallRows()
    ensures NormaliseRow([0, 1]) == [0.0, 1.0]
    ensures NormaliseRow([1, 1]) == [0.5, 0.5]
    ensures NormaliseRow([0, 0]) == [0.0, 0.0]
  {
    assert Sum([0, 1]) == 1 && Sum([1, 1]) == 2 && Sum([0, 0]) == 0;
  }

  /**
   * sol, sol, lluvia, sol on days 1 to 4: the states are [lluvia, sol];
   * lluvia is always followed by sol, and sol by sol or lluvia half the time each.
   */
  lemma FourDaysExample()
    ensures Estimate(FourDays()).states == ["lluvia", "sol"]
    ensures Estimate(FourDays()).matrix == [[0.0, 1.0], [0.5, 0.5]]
  {
    var rows := FourDays();
    forall x ensures Occurs(rows, x) <==> x == "lluvia" || x == "sol" {
      assert rows[0].state == "sol" && rows[2].state == "lluvia";
    }
    TwoStates(rows);
    FourDaysCounts();
    SmallRows();
    var m := Normalise([[0, 1], [1, 1]]);
    assert m[0] == [0.0, 1.0] && m[1] == [0.5, 0.5];
  }

  function Gap(): seq<Observation>
  {
    [Observation(1, "sol"), Observation(3, "lluvia")]
  }

  lemma GapCounts()
    ensures CountMatrix(Gap(), ["lluvia", "sol"]) == [[0, 0], [0, 0]]
  {
    var rows := Gap();
    assert !Consecutive(rows, 0);
    var counts := CountMatrix(rows, ["lluvia", "sol"]);
    assert counts[0] == [0, 0] && counts[1] == [0, 0];
  }

  /** sol on day 1 and lluvia on day 3: the gap means nothing is counted. */
  lemma GapExample()
    ensures Estimate(Gap()).states == ["lluvia", "sol"]
    ensures Estimate(Gap()).matrix == [[0.0, 0.0], [0.0, 0.0]]
  {
    var rows := Gap();
    forall x ensures Occurs(rows, x) <==> x == "lluvia" || x == "sol" {
      assert rows[0].state == "sol" && rows[1].state == "lluvia";
    }
    TwoStates(rows);
    GapCounts();
    SmallRows();
    var m := Normalise([[0, 0], [0, 0]]);
    assert m[0] == [0.0, 0.0] && m[1] == [0.0, 0.0];
  }

  /** A single observation: one state and the 1 x 1 zero matrix. */
  lemma SingleObservationExample()
    ensures Estimate([Observation(1, "sol")]).states == ["sol"]
    ensures Estimate([Observation(1, "sol")]).matrix == [[0.0]]
  {
    var rows := [Observation(1, "sol")];
    FewRowsGiveZeroMatrix(rows);
    var m := Estimate(rows);
    assert |m.matrix| == 1 && |m.matrix[0]| == 1;
    assert m.matrix[0][0] == 0.0;
    assert m.matrix[0] == [0.0];
  }

  /** Asking about a state that never occurs is rejected. */
  lemma UnknownStateExample()
    ensures WellFormed(Estimate(FourDays()))
    ensures NextDay(Estimate(FourDays()), "nieve") == Err(UnknownState("nieve"))
  {
    FourDaysExample();
    EstimateRowsStochastic(FourDays());
  }
}
