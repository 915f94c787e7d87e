/**
 * The first-order Markov estimator and its lookup: sort the table by day,
 * list the states, count day-consecutive transitions, normalise each row,
 * and answer "what comes after this state?" with one row of the matrix.
 */
module Estimator {
  import opened Sums
  import opened LabelOrder
  import opened Observations
  import opened StateSpace
  import opened Counting
  import opened Normalisation

  /** What the estimator builds: `states`, `state_to_index` and `transition_matrix`. */
  datatype Model = Model(states: seq<string>, index: map<string, nat>, matrix: seq<seq<real>>)

  /**
   * The estimate made from a table already sorted by day: the table's own
   * state list, numbered, and a square matrix whose every row is a
   * probability distribution or all zeros.
   */
  function Estimate(rows: seq<Observation>): (m: Model)
    ensures m.states == States(rows)
    ensures WellFormed(m)
    ensures forall r :: 0 <= r < |m.matrix| ==> StochasticOrZero(m.matrix[r])
  {
    var states := States(rows);
    Model(states, IndexMap(states), Normalise(CountMatrix(rows, states)))
  }

  /** `index` numbers the states and the matrix is |states| x |states|. */
  predicate WellFormed(m: Model)
  {
    && Inverts(m.index, m.states)
    && |m.matrix| == |m.states|
    && forall r :: 0 <= r < |m.matrix| ==> |m.matrix[r]| == |m.states|
  }

  /**
   * Training: sort the rows by day, list the states, number them, run the
   * counting loop and normalise. The rows come back in the order used for
   * counting: ascending by day, with no promise about rows that share a day.
   */
  method Fit(data: seq<Observation>) returns (rows: seq<Observation>, m: Model)
    ensures DaySorted(rows) && multiset(rows) == multiset(data)
    ensures m == Estimate(rows)
    ensures m.states == States(data)
  {
    rows := SortByDay(data);
    StatesIgnoreRowOrder(rows, data);
    var states := States(rows);
    var index := IndexMap(states);
    StatesIndexRows(rows);
    var counts := CountTransitions(rows, |states|, index);
    var table := Contents(counts);
    CellsAreCountMatrix(rows, states, index, table);
    m := Model(states, index, Normalise(table));
  }

  /** Row r of the estimate is row r of the counts, normalised; its total is the state's outgoing count. */
  lemma EstimateRow(rows: seq<Observation>, r: nat)
    requires r < |States(rows)|
    ensures var states := States(rows);
      var counts := CountMatrix(rows, states)[r];
      && |Estimate(rows).matrix| == |states|
      && Estimate(rows).matrix[r] == NormaliseRow(counts)
      && Sum(counts) == Outgoing(rows, states[r])
      && |counts| == |states|
      && forall c :: 0 <= c < |states| ==> counts[c] == TransitionCount(rows, states[r], states[c])
  {
    var states := States(rows);
    RowTotalIsOutgoing(rows, states, Pairs(rows), states[r]);
    assert CountMatrix(rows, states)[r] == RowBefore(rows, states, Pairs(rows), states[r]);
  }

  /**
   * Each entry of the estimated matrix is the observed frequency of the
   * transition: transitions from states[r] to states[c] divided by all
   * counted transitions leaving states[r], or 0 when there are none.
   */
  lemma EstimateEntry(rows: seq<Observation>, r: nat, c: nat)
    requires r < |States(rows)| && c < |States(rows)|
    ensures var m := Estimate(rows);
      var from, to := m.states[r], m.states[c];
      && |m.matrix| == |m.states| && |m.matrix[r]| == |m.states|
      && (Outgoing(rows, from) == 0 ==> m.matrix[r][c] == 0.0)
      && (Outgoing(rows, from) > 0 ==>
            m.matrix[r][c] == TransitionCount(rows, from, to) as real / Outgoing(rows, from) as real)
  {
    EstimateRow(rows, r);
    var states := States(rows);
    var counts := CountMatrix(rows, states)[r];
    var p := Estimate(rows).matrix[r];
    assert p == NormaliseRow(counts);
    assert counts[c] == TransitionCount(rows, states[r], states[c]);
    if Sum(counts) > 0 {
      assert p[c] == counts[c] as real / Sum(counts) as real;
    } else {
      assert p[c] == 0.0;
    }
  }

  /**
   * Every row of the estimated matrix sums to exactly 1 or is all zeros, and
   * it is all zeros exactly when its state was never seen moving on to a
   * next day.
   */
  lemma EstimateRowsStochastic(rows: seq<Observation>)
    ensures WellFormed(Estimate(rows))
    ensures forall r :: 0 <= r < |Estimate(rows).matrix| ==>
      && StochasticOrZero(Estimate(rows).matrix[r])
      && (SumReal(Estimate(rows).matrix[r]) == 1.0 <==> Outgoing(rows, Estimate(rows).states[r]) > 0)
  {
    var states := States(rows);
    forall r | 0 <= r < |states|
      ensures SumReal(Estimate(rows).matrix[r]) == 1.0 <==> Outgoing(rows, states[r]) > 0
    {
      EstimateRow(rows, r);
    }
  }

  /** All counts together equal the number of adjacent rows on consecutive days. */
  lemma EstimateCountsConsecutivePairs(rows: seq<Observation>)
    ensures Total(CountMatrix(rows, States(rows))) == ConsecutivePairs(rows)
    ensures ConsecutivePairs(rows) <= Pairs(rows)
    ensures Covers(States(rows), rows)
  {
    StatesIndexRows(rows);
    TotalIsConsecutivePairs(rows, States(rows));
    ConsecutivePairsBound(rows);
  }

  /** With zero or one row the loop never runs: every probability is 0. */
  lemma FewRowsGiveZeroMatrix(rows: seq<Observation>)
    requires |rows| <= 1
    ensures var m := Estimate(rows);
      && |m.states| == |rows|
      && (|rows| == 1 ==> m.states == [rows[0].state])
      && forall r, c :: 0 <= r < |m.matrix| && 0 <= c < |m.matrix[r]| ==> m.matrix[r][c] == 0.0
  {
    var states := States(rows);
    if |rows| == 1 {
      assert Occurs(rows, rows[0].state);
      AscendingUnique(states, [rows[0].state]);
    }
    forall r | 0 <= r < |states| ensures Sum(CountMatrix(rows, states)[r]) == 0 {
      SumZeroIffAllZero(CountMatrix(rows, states)[r]);
    }
  }

  lemma DistinctDaysPermute(a: seq<Observation>, b: seq<Observation>)
    requires multiset(a) == multiset(b) && DistinctDays(a)
    ensures DistinctDays(b)
  {
    forall i, j | 0 <= i < j < |b| ensures b[i].day != b[j].day {
      SameDaySameRow(a, b, i, j);
      if b[i].day == b[j].day {
        RepeatedRowCount(b, i, j);
        CountTwoGivesPositions(a, b[i]);
      }
    }
  }

  lemma SameDaySameRow(a: seq<Observation>, b: seq<Observation>, i: nat, j: nat)
    requires multiset(a) == multiset(b) && DistinctDays(a)
    requires i < j < |b|
    ensures b[i].day == b[j].day ==> b[i] == b[j]
  {
    if b[i].day == b[j].day {
      assert b[i] in multiset(a) && b[j] in multiset(a);
      var p :| 0 <= p < |a| && a[p] == b[i];
      var q :| 0 <= q < |a| && a[q] == b[j];
    }
  }

  lemma RepeatedRowCount(s: seq<Observation>, i: nat, j: nat)
    requires i < j < |s| && s[i] == s[j]
    ensures multiset(s)[s[i]] >= 2
  {
    assert s == s[..j] + s[j..];
    assert s[i] in s[..j] && s[j] in s[j..];
    assert multiset(s) == multiset(s[..j]) + multiset(s[j..]);
  }

  lemma CountTwoGivesPositions(s: seq<Observation>, x: Observation)
    requires multiset(s)[x] >= 2
    ensures exists p, q :: 0 <= p < q < |s| && s[p] == x && s[q] == x
  {
    assert x in multiset(s);
    var p :| 0 <= p < |s| && s[p] == x;
    assert s == s[..p] + [x] + s[p + 1..];
    assert multiset(s) == multiset(s[..p]) + multiset{x} + multiset(s[p + 1..]);
    if x in s[..p] {
      var q :| 0 <= q < p && s[..p][q] == x;
      assert s[q] == x;
    } else {
      assert x in multiset(s[p + 1..]);
      var q :| 0 <= q < |s| - p - 1 && s[p + 1..][q] == x;
      assert s[p + 1 + q] == x;
    }
  }

  /**
   * When no two rows share a day, the estimate does not depend on how the
   * table was sorted: any two day-sorted orderings of the same rows give the
   * same model.
   */
  lemma EstimateDeterministic(data: seq<Observation>, rows1: seq<Observation>, rows2: seq<Observation>)
    requires DistinctDays(data)
    requires DaySorted(rows1) && multiset(rows1) == multiset(data)
    requires DaySorted(rows2) && multiset(rows2) == multiset(data)
    ensures rows1 == rows2 && Estimate(rows1) == Estimate(rows2)
  {
    DistinctDaysPermute(data, rows1);
    DaySortingUnique(rows1, rows2);
  }

  datatype QueryError = UnknownState(name: string)

  datatype Result<T> = Ok(value: T) | Err(error: QueryError)

  /**
   * The interactive lookup: reject a label that is not a state; otherwise
   * give the matrix row at the label's index, one probability per state in
   * state-list order.
   */
  function NextDay(m: Model, current: string): (r: Result<seq<real>>)
    requires WellFormed(m)
    ensures r.Err? <==> current !in m.states
    ensures r.Err? ==> r.error == UnknownState(current)
    ensures r.Ok? ==> |r.value| == |m.states|
    ensures forall k :: 0 <= k < |m.states| && m.states[k] == current ==> r == Ok(m.matrix[k])
  {
    if current !in m.states then Err(UnknownState(current))
    else Ok(m.matrix[m.index[current]])
  }

  /**
   * Querying an estimate: unknown exactly when no row carries the label;
   * otherwise a distribution over next-day states (summing to 1, or all 0
   * when the label was never followed by a consecutive day) whose entry for
   * each state is the observed frequency of that transition.
   */
  lemma NextDayOfEstimate(rows: seq<Observation>, current: string)
    ensures WellFormed(Estimate(rows))
    ensures NextDay(Estimate(rows), current).Err? <==> !Occurs(rows, current)
    ensures NextDay(Estimate(rows), current).Ok? ==>
      var p := NextDay(Estimate(rows), current).value;
      var states := Estimate(rows).states;
      && StochasticOrZero(p)
      && (SumReal(p) == 1.0 <==> Outgoing(rows, current) > 0)
      && forall c :: 0 <= c < |p| ==>
           if Outgoing(rows, current) == 0 then p[c] == 0.0
           else p[c] == TransitionCount(rows, current, states[c]) as real / Outgoing(rows, current) as real
  {
    EstimateRowsStochastic(rows);
    var m := Estimate(rows);
    if current in m.states {
      var r := m.index[current];
      forall c | 0 <= c < |m.states|
        ensures if Outgoing(rows, current) == 0 then m.matrix[r][c] == 0.0
          else m.matrix[r][c] == TransitionCount(rows, current, m.states[c]) as real / Outgoing(rows, current) as real
      {
        EstimateEntry(rows, r, c);
      }
    }
  }
}
