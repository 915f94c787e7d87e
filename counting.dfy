/**
 * Counting transitions: the loop over adjacent rows of the day-sorted table
 * that adds one to `transition_counts[current, next]` whenever the second
 * row's day is exactly one after the first's.
 */
module Counting {
  import opened Sums
  import opened LabelOrder
  import opened Observations
  import opened StateSpace

  /** How many adjacent pairs the loop visits: `range(len(data) - 1)`, empty for an empty table. */
  function Pairs(rows: seq<Observation>): nat
  {
    if |rows| == 0 then 0 else |rows| - 1
  }

  /** Rows i and i+1 lie on consecutive days; only such pairs are counted. */
  predicate Consecutive(rows: seq<Observation>, i: nat)
    requires i + 1 < |rows|
  {
    rows[i + 1].day == rows[i].day + 1
  }

  /** Pair i is a counted transition from label a to label b. */
  predicate IsTransition(rows: seq<Observation>, i: nat, a: string, b: string)
    requires i + 1 < |rows|
  {
    Consecutive(rows, i) && rows[i].state == a && rows[i + 1].state == b
  }

  /** Counted a-to-b transitions among the first k pairs. */
  function TransitionsBefore(rows: seq<Observation>, k: nat, a: string, b: string): nat
    requires k <= Pairs(rows)
  {
    if k == 0 then 0
    else TransitionsBefore(rows, k - 1, a, b) + (if IsTransition(rows, k - 1, a, b) then 1 else 0)
  }

  /** Counted transitions leaving label a among the first k pairs. */
  function OutgoingBefore(rows: seq<Observation>, k: nat, a: string): nat
    requires k <= Pairs(rows)
  {
    if k == 0 then 0
    else OutgoingBefore(rows, k - 1, a) + (if Consecutive(rows, k - 1) && rows[k - 1].state == a then 1 else 0)
  }

  /** Pairs on consecutive days among the first k pairs. */
  function ConsecutiveBefore(rows: seq<Observation>, k: nat): nat
    requires k <= Pairs(rows)
  {
    if k == 0 then 0
    else ConsecutiveBefore(rows, k - 1) + (if Consecutive(rows, k - 1) then 1 else 0)
  }

  function TransitionCount(rows: seq<Observation>, a: string, b: string): nat
  {
    TransitionsBefore(rows, Pairs(rows), a, b)
  }

  function Outgoing(rows: seq<Observation>, a: string): nat
  {
    OutgoingBefore(rows, Pairs(rows), a)
  }

  function ConsecutivePairs(rows: seq<Observation>): nat
  {
    ConsecutiveBefore(rows, Pairs(rows))
  }

  /** Every label of the table has a place in the state list. */
  predicate Covers(states: seq<string>, rows: seq<Observation>)
  {
    forall i :: 0 <= i < |rows| ==> rows[i].state in states
  }

  /** Row of the count matrix for source label a, after the first k pairs. */
  function RowBefore(rows: seq<Observation>, states: seq<string>, k: nat, a: string): seq<nat>
    requires k <= Pairs(rows)
  {
    seq(|states|, c requires 0 <= c < |states| => TransitionsBefore(rows, k, a, states[c]))
  }

  /** The count matrix after the first k pairs, rows and columns in state-list order. */
  function CountsBefore(rows: seq<Observation>, states: seq<string>, k: nat): seq<seq<nat>>
    requires k <= Pairs(rows)
  {
    seq(|states|, r requires 0 <= r < |states| => RowBefore(rows, states, k, states[r]))
  }

  /** The finished count matrix. */
  function CountMatrix(rows: seq<Observation>, states: seq<string>): seq<seq<nat>>
  {
    CountsBefore(rows, states, Pairs(rows))
  }

  /** Sum of all entries of a matrix of counts. */
  function Total(m: seq<seq<nat>>): nat
  {
    Sum(seq(|m|, r requires 0 <= r < |m| => Sum(m[r])))
  }

  /** A two-dimensional array of counts read as a matrix. */
  function Contents(a: array2<nat>): (m: seq<seq<nat>>)
    reads a
    ensures |m| == a.Length0
    ensures forall r :: 0 <= r < a.Length0 ==> |m[r]| == a.Length1
    ensures forall r, c :: 0 <= r < a.Length0 && 0 <= c < a.Length1 ==> m[r][c] == a[r, c]
  {
    seq(a.Length0, r requires 0 <= r < a.Length0 reads a =>
      seq(a.Length1, c requires 0 <= c < a.Length1 reads a => a[r, c]))
  }

  /** Every label of the table has a cell number below n in `index`. */
  predicate Indexed(index: map<string, nat>, n: nat, rows: seq<Observation>)
  {
    forall i :: 0 <= i < |rows| ==> rows[i].state in index && index[rows[i].state] < n
  }

  /** Pair i is counted in cell (r, c) of the matrix numbered by `index`. */
  predicate CountedIn(rows: seq<Observation>, index: map<string, nat>, i: nat, r: nat, c: nat)
    requires i + 1 < |rows|
  {
    && Consecutive(rows, i)
    && rows[i].state in index && index[rows[i].state] == r
    && rows[i + 1].state in index && index[rows[i + 1].state] == c
  }

  /** What cell (r, c) holds after the first k iterations of the counting loop. */
  function CellBefore(rows: seq<Observation>, index: map<string, nat>, k: nat, r: nat, c: nat): nat
    requires k <= Pairs(rows)
  {
    if k == 0 then 0
    else CellBefore(rows, index, k - 1, r, c) + (if CountedIn(rows, index, k - 1, r, c) then 1 else 0)
  }

  /**
   * One iteration of the counting loop: when rows i and i+1 lie on
   * consecutive days, add one to the cell numbered by their two states;
   * otherwise, and in every other cell, nothing changes.
   */
  method RecordTransition(counts: array2<nat>, rows: seq<Observation>, i: nat, index: map<string, nat>)
    requires i + 1 < |rows|
    requires counts.Length0 == counts.Length1 && Indexed(index, counts.Length0, rows)
    modifies counts
    ensures forall r, c {:trigger counts[r, c]} :: 0 <= r < counts.Length0 && 0 <= c < counts.Length1 ==>
      counts[r, c] == old(counts[r, c]) + (if CountedIn(rows, index, i, r, c) then 1 else 0)
  {
    if rows[i + 1].day == rows[i].day + 1 {
      var current := index[rows[i].state];
      var next := index[rows[i + 1].state];
      counts[current, next] := counts[current, next] + 1;
    }
  }

  /**
   * The counting loop: an n x n matrix of zeros, then one call of
   * RecordTransition per adjacent pair of rows.
   */
  method CountTransitions(rows: seq<Observation>, n: nat, index: map<string, nat>)
    returns (counts: array2<nat>)
    requires Indexed(index, n, rows)
    ensures fresh(counts)
    ensures counts.Length0 == n && counts.Length1 == n
    ensures forall r, c {:trigger counts[r, c]} :: 0 <= r < n && 0 <= c < n ==>
      counts[r, c] == CellBefore(rows, index, Pairs(rows), r, c)
  {
    counts := new nat[n, n]((r, c) => 0);
    var i := 0;
    while i < Pairs(rows)
      invariant 0 <= i <= Pairs(rows)
      invariant counts.Length0 == n && counts.Length1 == n
      invariant forall r, c {:trigger counts[r, c]} :: 0 <= r < n && 0 <= c < n ==>
        counts[r, c] == CellBefore(rows, index, i, r, c)
    {
      RecordTransition(counts, rows, i, index);
      i := i + 1;
    }
  }

  /**
   * Numbering the states by `state_to_index`, cell (r, c) counts exactly the
   * day-consecutive pairs going from states[r] to states[c].
   */
  lemma {:induction false} CellIsTransitionCount(rows: seq<Observation>, states: seq<string>,
                                                 index: map<string, nat>, k: nat, r: nat, c: nat)
    requires Inverts(index, states) && r < |states| && c < |states|
    requires k <= Pairs(rows)
    ensures CellBefore(rows, index, k, r, c) == TransitionsBefore(rows, k, states[r], states[c])
  {
    if k > 0 {
      CellIsTransitionCount(rows, states, index, k - 1, r, c);
      CountedInIffTransition(rows, states, index, k - 1, r, c);
    }
  }

  /** The matrix the counting loop leaves behind, read by label, is the count matrix. */
  lemma CellsAreCountMatrix(rows: seq<Observation>, states: seq<string>, index: map<string, nat>,
                            table: seq<seq<nat>>)
    requires Inverts(index, states)
    requires |table| == |states|
    requires forall r :: 0 <= r < |states| ==> |table[r]| == |states|
    requires forall r, c :: 0 <= r < |states| && 0 <= c < |states| ==>
      table[r][c] == CellBefore(rows, index, Pairs(rows), r, c)
    ensures table == CountMatrix(rows, states)
  {
    forall r | 0 <= r < |states| ensures table[r] == CountMatrix(rows, states)[r] {
      forall c | 0 <= c < |states| ensures table[r][c] == CountMatrix(rows, states)[r][c] {
        CellIsTransitionCount(rows, states, index, Pairs(rows), r, c);
      }
    }
  }

  lemma CountedInIffTransition(rows: seq<Observation>, states: seq<string>, index: map<string, nat>,
                               i: nat, r: nat, c: nat)
    requires Inverts(index, states) && r < |states| && c < |states|
    requires i + 1 < |rows|
    ensures CountedIn(rows, index, i, r, c) <==> IsTransition(rows, i, states[r], states[c])
  {
    assert states[r] in index && index[states[r]] == r;
    assert states[c] in index && index[states[c]] == c;
    if rows[i].state in index {
      assert states[index[rows[i].state]] == rows[i].state;
    }
    if rows[i + 1].state in index {
      assert states[index[rows[i + 1].state]] == rows[i + 1].state;
    }
  }

  /** Row r of the counts adds up to the number of counted pairs leaving states[r]. */
  lemma {:induction false} RowTotalIsOutgoing(rows: seq<Observation>, states: seq<string>, k: nat, a: string)
    requires Distinct(states) && Covers(states, rows)
    requires k <= Pairs(rows)
    ensures Sum(RowBefore(rows, states, k, a)) == OutgoingBefore(rows, k, a)
  {
    if k == 0 {
      SumZeroIffAllZero(RowBefore(rows, states, k, a));
    } else {
      var i := k - 1;
      RowTotalIsOutgoing(rows, states, i, a);
      var before, after := RowBefore(rows, states, i, a), RowBefore(rows, states, k, a);
      if Consecutive(rows, i) && rows[i].state == a {
        assert rows[i + 1].state in states;
        var c0 :| 0 <= c0 < |states| && states[c0] == rows[i + 1].state;
        SumBump(before, after, c0);
      } else {
        assert before == after;
      }
    }
  }

  function OutgoingVector(rows: seq<Observation>, states: seq<string>, k: nat): seq<nat>
    requires k <= Pairs(rows)
  {
    seq(|states|, r requires 0 <= r < |states| => OutgoingBefore(rows, k, states[r]))
  }

  lemma {:induction false} OutgoingAddUp(rows: seq<Observation>, states: seq<string>, k: nat)
    requires Distinct(states) && Covers(states, rows)
    requires k <= Pairs(rows)
    ensures Sum(OutgoingVector(rows, states, k)) == ConsecutiveBefore(rows, k)
  {
    if k == 0 {
      SumZeroIffAllZero(OutgoingVector(rows, states, k));
    } else {
      var i := k - 1;
      OutgoingAddUp(rows, states, i);
      var before, after := OutgoingVector(rows, states, i), OutgoingVector(rows, states, k);
      if Consecutive(rows, i) {
        assert rows[i].state in states;
        var r0 :| 0 <= r0 < |states| && states[r0] == rows[i].state;
        SumBump(before, after, r0);
      } else {
        assert before == after;
      }
    }
  }

  /**
   * All counts together add up to the number of adjacent pairs on
   * consecutive days: each such pair is counted once, in one cell, and
   * pairs across a gap are not counted at all.
   */
  lemma TotalIsConsecutivePairs(rows: seq<Observation>, states: seq<string>)
    requires Distinct(states) && Covers(states, rows)
    ensures Total(CountMatrix(rows, states)) == ConsecutivePairs(rows)
  {
    var m := CountMatrix(rows, states);
    forall r | 0 <= r < |states| ensures Sum(m[r]) == OutgoingVector(rows, states, Pairs(rows))[r] {
      RowTotalIsOutgoing(rows, states, Pairs(rows), states[r]);
    }
    assert seq(|m|, r requires 0 <= r < |m| => Sum(m[r])) == OutgoingVector(rows, states, Pairs(rows));
    OutgoingAddUp(rows, states, Pairs(rows));
  }

  /**
   * Each adjacent pair on consecutive days is a transition between exactly
   * one (row, column) cell of a state list that covers the table without
   * repeats, such as the table's own state list.
   */
  lemma PairInExactlyOneCell(rows: seq<Observation>, states: seq<string>, i: nat)
    requires Distinct(states) && Covers(states, rows)
    requires i + 1 < |rows| && Consecutive(rows, i)
    ensures exists r, c :: 0 <= r < |states| && 0 <= c < |states| && IsTransition(rows, i, states[r], states[c])
    ensures forall r, c, r', c' ::
      && 0 <= r < |states| && 0 <= c < |states| && IsTransition(rows, i, states[r], states[c])
      && 0 <= r' < |states| && 0 <= c' < |states| && IsTransition(rows, i, states[r'], states[c'])
      ==> r == r' && c == c'
  {
    assert rows[i].state in states && rows[i + 1].state in states;
    var r :| 0 <= r < |states| && states[r] == rows[i].state;
    var c :| 0 <= c < |states| && states[c] == rows[i + 1].state;
    assert IsTransition(rows, i, states[r], states[c]);
    forall r, c, r', c' |
      && 0 <= r < |states| && 0 <= c < |states| && IsTransition(rows, i, states[r], states[c])
      && 0 <= r' < |states| && 0 <= c' < |states| && IsTransition(rows, i, states[r'], states[c'])
      ensures r == r' && c == c'
    {
      SamePosition(states, r, r');
      SamePosition(states, c, c');
    }
  }

  lemma SamePosition(s: seq<string>, p: nat, q: nat)
    requires Distinct(s) && p < |s| && q < |s| && s[p] == s[q]
    ensures p == q
  {
  }

  /** At most Pairs(rows) adjacent pairs are on consecutive days, and none when there are zero or one rows. */
  lemma ConsecutivePairsBound(rows: seq<Observation>)
    ensures ConsecutivePairs(rows) <= Pairs(rows)
    ensures |rows| <= 1 ==> ConsecutivePairs(rows) == 0
  {
    ConsecutiveAtMost(rows, Pairs(rows));
  }

  lemma {:induction false} ConsecutiveAtMost(rows: seq<Observation>, k: nat)
    requires k <= Pairs(rows)
    ensures ConsecutiveBefore(rows, k) <= k
  {
    if k > 0 {
      ConsecutiveAtMost(rows, k - 1);
    }
  }
}
