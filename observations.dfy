/**
 * The table the estimator reads: one row per day with the weather state seen
 * that day (columns `dia` and `estado`), and the sort by day it applies first.
 */
module Observations {

  datatype Observation = Observation(day: int, state: string)

  /** Rows in ascending order of day; rows with equal days may come in any order. */
  predicate DaySorted(rows: seq<Observation>)
  {
    forall i, j :: 0 <= i < j < |rows| ==> rows[i].day <= rows[j].day
  }

  predicate DistinctDays(rows: seq<Observation>)
  {
    forall i, j :: 0 <= i < j < |rows| ==> rows[i].day != rows[j].day
  }

  /** Inserts one row into a table already in day order. */
  function InsertByDay(rows: seq<Observation>, o: Observation): (r: seq<Observation>)
    requires DaySorted(rows)
    ensures DaySorted(r)
    ensures multiset(r) == multiset(rows) + multiset{o}
  {
    if |rows| == 0 then [o]
    else if o.day <= rows[0].day then [o] + rows
    else
      var t := InsertByDay(rows[1..], o);
      assert rows == [rows[0]] + rows[1..];
      PrependEarliest(rows, o, t);
      [rows[0]] + t
  }

  /** The first row stays first when a later row is inserted behind it. */
  lemma PrependEarliest(rows: seq<Observation>, o: Observation, t: seq<Observation>)
    requires DaySorted(rows) && |rows| > 0 && rows[0].day < o.day
    requires DaySorted(t) && multiset(t) == multiset(rows[1..]) + multiset{o}
    ensures DaySorted([rows[0]] + t)
  {
    forall k | 0 <= k < |t| ensures rows[0].day <= t[k].day {
      assert t[k] in multiset(rows[1..]) + multiset{o};
    }
  }

  /**
   * `data.sort_values(by='dia')`: a reordering of the table in which days
   * ascend. Which of several rows sharing a day comes first is not part of
   * the contract (the sort is not stable).
   */
  function SortByDay(data: seq<Observation>): (r: seq<Observation>)
    ensures DaySorted(r)
    ensures multiset(r) == multiset(data)
  {
    if |data| == 0 then []
    else
      assert data == data[..|data| - 1] + [data[|data| - 1]];
      InsertByDay(SortByDay(data[..|data| - 1]), data[|data| - 1])
  }

  /**
   * When no two rows share a day there is only one way to sort the table,
   * so every correct sort yields the same rows.
   */
  lemma {:induction false} DaySortingUnique(a: seq<Observation>, b: seq<Observation>)
    requires DaySorted(a) && DaySorted(b)
    requires multiset(a) == multiset(b)
    requires DistinctDays(a)
    ensures a == b
  {
    assert |a| == |multiset(a)| == |multiset(b)| == |b|;
    if |a| > 0 {
      SameFirstRow(a, b);
      TailsPermute(a, b);
      DaySortingUnique(a[1..], b[1..]);
      assert a == [a[0]] + a[1..] && b == [b[0]] + b[1..];
    }
  }

  lemma SameFirstRow(a: seq<Observation>, b: seq<Observation>)
    requires DaySorted(a) && DaySorted(b)
    requires multiset(a) == multiset(b)
    requires DistinctDays(a)
    requires |a| > 0 && |b| > 0
    ensures a[0] == b[0]
  {
    assert a[0] in multiset(b) && b[0] in multiset(a);
    var k :| 0 <= k < |b| && b[k] == a[0];
    var m :| 0 <= m < |a| && a[m] == b[0];
    assert a[0].day <= a[m].day == b[0].day <= b[k].day == a[0].day;
  }

  lemma TailsPermute(a: seq<Observation>, b: seq<Observation>)
    requires |a| > 0 && |b| > 0 && a[0] == b[0]
    requires multiset(a) == multiset(b)
    ensures multiset(a[1..]) == multiset(b[1..])
  {
    assert a == [a[0]] + a[1..];
    assert b == [b[0]] + b[1..];
    calc {
      multiset(a[1..]);
      multiset(a) - multiset{a[0]};
      multiset(b) - multiset{b[0]};
      multiset(b[1..]);
    }
  }
}
