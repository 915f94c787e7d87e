/**
 * The state space: `states = sorted(data['estado'].unique())` and the
 * dictionary `state_to_index` that numbers the states in that order.
 */
module StateSpace {
  import opened LabelOrder
  import opened Observations

  /** The `estado` column. */
  function Column(rows: seq<Observation>): seq<string>
  {
    seq(|rows|, i requires 0 <= i < |rows| => rows[i].state)
  }

  /** Some row of the table carries label `x`. */
  predicate Occurs(rows: seq<Observation>, x: string)
  {
    exists i :: 0 <= i < |rows| && rows[i].state == x
  }

  /** The distinct labels of the table, ascending, each once. */
  function States(rows: seq<Observation>): (r: seq<string>)
    ensures StrictlyAscending(r) && Distinct(r)
    ensures forall x :: x in r <==> Occurs(rows, x)
  {
    var r := SortedDistinct(Column(rows));
    AscendingIsDistinct(r);
    assert forall x :: x in Column(rows) <==> Occurs(rows, x) by {
      forall x ensures x in Column(rows) <==> Occurs(rows, x) {
        if x in Column(rows) {
          var i :| 0 <= i < |rows| && Column(rows)[i] == x;
        }
        if Occurs(rows, x) {
          var i :| 0 <= i < |rows| && rows[i].state == x;
          assert Column(rows)[i] == x;
        }
      }
    }
    r
  }

  /**
   * The state list depends only on which rows there are, not on their order:
   * sorting the table by day leaves it unchanged, whatever the tie order.
   */
  lemma StatesIgnoreRowOrder(a: seq<Observation>, b: seq<Observation>)
    requires multiset(a) == multiset(b)
    ensures States(a) == States(b)
  {
    forall x ensures Occurs(a, x) ==> Occurs(b, x) {
      if Occurs(a, x) {
        var i :| 0 <= i < |a| && a[i].state == x;
        assert a[i] in multiset(b);
        var j :| 0 <= j < |b| && b[j] == a[i];
      }
    }
    forall x ensures Occurs(b, x) ==> Occurs(a, x) {
      if Occurs(b, x) {
        var j :| 0 <= j < |b| && b[j].state == x;
        assert b[j] in multiset(a);
        var i :| 0 <= i < |a| && a[i] == b[j];
      }
    }
    AscendingUnique(States(a), States(b));
  }

  /**
   * `index` and `states` invert each other: every key of `index` is a state
   * and names its position, and every position is named by its state.
   */
  predicate Inverts(index: map<string, nat>, states: seq<string>)
  {
    && (forall s :: s in index ==> index[s] < |states| && states[index[s]] == s)
    && (forall i :: 0 <= i < |states| ==> states[i] in index && index[states[i]] == i)
  }

  /**
   * `{state: i for i, state in enumerate(states)}`: a later position
   * overwrites an earlier one with the same label.
   */
  function IndexMap(states: seq<string>): (m: map<string, nat>)
    ensures forall s :: s in m <==> s in states
    ensures forall s :: s in m ==> m[s] < |states| && states[m[s]] == s
    ensures Distinct(states) ==> Inverts(m, states)
    decreases |states|
  {
    if |states| == 0 then map[]
    else
      var n := |states| - 1;
      assert states == states[..n] + [states[n]];
      IndexMap(states[..n])[states[n] := n]
  }

  /**
   * The dictionary built from the table's own state list inverts that list
   * and has an entry below |states| for every row's label.
   */
  lemma StatesIndexRows(rows: seq<Observation>)
    ensures Inverts(IndexMap(States(rows)), States(rows))
    ensures forall i :: 0 <= i < |rows| ==>
      rows[i].state in IndexMap(States(rows)) && IndexMap(States(rows))[rows[i].state] < |States(rows)|
  {
    var states := States(rows);
    forall i | 0 <= i < |rows| ensures rows[i].state in states {
      assert Occurs(rows, rows[i].state);
    }
  }
}
