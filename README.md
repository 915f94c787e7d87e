# First-order Markov weather model

This project models the estimator in `main.py` and proves properties about it.
The estimator reads a table of daily weather observations. Each row holds a day
number (`dia`) and a weather label (`estado`). The estimator then:

1. sorts the table by day;
2. lists the distinct labels in ascending order (`states`) and numbers them
   (`state_to_index`);
3. walks over adjacent rows. When the second row's day is exactly one after
   the first's, it adds one to the count cell for that pair of labels;
4. divides each row of counts by the row's total. A row whose total is zero
   stays all zeros;
5. answers queries. An unknown label is rejected. A known label gets its row
   of the transition matrix: the probability of each state on the next day.

Modules, in dependency order:

- `Sums`: sums of natural and real sequences.
- `LabelOrder`: Python's `<` on strings, modelled as lexicographic order by
  code point. Also `sorted(unique(...))` on labels, as `SortedDistinct`.
- `Observations`: the `Observation` row and the sort by day.
- `StateSpace`: the state list and the `state_to_index` dictionary.
- `Counting`: the counting loop, an imperative method over a two-dimensional
  array. Its specification is the count of day-consecutive transitions between
  each pair of labels.
- `Normalisation`: the row normalisation, on exact reals.
- `Estimator`:
  - the trained model and `Fit`, which performs the whole training;
  - the model as a function of the sorted rows (`Estimate`);
  - the query (`NextDay`);
  - the properties that join these together.
- `Scenarios`: small tables worked through to their exact matrices.

## Model

| member | source | states |
|---|---|---|
| LabelOrder.LessIrreflexive | main.py:15 | no label sorts strictly before itself |
| LabelOrder.LessTransitive | main.py:15 | the label order used by `sorted` is transitive |
| LabelOrder.LessTotal | main.py:15 | of two different labels, one sorts before the other |
| LabelOrder.Insert | main.py:15 | inserting a label into a strictly ascending list keeps it strictly ascending; the result holds exactly the old labels plus the new one |
| LabelOrder.SortedDistinct | main.py:15 | `sorted(unique(...))`: a strictly ascending list holding exactly the labels of the input |
| LabelOrder.AscendingUnique | main.py:15 | two strictly ascending lists with the same labels are equal, so the state list is determined by which labels occur |
| Observations.InsertByDay | main.py:12 | inserting a row into a day-sorted table keeps it day-sorted and adds exactly that row |
| Observations.SortByDay | main.py:12 | the sorted table is ascending by day and is a permutation of the input |
| Observations.DaySortingUnique | main.py:12 | when no two rows share a day, any two day-sorted permutations of the table are equal |
| StateSpace.States | main.py:15 | the state list is strictly ascending, has no repeats, and contains a label exactly when some row carries it |
| StateSpace.StatesIgnoreRowOrder | main.py:12-15 | reordering the rows, as the sort does, leaves the state list unchanged |
| StateSpace.IndexMap | main.py:17 | `state_to_index`: its keys are exactly the states; each key maps to a position holding that key; for a list without repeats, key and position invert each other |
| StateSpace.StatesIndexRows | main.py:15-17 | the dictionary built from the table's state list inverts that list and has an entry below the number of states for every row's label, so the lookups at lines 29-30 succeed |
| Counting.RecordTransition | main.py:25-32 | one iteration of the loop: when the two rows are on consecutive days, the cell named by their two labels' indices goes up by one; every other cell, and every cell when the days are not consecutive, stays the same |
| Counting.CountTransitions | main.py:20-32 | the loop starts from an n x n zero array; after it, each cell (r, c) holds the number of adjacent row pairs on consecutive days whose labels have indices r and c |
| Counting.CellIsTransitionCount | main.py:29-32 | through `state_to_index`, cell (r, c) counts exactly the consecutive-day transitions from states[r] to states[c] |
| Counting.CellsAreCountMatrix | main.py:20-32 | the loop's array, read by label, is the matrix of transition counts |
| Counting.RowTotalIsOutgoing | main.py:36 | each row sum of the counts is the number of counted transitions leaving that state |
| Counting.TotalIsConsecutivePairs | main.py:23-32 | all counts together equal the number of adjacent pairs on consecutive days |
| Counting.PairInExactlyOneCell | main.py:25-32 | for a state list without repeats that holds every row's label (as the table's own state list does), every adjacent pair on consecutive days is a transition between the states of some cell (r, c), and of no other cell |
| Counting.ConsecutivePairsBound | main.py:23 | at most `len(data) - 1` pairs are counted, and none with zero or one row |
| Normalisation.DivideSum | main.py:39 | dividing every entry by a positive total divides the sum by that total |
| Normalisation.NormaliseRow | main.py:36-39 | a normalised row keeps its length and has every entry in [0, 1]; it sums to 1 exactly when its count total is positive, each entry then being its count over the total; a zero total gives all zeros |
| Normalisation.Normalise | main.py:36-39 | the normalised matrix keeps the count matrix's shape, and every row sums to 1 or is all zeros |
| Estimator.Estimate | main.py:15-39 | the model built from day-sorted rows has the table's own state list, an index dictionary that inverts it, a square matrix of that size, and every row a probability distribution or all zeros |
| Estimator.Fit | main.py:12-39 | training returns the rows in day order, as a permutation of the input, and the model estimated from them; its state list is the input's state list |
| Estimator.EstimateRow | main.py:36-39 | row r of the estimate is count row r normalised; that count row's total is the number of transitions leaving states[r] |
| Estimator.EstimateEntry | main.py:36-39 | each matrix entry is the number of transitions from states[r] to states[c] divided by the number leaving states[r], or 0 when none leave |
| Estimator.EstimateRowsStochastic | main.py:36-39 | the estimate is well formed; every row lies in [0, 1] and sums to 1 or is all zeros; a row sums to 1 exactly when its state has an outgoing consecutive-day transition |
| Estimator.EstimateCountsConsecutivePairs | main.py:23-32 | all counts of the estimate add up to the number of consecutive-day pairs, which is at most the number of adjacent pairs; the state list holds every row's label |
| Estimator.FewRowsGiveZeroMatrix | main.py:20-39 | with no row or one row the loop never runs: there are as many states as rows, and every probability is 0 |
| Estimator.EstimateDeterministic | main.py:12-39 | when no two rows share a day, every day-sorted permutation of the input gives the same rows and the same model |
| Estimator.NextDay | main.py:70-76 | a query fails with `UnknownState` exactly when the label is not a state; otherwise it returns the matrix row at the label's position, one entry per state |
| Estimator.NextDayOfEstimate | main.py:70-76 | querying an estimate fails exactly when no row carries the label; otherwise the answer lies in [0, 1], sums to 1 exactly when the label had an outgoing consecutive-day transition (else all 0), and each entry is that transition's observed frequency |
| Scenarios.FourDaysExample | main.py:12-39 | sol, sol, lluvia, sol on days 1-4 gives states [lluvia, sol] and matrix [[0, 1], [0.5, 0.5]] |
| Scenarios.GapExample | main.py:25 | sol on day 1 then lluvia on day 3 is not counted: the 2 x 2 matrix is all zeros |
| Scenarios.SingleObservationExample | main.py:23 | a single row gives one state and the 1 x 1 zero matrix |
| Scenarios.UnknownStateExample | main.py:70-72 | querying a label absent from the table is rejected with that label |

## Left out

- Data generation (`gen_data.py`) is not part of this model. It draws random labels and writes a file.
- Reading `datos.csv` is left out, as is the message printed when the file is missing. Columns arrive as a sequence of `Observation` values.
- Printing the matrix and the probabilities, with their two-decimal formatting and emojis, is left out.
- The interactive loop is not modelled: reading input, `.strip()`, the `exit` sentinel and end of input. `NextDay` takes the label as already read and stripped. A label spelled `exit` in any letter case ends the loop before it could be queried; that case is not modelled.
- Floating point is not modelled. Counts are natural numbers and probabilities are exact reals, so "sums to 1" holds exactly rather than within rounding.
- Estimator.Fit: promises only that the rows come back ascending by day, as a permutation of the input. It does not promise the order of rows sharing a day. pandas' default `sort_values` is not a stable sort, so the code fixes no tie order. No stable sort is assumed; the model follows the code's default, non-stable sort. Estimator.EstimateDeterministic proves the result is unique when days are distinct.
- Days are unbounded integers. The 64-bit range of the `dia` column and its overflow at `dia + 1` are not modelled.
- Labels are strings ordered by code point. Non-string labels, such as mixed numbers and strings that pandas might infer from a file, are not modelled.
