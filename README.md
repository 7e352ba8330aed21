# Knapsack Packer, modelled in Dafny

This project models the `Packer` class of `pack.py`, a 0/1 knapsack solver
for the packaging challenge. An input row gives a package capacity and up to
15 items `(id, weight, cost)`. Weights are scaled by 100 to whole numbers.
`Packer(row)` checks the row against the challenge limits and stores its
items as given, unsorted. `available_append` re-sorts the available items
after each append, so `pack`, which appends item by item, leaves them
sorted when it is given any items. `solve` fills a dynamic-programming
table and walks back over it to collect the items it selects. `__str__`
turns the selection into the output line: the ids joined by ',', or '-'.

The model follows the code as written, quirks included:

- The table's row loop starts at `i = 0`. There `available_items[i - 1]` and
  `A[i - 1]` are the last item and the last row, which is still all zeros.
  So row 0 holds the last item's value wherever it fits, not zeros.
- The walk tests an item's weight against `max_weight`, not against the
  budget `j` that is left. So `j - weight` can be negative, and Python then
  reads from the end of the row. An index past either end raises
  `IndexError`.
- Both appends re-sort by Python's tuple order, that is by id, then
  weight, then cost.
- With no available items, `solve` raises `IndexError` at
  `available_items[-1]`. It does not return an empty selection.

The docstrings of `pack` and `solve` (pack.py:104-107 and pack.py:117-122)
promise the knapsack dynamic program. Its textbook table has a row 0 of
zeros, and its walk tests an item against the budget left. Module
`Intended` models that walk, and "## Findings" lists the two places where
the code differs from it.

Modules:

- `Items`: items, tuple order, the re-sort and sums over lists.
- `PyList`: Python subscripts, including negative ones.
- `Optimum`: the textbook knapsack table and the proof that it is optimal.
- `Table`: `Cell`, the table that `solve` actually fills, in closed form.
- `Walk`: `compute_items` as a function returning a `Trace`.
- `Intended`: the walk the code evidently intends.
- `Render`: `__str__`.
- `Pack`: the `Packer` class.
- `Scenarios`: the test suite's rows and the inputs behind the findings.

In the class:

- The lists and counters are fields.
- The appends and `solve` are methods with `modifies` clauses.
- The table is an `array2<int>` filled by nested `for` loops.
- `compute_items` is a `while` loop that calls `InsertedAppend`.
- `Valid()` says what the methods preserve: the counters equal the list
  lengths, the inserted items stay sorted, and the totals equal their sums.

## Model

| member | source | states |
|---|---|---|
| Items.Sort | pack.py:92 | the re-sorted list has the same elements, counted with multiplicity, and is in tuple order |
| Items.SortedUnique | pack.py:98 | two lists in tuple order with the same elements are equal, so any correct sort gives the list `list.sort` gives |
| Items.SortAppend | pack.py:110-111 | re-sorting a sorted list after one more append gives the same list as sorting the whole appended list |
| Items.SortAppendPrefix | pack.py:110-111 | one append-and-re-sort step of the loop: applied to the sort of the original list plus the first k items (the original list itself when k = 0), it gives the sort of the original list plus the first k+1 items |
| Items.SumSortAppend | pack.py:97-101 | after append and re-sort, the list's weight or value total grows by exactly the new item's |
| Items.SumMerge | pack.py:162 | a list holding the elements of two lists has the sum of both lists' totals |
| PyList.PyIndex | pack.py:131-135 | the subscript is valid exactly for -len <= k < len; a non-negative k selects k, a negative k selects len + k |
| Optimum.KnapChoiceFits | pack.py:116-123 | the selection read off the textbook table fits in the budget |
| Optimum.KnapChoiceValue | pack.py:116-123 | the selection read off the textbook table is worth exactly the table's entry |
| Optimum.KnapUpperBound | pack.py:116-123 | no selection that fits in j is worth more than the textbook table's entry for j |
| Optimum.KnapOptimal | pack.py:116-123 | the textbook table's last entry is the best value of any selection that fits in the capacity, and some selection reaches it |
| Table.Cell | pack.py:129-136 | the definition of the entry A[i][j] that solve's loops leave: row 0 holds the last item's value where it fits, and each later row takes the better of skipping and taking item i-1 (no contract of its own; the lemmas below state its properties) |
| Table.CellBound | pack.py:129-136 | A[i][j] is at most the value of the first i items plus the last item's value once more |
| Table.CellMonotone | pack.py:129-136 | every row of the table as filled does not decrease as the budget j grows |
| Table.CellIsKnapWithLastTwice | pack.py:129-136 | the table as filled equals the textbook table of the list with the last item put in front a second time |
| Table.TableBestWithLastTwice | pack.py:129-136 | A[n][max_weight] is the best value when the last item may be taken twice, and no selection that fits is worth more |
| Walk.TurnAt | pack.py:158-159 | the loop's test at row i and budget j: it raises exactly when the item passes the weight test against the capacity and j or j - weight lies outside the row's index range; it picks only an item no heavier than the capacity |
| Walk.WalkFrom | pack.py:154-166 | the loop from row i and budget j: it appends at most i items, each taken from the first i available items |
| Walk.ResumeTurn | pack.py:157-166 | one turn of the loop: a pick appends item i-1 and lowers j by its weight; a skip only lowers i; an index out of range ends the walk with IndexError |
| Walk.WalkPicksEachItemOnce | pack.py:157-166 | the walk from row i appends at most i items, each item of the first i at most once |
| Walk.WalkSpendsPicked | pack.py:162-164 | unless the walk raises, the final j plus the weight of the picked items equals the starting j |
| Walk.WalkFits | pack.py:157-166 | with positive values the walk never raises, j stays between 0 and its start, and the picked items fit |
| Walk.WalkValue | pack.py:157-166 | with positive values the picked items are worth A[i][j] minus row 0's entry at the final j |
| Intended.IntendedWalkOnce | pack.py:157-166 | the corrected walk appends each item at most once |
| Intended.IntendedWalkFits | pack.py:157-166 | the corrected walk, which tests against the budget left, stays within the budget |
| Intended.IntendedWalkValue | pack.py:157-166 | the corrected walk collects exactly the textbook table's value |
| Intended.IntendedSelectionOptimal | pack.py:116-166 | the corrected selection fits, uses each item at most once, and is worth at least any selection that fits, whatever the values |
| Render.Digits | pack.py:175 | str of an id is a non-empty string of decimal digits with no leading zero; the only spelling that starts with '0' is "0" itself, for id 0 |
| Render.DecimalRoundTrip | pack.py:175 | reading back the digits of str(n) gives n |
| Render.JoinIds | pack.py:175 | a non-empty join starts with a digit, so it is never '-' |
| Render.Show | pack.py:174-176 | the output is '-' exactly when nothing is inserted; otherwise the pieces between its commas are str of each inserted id, in order |
| Render.SplitJoin | pack.py:175 | splitting the joined ids at ',' gives back the separate numerals |
| Render.ShowReadBack | pack.py:174-176 | splitting the output at ',' and reading each numeral gives back the inserted ids in order |
| Pack.Message | pack.py:35-48 | the APIException text of each check; the item-count message ends in the limit 15, the other two end in the limit 100 |
| Pack.ItemsWithinLimits | pack.py:45-48 | true exactly when every item's weight is at most 10000 and its cost at most 100 |
| Pack.Packer.constructor | pack.py:21-31 | Packer() has capacity 10000 and no available or inserted items, counts and totals 0 |
| Pack.Packer.Load | pack.py:50-52 | a row that passed the checks is stored as given, unsorted, with its count |
| Pack.Packer.FromRow | pack.py:33-52 | checks run in order (capacity over 10000, more than 15 items, an item over a limit), the first that fails is the error, and otherwise the Packer holds the row |
| Pack.Packer.AvailableAppend | pack.py:89-93 | the new list is the sort of the old list plus the item, so it holds the old items and the item and is in tuple order; the count grows by one |
| Pack.Packer.InsertedAppend | pack.py:95-101 | the item is added, the list stays sorted, the count grows by one, and both totals grow by the item's weight and cost |
| Pack.Packer.BuildTable | pack.py:124-136 | with no items it raises IndexError; otherwise the table has n+1 rows of max_weight+1 entries and every entry is Cell |
| Pack.Packer.TestRow | pack.py:158-159 | the loop's test read from the table agrees with the walk's turn at row i and budget j |
| Pack.Packer.ComputeItems | pack.py:143-166 | the items appended are exactly the walk's picks; the loop raises exactly when the walk does; the class stays valid |
| Pack.Packer.Solve | pack.py:116-141 | with no items, IndexError and nothing changes; otherwise the walk's picks are added to what was inserted before, and the count and totals grow by their number, weight and value |
| Pack.Packer.AppendAll | pack.py:110-111 | appending each item in turn with available_append leaves the sort of the old list plus all the items; with no items the list is unchanged |
| Pack.Packer.Pack | pack.py:103-114 | the capacity is set; the available list becomes the sort of the old list plus the given items (unchanged when none are given); solve then runs on it, with its outcome over the whole state |
| Pack.Packer.ToString | pack.py:168-176 | '-' exactly when nothing is inserted; otherwise the pieces between commas are exactly str of each inserted id, in order, and the output reads back to the inserted ids |
| Scenarios.ChallengeWalk | test_pack.py:158-165 | on capacity 5000 with items (1,1000,60), (2,2000,100), (3,3000,100) the walk picks 3, then 2, and ends with j = 0 |
| Scenarios.SolveChallenge | test_pack.py:158-165 | after solve on that row, str of the Packer is '2,3' |
| Scenarios.SolveChallengeTwice | pack.py:116-141 | a second solve on the same Packer appends the selection again, so str of the Packer is '2,2,3,3' |
| Scenarios.SolveTooHeavy | test_pack.py:158-165 | after solve at capacity 800 with one item of weight 1530, str of the Packer is '-' |
| Scenarios.ConstraintRows | test_pack.py:138-155 | the four rejected rows raise the messages the tests expect |
| Scenarios.LastItemCountedTwice | pack.py:129-136 | one item (1,3000,100) at capacity 6000 gives A[1][6000] = 200, while the walk picks the item once, worth 100 |
| Scenarios.RowZeroLosesOptimum | pack.py:129-136 | at capacity 1000 with (1,500,3), (2,500,10) the walk keeps item 2 alone, worth 10, while both fit, worth 13 |
| Scenarios.ZeroValueOverfills | pack.py:158-164 | at capacity 1000 with (1,600,0), (2,800,10) the walk picks both, weighing 1400, and ends with j = -400 |

## Left out

- `parse_input_row` (pack.py:66-87) is left out. It reads a row with regular expressions and scales decimal weights by 100 with floating point. The model starts from the parsed row, as a capacity and a list of items in whole units.
- `parse_file` (pack.py:54-64), the `__main__` block and the test fixture that writes a temporary file are left out, because they are file I/O and printing.
- Pack.Packer.FromRow takes the parsed row, not the text, and reports APIException as an `Err` value.
- Items.Sort stands in for Python's `list.sort`. It is an insertion sort, not Timsort. Items.SortedUnique shows that every sort ends in the same list, so only the result matters.
- Walk.WalkFits and Walk.WalkValue require every item's value to be positive. With a zero-valued item the walk can overfill the package (see Scenarios.ZeroValueOverfills), so no such bound holds for all inputs.
- Pack.Packer keeps the table and the walk as written. The corrected walk lives in module Intended and is not used by the class, because the class models what pack.py does.
- The Python list of lists becomes an `array2<int>`. Each row of `A` is a separate list in the source, so no rows alias.
- Integers are unbounded in both Python and Dafny, so there is no overflow to model.

## Findings

| source | as written | input that shows it | evidently intended | confidence | as-written member | corrected member |
|---|---|---|---|---|---|---|
| pack.py:129-136 | the row loop starts at 0, so row 0 reads `available_items[-1]` and `A[-1]` and holds the last item's value, not zeros | capacity 1000, items (1,500,3) and (2,500,10): only item 2 is selected (value 10), yet both fit (weight 1000, value 13) | row 0 all zeros, the loop starting at 1, and the walk selecting an optimal set | high; not executed | Scenarios.RowZeroLosesOptimum | Intended.IntendedSelectionOptimal |
| pack.py:158-159 | the walk tests `items[i - 1][1] <= w` against the capacity, so `j - weight` can go negative and read from the end of the row | capacity 1000, items (1,600,0) and (2,800,10): both are selected, weight 1400 over the capacity 1000, final j = -400 | `items[i - 1][1] <= j`, the budget still left | high; not executed | Scenarios.ZeroValueOverfills | Intended.IntendedSelectionOptimal |
