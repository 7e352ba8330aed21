/**
 * The table that Packer.solve fills. The row loop starts at i = 0, where
 * Python's A[i - 1] and available_items[i - 1] are the last row (still all
 * zeros then) and the last item, so row 0 holds the last item on its own
 * instead of zeros. Cell gives each entry in closed form.
 */
module Table {
  import opened Items
  import opened Optimum

  /**
   * The entry A[i][j] once solve's loops are done, for a non-empty item list.
   */
  function Cell(items: seq<Item>, i: nat, j: nat): (r: nat)
    requires 0 < |items| && i <= |items|
  {
    if i == 0 then
      var last := items[|items| - 1];
      if last.weight <= j then last.value else 0
    else
      var it := items[i - 1];
      if it.weight > j then Cell(items, i - 1, j)
      else Max(Cell(items, i - 1, j), Cell(items, i - 1, j - it.weight) + it.value)
  }

  /**
   * No entry exceeds the value of the first i items plus the last item's
   * value once more, which row 0 brings in.
   */
  lemma {:induction false} CellBound(items: seq<Item>, i: nat, j: nat)
    requires 0 < |items| && i <= |items|
    ensures Cell(items, i, j) <= Sum(items[..i], Value) + items[|items| - 1].value
  {
    if i > 0 {
      var it := items[i - 1];
      assert items[..i] == items[..i - 1] + [it];
      SumConcat(items[..i - 1], [it], Value);
      CellBound(items, i - 1, j);
      if it.weight <= j {
        CellBound(items, i - 1, j - it.weight);
      }
    }
  }

  /** Every row of the table is non-decreasing in the budget. */
  lemma {:induction false} CellMonotone(items: seq<Item>, i: nat, j1: nat, j2: nat)
    requires 0 < |items| && i <= |items|
    requires j1 <= j2
    ensures Cell(items, i, j1) <= Cell(items, i, j2)
  {
    if i > 0 {
      var w := items[i - 1].weight;
      CellMonotone(items, i - 1, j1, j2);
      if w <= j1 {
        CellMonotone(items, i - 1, j1 - w, j2 - w);
      }
    }
  }

  /**
   * The table is the textbook table of the item list with the last item put
   * in front once more, shifted down one row.
   */
  lemma {:induction false} CellIsKnapWithLastTwice(items: seq<Item>, i: nat, j: nat)
    requires 0 < |items| && i <= |items|
    ensures Cell(items, i, j) == Knap([items[|items| - 1]] + items, i + 1, j)
  {
    var doubled := [items[|items| - 1]] + items;
    assert doubled[i] == if i == 0 then items[|items| - 1] else items[i - 1];
    if i > 0 {
      CellIsKnapWithLastTwice(items, i - 1, j);
      if items[i - 1].weight <= j {
        CellIsKnapWithLastTwice(items, i - 1, j - items[i - 1].weight);
      }
    }
  }

  /**
   * A[n][cap] is the best value of a selection that fits in cap when the
   * last item may be taken twice, not the best value of the real problem.
   */
  lemma TableBestWithLastTwice(items: seq<Item>, cap: nat)
    requires 0 < |items|
    ensures var doubled := [items[|items| - 1]] + items;
      && (exists m :: |m| == |doubled| && SelSum(doubled, m, Weight) <= cap
                      && SelSum(doubled, m, Value) == Cell(items, |items|, cap))
      && (forall m :: |m| == |doubled| && SelSum(doubled, m, Weight) <= cap
                      ==> SelSum(doubled, m, Value) <= Cell(items, |items|, cap))
  {
    CellIsKnapWithLastTwice(items, |items|, cap);
    KnapOptimal([items[|items| - 1]] + items, cap);
  }
}
