/**
 * Packer.compute_items as a function of the item list and the capacity:
 * the walk back from A[n][cap] over the table of module Table. The fit test
 * compares an item's weight with the capacity, not with the budget j that is
 * left, so j - w can be negative and Python then reads from the end of the row.
 */
module Walk {
  import opened Wrappers
  import opened Items
  import opened PyList
  import opened Table

  /**
   * What the loop does from row i with budget j: the items it appends, in
   * order; the budget left when it stops; whether it stopped on an IndexError
   * (the items appended before the error stay appended).
   */
  datatype Trace = Trace(picked: seq<Item>, budget: int, indexError: bool)

  /** What the loop's test does at row i with budget j. */
  datatype Turn = Pick | Skip | Raise

  /**
   * The test of the loop: an item no heavier than the capacity is picked when
   * A[i][j] - A[i-1][j-w] equals its value; a subscript out of range raises.
   */
  function TurnAt(items: seq<Item>, cap: nat, i: nat, j: int): (t: Turn)
    requires 0 < i <= |items|
    ensures t == Raise <==> items[i - 1].weight <= cap
                            && !(-(cap + 1) <= j <= cap && -(cap + 1) <= j - items[i - 1].weight)
    ensures t == Pick ==> items[i - 1].weight <= cap
  {
    var it := items[i - 1];
    if it.weight <= cap then
      var here := PyIndex(j, cap + 1);
      var there := PyIndex(j - it.weight, cap + 1);
      if here.None? || there.None? then Raise
      else if Cell(items, i, here.value) - Cell(items, i - 1, there.value) == it.value then Pick
      else Skip
    else Skip
  }

  function WalkFrom(items: seq<Item>, cap: nat, i: nat, j: int): (r: Trace)
    requires 0 < |items| && i <= |items|
    ensures |r.picked| <= i
    ensures forall x :: x in r.picked ==> x in items[..i]
  {
    if i == 0 then Trace([], j, false)
    else
      match TurnAt(items, cap, i, j)
      case Raise => Trace([], j, true)
      case Pick =>
        var rest := WalkFrom(items, cap, i - 1, j - items[i - 1].weight);
        assert items[..i] == items[..i - 1] + [items[i - 1]];
        Trace([items[i - 1]] + rest.picked, rest.budget, rest.indexError)
      case Skip =>
        assert items[..i] == items[..i - 1] + [items[i - 1]];
        WalkFrom(items, cap, i - 1, j)
  }

  /** A walk whose first turns appended done and whose remaining turns do rest. */
  function Resume(done: seq<Item>, rest: Trace): Trace
  {
    Trace(done + rest.picked, rest.budget, rest.indexError)
  }

  /**
   * One turn of the loop: a pick appends item i-1 and lowers j by its weight,
   * a skip only lowers i, and a subscript out of range ends the walk.
   */
  lemma ResumeTurn(items: seq<Item>, cap: nat, i: nat, j: int, done: seq<Item>)
    requires 0 < i <= |items|
    ensures var it := items[i - 1];
      Resume(done, WalkFrom(items, cap, i, j))
      == match TurnAt(items, cap, i, j)
         case Raise => Trace(done, j, true)
         case Pick => Resume(done + [it], WalkFrom(items, cap, i - 1, j - it.weight))
         case Skip => Resume(done, WalkFrom(items, cap, i - 1, j))
  {
    var it := items[i - 1];
    var rest := WalkFrom(items, cap, i - 1, j - it.weight);
    assert done + ([it] + rest.picked) == (done + [it]) + rest.picked;
    assert done + [] == done;
  }

  /** The walk from row i looks at items i-1 down to 0 once each: it appends each at most once. */
  lemma {:induction false} WalkPicksEachItemOnce(items: seq<Item>, cap: nat, i: nat, j: int)
    requires 0 < |items| && i <= |items|
    ensures |WalkFrom(items, cap, i, j).picked| <= i
    ensures multiset(WalkFrom(items, cap, i, j).picked) <= multiset(items[..i])
  {
    if i > 0 {
      var it := items[i - 1];
      assert items[..i] == items[..i - 1] + [it];
      WalkPicksEachItemOnce(items, cap, i - 1, j);
      WalkPicksEachItemOnce(items, cap, i - 1, j - it.weight);
    }
  }

  /** On a pick j goes down by exactly the weight of the item picked. */
  lemma {:induction false} WalkSpendsPicked(items: seq<Item>, cap: nat, i: nat, j: int)
    requires 0 < |items| && i <= |items|
    ensures var t := WalkFrom(items, cap, i, j);
      !t.indexError ==> t.budget + Sum(t.picked, Weight) == j
  {
    if i > 0 {
      var it := items[i - 1];
      WalkSpendsPicked(items, cap, i - 1, j);
      WalkSpendsPicked(items, cap, i - 1, j - it.weight);
    }
  }

  /**
   * When every item has a positive value, no item heavier than the budget
   * left is ever picked: j stays within [0, cap], every subscript is in
   * range, and the picked weights add up to at most the starting budget.
   */
  lemma {:induction false} WalkFits(items: seq<Item>, cap: nat, i: nat, j: int)
    requires 0 < |items| && i <= |items|
    requires forall k :: 0 <= k < |items| ==> items[k].value > 0
    requires 0 <= j <= cap
    ensures var t := WalkFrom(items, cap, i, j);
      !t.indexError && 0 <= t.budget <= j && Sum(t.picked, Weight) <= j
  {
    WalkSpendsPicked(items, cap, i, j);
    if i > 0 {
      var it := items[i - 1];
      if it.weight <= cap {
        if it.weight <= j {
          WalkFits(items, cap, i - 1, j - it.weight);
        } else {
          CellMonotone(items, i - 1, j, cap + 1 + j - it.weight);
        }
      }
      WalkFits(items, cap, i - 1, j);
    }
  }

  /**
   * With positive values the picked items are worth A[i][j] minus what row 0
   * still holds at the final budget, A[0][budget]: the last item's value when
   * it would still fit, and 0 otherwise.
   */
  lemma {:induction false} WalkValue(items: seq<Item>, cap: nat, i: nat, j: int)
    requires 0 < |items| && i <= |items|
    requires forall k :: 0 <= k < |items| ==> items[k].value > 0
    requires 0 <= j <= cap
    ensures var t := WalkFrom(items, cap, i, j);
      0 <= t.budget && Sum(t.picked, Value) + Cell(items, 0, t.budget) == Cell(items, i, j)
  {
    WalkFits(items, cap, i, j);
    if i > 0 {
      var it := items[i - 1];
      if it.weight <= j {
        WalkValue(items, cap, i - 1, j - it.weight);
      } else if it.weight <= cap {
        CellMonotone(items, i - 1, j, cap + 1 + j - it.weight);
      }
      WalkValue(items, cap, i - 1, j);
    }
  }
}
