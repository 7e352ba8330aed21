/**
 * The selection pack.py evidently intends: the table with an all-zero row 0
 * (the row loop starting at 1) and an item picked only when it fits in the
 * budget still left. For it the selection fits and is optimal.
 */
module Intended {
  import opened Items
  import opened Optimum

  function IntendedWalk(items: seq<Item>, i: nat, j: nat): seq<Item>
    requires i <= |items|
  {
    if i == 0 then []
    else
      var it := items[i - 1];
      if it.weight <= j && Knap(items, i, j) - Knap(items, i - 1, j - it.weight) == it.value then
        [it] + IntendedWalk(items, i - 1, j - it.weight)
      else IntendedWalk(items, i - 1, j)
  }

  /** The intended walk takes each item at most once. */
  lemma {:induction false} IntendedWalkOnce(items: seq<Item>, i: nat, j: nat)
    requires i <= |items|
    ensures multiset(IntendedWalk(items, i, j)) <= multiset(items[..i])
  {
    if i > 0 {
      var it := items[i - 1];
      assert items[..i] == items[..i - 1] + [it];
      if it.weight <= j && Knap(items, i, j) - Knap(items, i - 1, j - it.weight) == it.value {
        IntendedWalkOnce(items, i - 1, j - it.weight);
      } else {
        IntendedWalkOnce(items, i - 1, j);
      }
    }
  }

  /** The intended walk stays within the budget. */
  lemma {:induction false} IntendedWalkFits(items: seq<Item>, i: nat, j: nat)
    requires i <= |items|
    ensures Sum(IntendedWalk(items, i, j), Weight) <= j
  {
    if i > 0 {
      var it := items[i - 1];
      if it.weight <= j && Knap(items, i, j) - Knap(items, i - 1, j - it.weight) == it.value {
        var rest := IntendedWalk(items, i - 1, j - it.weight);
        IntendedWalkFits(items, i - 1, j - it.weight);
        assert IntendedWalk(items, i, j) == [it] + rest;
        SumCons(it, rest, Weight);
      } else {
        assert IntendedWalk(items, i, j) == IntendedWalk(items, i - 1, j);
        IntendedWalkFits(items, i - 1, j);
      }
    }
  }

  /** The intended walk collects exactly the value the table promises. */
  lemma {:induction false} IntendedWalkValue(items: seq<Item>, i: nat, j: nat)
    requires i <= |items|
    ensures Sum(IntendedWalk(items, i, j), Value) == Knap(items, i, j)
  {
    if i > 0 {
      var it := items[i - 1];
      IntendedWalkValue(items, i - 1, j);
      if it.weight <= j {
        IntendedWalkValue(items, i - 1, j - it.weight);
      }
    }
  }

  /**
   * The intended selection fits in cap, uses each item at most once, and no
   * selection that fits is worth more, whatever the values (zero included).
   */
  lemma IntendedSelectionOptimal(items: seq<Item>, cap: nat)
    ensures var picked := IntendedWalk(items, |items|, cap);
      && Sum(picked, Weight) <= cap
      && multiset(picked) <= multiset(items)
      && forall m :: |m| == |items| && SelSum(items, m, Weight) <= cap
                     ==> SelSum(items, m, Value) <= Sum(picked, Value)
  {
    assert items[..|items|] == items;
    IntendedWalkOnce(items, |items|, cap);
    IntendedWalkFits(items, |items|, cap);
    IntendedWalkValue(items, |items|, cap);
    KnapOptimal(items, cap);
  }
}
