/**
 * The 0/1 knapsack problem itself: selections of items, their weight and
 * value, and the textbook dynamic-programming table, proved optimal.
 */
module Optimum {
  import opened Items

  /** Python's max on two ints. */
  function Max(a: int, b: int): int { if a >= b then a else b }

  /**
   * The textbook table: Knap(items, i, j) is computed from the first i items
   * with budget j, row 0 being all zeros.
   */
  function Knap(items: seq<Item>, i: nat, j: nat): nat
    requires i <= |items|
  {
    if i == 0 then 0
    else
      var it := items[i - 1];
      if it.weight > j then Knap(items, i - 1, j)
      else Max(Knap(items, i - 1, j), Knap(items, i - 1, j - it.weight) + it.value)
  }

  /**
   * A selection is a mask over a prefix of the items: m[k] says whether
   * items[k] is taken. SelSum adds f over the taken items.
   */
  function SelSum(items: seq<Item>, m: seq<bool>, f: Measure): nat
    requires |m| <= |items|
  {
    if m == [] then 0
    else SelSum(items, m[..|m| - 1], f) + (if m[|m| - 1] then Of(items[|m| - 1], f) else 0)
  }

  /** Extending a selection by one more item adds that item's weight and value when it is taken. */
  lemma SelSumAppend(items: seq<Item>, m: seq<bool>, b: bool)
    requires |m| < |items|
    ensures SelSum(items, m + [b], Weight) == SelSum(items, m, Weight) + (if b then items[|m|].weight else 0)
    ensures SelSum(items, m + [b], Value) == SelSum(items, m, Value) + (if b then items[|m|].value else 0)
  {
    assert (m + [b])[..|m|] == m;
  }

  /** A selection from the first i items, taking each item the table's recurrence takes. */
  function KnapChoice(items: seq<Item>, i: nat, j: nat): (m: seq<bool>)
    requires i <= |items|
    ensures |m| == i
  {
    if i == 0 then []
    else
      var it := items[i - 1];
      if it.weight > j || Knap(items, i - 1, j) >= Knap(items, i - 1, j - it.weight) + it.value then
        KnapChoice(items, i - 1, j) + [false]
      else
        KnapChoice(items, i - 1, j - it.weight) + [true]
  }

  /** KnapChoice fits in j. */
  lemma {:induction false} KnapChoiceFits(items: seq<Item>, i: nat, j: nat)
    requires i <= |items|
    ensures SelSum(items, KnapChoice(items, i, j), Weight) <= j
  {
    if i > 0 {
      var it := items[i - 1];
      if it.weight > j || Knap(items, i - 1, j) >= Knap(items, i - 1, j - it.weight) + it.value {
        assert KnapChoice(items, i, j) == KnapChoice(items, i - 1, j) + [false];
        KnapChoiceFits(items, i - 1, j);
        SelSumAppend(items, KnapChoice(items, i - 1, j), false);
      } else {
        assert KnapChoice(items, i, j) == KnapChoice(items, i - 1, j - it.weight) + [true];
        KnapChoiceFits(items, i - 1, j - it.weight);
        SelSumAppend(items, KnapChoice(items, i - 1, j - it.weight), true);
      }
    }
  }

  /** KnapChoice is worth Knap(items, i, j). */
  lemma {:induction false} KnapChoiceValue(items: seq<Item>, i: nat, j: nat)
    requires i <= |items|
    ensures SelSum(items, KnapChoice(items, i, j), Value) == Knap(items, i, j)
  {
    if i > 0 {
      var it := items[i - 1];
      if it.weight > j || Knap(items, i - 1, j) >= Knap(items, i - 1, j - it.weight) + it.value {
        assert KnapChoice(items, i, j) == KnapChoice(items, i - 1, j) + [false];
        assert Knap(items, i, j) == Knap(items, i - 1, j);
        KnapChoiceValue(items, i - 1, j);
        SelSumAppend(items, KnapChoice(items, i - 1, j), false);
      } else {
        assert KnapChoice(items, i, j) == KnapChoice(items, i - 1, j - it.weight) + [true];
        assert Knap(items, i, j) == Knap(items, i - 1, j - it.weight) + it.value;
        KnapChoiceValue(items, i - 1, j - it.weight);
        SelSumAppend(items, KnapChoice(items, i - 1, j - it.weight), true);
      }
    }
  }

  /** No selection from the first |m| items that fits in j is worth more than Knap. */
  lemma {:induction false} KnapUpperBound(items: seq<Item>, m: seq<bool>, j: nat)
    requires |m| <= |items|
    requires SelSum(items, m, Weight) <= j
    ensures SelSum(items, m, Value) <= Knap(items, |m|, j)
  {
    if m != [] {
      var i := |m|;
      var it := items[i - 1];
      var rest := m[..i - 1];
      if m[i - 1] {
        KnapUpperBound(items, rest, j - it.weight);
      } else {
        KnapUpperBound(items, rest, j);
      }
    }
  }

  /** Knap(items, |items|, cap) is the best value of any selection that fits in cap. */
  lemma KnapOptimal(items: seq<Item>, cap: nat)
    ensures exists m :: |m| == |items| && SelSum(items, m, Weight) <= cap
                        && SelSum(items, m, Value) == Knap(items, |items|, cap)
    ensures forall m :: |m| == |items| && SelSum(items, m, Weight) <= cap
                        ==> SelSum(items, m, Value) <= Knap(items, |items|, cap)
  {
    var best := KnapChoice(items, |items|, cap);
    KnapChoiceFits(items, |items|, cap);
    KnapChoiceValue(items, |items|, cap);
    forall m | |m| == |items| && SelSum(items, m, Weight) <= cap
      ensures SelSum(items, m, Value) <= Knap(items, |items|, cap)
    {
      KnapUpperBound(items, m, cap);
    }
  }
}
