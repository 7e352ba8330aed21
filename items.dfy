/**
 * Items as the packer holds them: tuples (id, weight, value) with the weight
 * already scaled by 100, Python's tuple ordering on them, the re-sort that
 * follows every append, and sums over item lists.
 */
module Items {

  /** A parsed item. The input grammar only admits digits, so every field is a nat. */
  datatype Item = Item(id: nat, weight: nat, value: nat)

  /** The two quantities a list of items is summed over. */
  datatype Measure = Weight | Value

  function Of(it: Item, f: Measure): nat
  {
    match f
    case Weight => it.weight
    case Value => it.value
  }

  /** Python's comparison of the tuples (id, weight, value): lexicographic. */
  predicate Le(a: Item, b: Item) {
    a.id < b.id || (a.id == b.id && (a.weight < b.weight || (a.weight == b.weight && a.value <= b.value)))
  }

  predicate Sorted(s: seq<Item>) {
    forall i, j :: 0 <= i < j < |s| ==> Le(s[i], s[j])
  }

  /** Inserts x before the first element it does not exceed. */
  function Insert(s: seq<Item>, x: Item): (r: seq<Item>)
    ensures |r| == |s| + 1
    ensures multiset(r) == multiset(s) + multiset{x}
  {
    if s == [] then [x]
    else if Le(x, s[0]) then [x] + s
    else
      assert s == [s[0]] + s[1..];
      [s[0]] + Insert(s[1..], x)
  }

  lemma {:induction false} InsertSorted(s: seq<Item>, x: Item)
    requires Sorted(s)
    ensures Sorted(Insert(s, x))
  {
    if s != [] && !Le(x, s[0]) {
      var tail := Insert(s[1..], x);
      InsertSorted(s[1..], x);
      forall k | 0 <= k < |tail| ensures Le(s[0], tail[k]) {
        assert tail[k] in multiset(tail);
        if tail[k] != x {
          assert tail[k] in multiset(s[1..]);
          var m :| 0 <= m < |s[1..]| && s[1..][m] == tail[k];
          assert s[m + 1] == tail[k];
        }
      }
    }
  }

  /**
   * The list Python's list.sort leaves behind. Defined by insertion; that it is
   * a sorted permutation is in the contract, and SortedUnique shows that
   * no other list meets that contract.
   */
  function Sort(s: seq<Item>): (r: seq<Item>)
    ensures |r| == |s|
    ensures multiset(r) == multiset(s)
    ensures Sorted(r)
  {
    if s == [] then []
    else
      var init := s[..|s| - 1];
      assert s == init + [s[|s| - 1]];
      InsertSorted(Sort(init), s[|s| - 1]);
      Insert(Sort(init), s[|s| - 1])
  }

  lemma SortedHeadLeast(s: seq<Item>, x: Item)
    requires Sorted(s) && x in multiset(s)
    ensures Le(s[0], x)
  {
    var k :| 0 <= k < |s| && s[k] == x;
    if k > 0 { assert Le(s[0], s[k]); }
  }

  lemma SortedTail(s: seq<Item>)
    requires Sorted(s) && s != []
    ensures Sorted(s[1..])
  {
    forall i, j | 0 <= i < j < |s[1..]| ensures Le(s[1..][i], s[1..][j]) {
      assert s[1..][i] == s[i + 1] && s[1..][j] == s[j + 1];
    }
  }

  /** A sorted permutation is unique: the tuple order is total and antisymmetric. */
  lemma {:induction false} SortedUnique(a: seq<Item>, b: seq<Item>)
    requires Sorted(a) && Sorted(b) && multiset(a) == multiset(b)
    ensures a == b
  {
    assert |a| == |multiset(a)| == |multiset(b)| == |b|;
    if a != [] {
      assert a[0] in multiset(a) && b[0] in multiset(b);
      SortedHeadLeast(b, a[0]);
      SortedHeadLeast(a, b[0]);
      assert a[0] == b[0];
      assert a == [a[0]] + a[1..] && b == [b[0]] + b[1..];
      assert multiset(a[1..]) == multiset(b[1..]) by {
        assert multiset(a) == multiset([a[0]]) + multiset(a[1..]);
        assert multiset(b) == multiset([b[0]]) + multiset(b[1..]);
        assert multiset(a[1..]) == multiset(a) - multiset([a[0]]);
        assert multiset(b[1..]) == multiset(b) - multiset([b[0]]);
      }
      SortedTail(a);
      SortedTail(b);
      SortedUnique(a[1..], b[1..]);
    }
  }

  /** Sorting after each append gives the same list as sorting once at the end. */
  lemma SortAppend(s: seq<Item>, x: Item)
    ensures Sort(Sort(s) + [x]) == Sort(s + [x])
  {
    SortedUnique(Sort(Sort(s) + [x]), Sort(s + [x]));
  }

  /** One step of appending xs item by item, re-sorting after each append. */
  lemma SortAppendPrefix(b: seq<Item>, xs: seq<Item>, k: nat)
    requires k < |xs|
    ensures Sort((if k == 0 then b else Sort(b + xs[..k])) + [xs[k]]) == Sort(b + xs[..k + 1])
  {
    assert b + xs[..k + 1] == b + xs[..k] + [xs[k]];
    if k > 0 {
      SortAppend(b + xs[..k], xs[k]);
    } else {
      assert b + xs[..k] == b;
    }
  }

  /** Sum of f over a list. */
  function Sum(s: seq<Item>, f: Measure): nat
  {
    if s == [] then 0 else Of(s[0], f) + Sum(s[1..], f)
  }

  lemma SumCons(x: Item, s: seq<Item>, f: Measure)
    ensures Sum([x] + s, f) == Of(x, f) + Sum(s, f)
  {
    assert ([x] + s)[1..] == s;
  }

  lemma {:induction false} SumConcat(a: seq<Item>, b: seq<Item>, f: Measure)
    ensures Sum(a + b, f) == Sum(a, f) + Sum(b, f)
  {
    if a == [] {
      assert a + b == b;
    } else {
      assert (a + b)[1..] == a[1..] + b;
      SumConcat(a[1..], b, f);
    }
  }

  lemma {:induction false} SumInsert(s: seq<Item>, x: Item, f: Measure)
    ensures Sum(Insert(s, x), f) == Sum(s, f) + Of(x, f)
  {
    if s != [] && !Le(x, s[0]) {
      SumInsert(s[1..], x, f);
    }
  }

  lemma {:induction false} SumSort(s: seq<Item>, f: Measure)
    ensures Sum(Sort(s), f) == Sum(s, f)
  {
    if s != [] {
      var init := s[..|s| - 1];
      assert s == init + [s[|s| - 1]];
      SumSort(init, f);
      SumInsert(Sort(init), s[|s| - 1], f);
      SumConcat(init, [s[|s| - 1]], f);
    }
  }

  /** Appending an item and re-sorting adds f of that item to the sum. */
  lemma SumSortAppend(s: seq<Item>, x: Item, f: Measure)
    ensures Sum(Sort(s + [x]), f) == Sum(s, f) + Of(x, f)
  {
    SumSort(s + [x], f);
    SumConcat(s, [x], f);
  }

  /** Summing over a list that holds the items of two others gives the two sums added. */
  lemma SumMerge(merged: seq<Item>, a: seq<Item>, b: seq<Item>, f: Measure)
    requires multiset(merged) == multiset(a) + multiset(b)
    ensures Sum(merged, f) == Sum(a, f) + Sum(b, f)
  {
    SumPermutation(merged, a + b, f);
    SumConcat(a, b, f);
  }

  /** A sum depends only on the multiset of items summed. */
  lemma SumPermutation(a: seq<Item>, b: seq<Item>, f: Measure)
    requires multiset(a) == multiset(b)
    ensures Sum(a, f) == Sum(b, f)
  {
    SortedUnique(Sort(a), Sort(b));
    SumSort(a, f);
    SumSort(b, f);
  }
}
