/**
 * The Packer class of pack.py: the problem (capacity and available items),
 * the solution it accumulates (inserted items, their count and totals), the
 * constructor's limit checks, the appends that re-sort, and solve with its
 * table and its walk back over the table.
 */
module Pack {
  import opened Wrappers
  import opened Items
  import opened PyList
  import opened Optimum
  import opened Table
  import opened Walk
  import opened Render

  /** Limits of the challenge, in the units of the parsed row (weights scaled by 100). */
  const MaxCapacity: nat := 100 * 100
  const MaxItems: nat := 15
  const MaxItemWeight: nat := 100 * 100
  const MaxItemValue: nat := 100

  /** The APIException the constructor raises, one per check. */
  datatype ApiError = PackageTooHeavy | TooManyItems | ItemOverLimit

  /**
   * The text of each APIException. Each names the limit it enforces: 15 for
   * the item count, 100 (kilograms or euros) for the others.
   */
  function Message(e: ApiError): (m: string)
    ensures |m| > 3
    ensures e == TooManyItems <==> m[|m| - 3..] == " 15"
    ensures e != TooManyItems <==> m[|m| - 3..] == "100"
  {
    match e
    case PackageTooHeavy => "Package weight must not be over 100"
    case TooManyItems => "Package's number of avalable items must not be over 15"
    case ItemOverLimit => "Max weight and cost of an item must not be over 100"
  }

  datatype Result<T> = Ok(value: T) | Err(error: ApiError)

  /** How solve ends: normally, or with Python's IndexError. */
  datatype Status = Done | IndexError

  predicate WithinLimits(it: Item)
  {
    it.weight <= MaxItemWeight && it.value <= MaxItemValue
  }

  /** The constructor's loop over the items: false at the first item over a limit. */
  method ItemsWithinLimits(items: seq<Item>) returns (ok: bool)
    ensures ok <==> forall k :: 0 <= k < |items| ==> WithinLimits(items[k])
  {
    for k := 0 to |items|
      invariant forall m :: 0 <= m < k ==> WithinLimits(items[m])
    {
      if items[k].weight > MaxItemWeight || items[k].value > MaxItemValue {
        return false;
      }
    }
    return true;
  }

  class Packer {
    var insertedItems: seq<Item>
    var numInsertedItems: nat
    var totalWeight: nat
    var totalValue: nat
    var maxWeight: nat
    var availableItems: seq<Item>
    var numAvailableItems: nat

    /** The counters track the lists, and the inserted items stay sorted with their totals. */
    ghost predicate Valid()
      reads this
    {
      && numAvailableItems == |availableItems|
      && numInsertedItems == |insertedItems|
      && Sorted(insertedItems)
      && totalWeight == Sum(insertedItems, Weight)
      && totalValue == Sum(insertedItems, Value)
    }

    /** Packer() without a row: capacity 10000 and nothing available or inserted. */
    constructor ()
      ensures Valid()
      ensures maxWeight == 10000 && availableItems == [] && numAvailableItems == 0
      ensures insertedItems == [] && numInsertedItems == 0 && totalWeight == 0 && totalValue == 0
    {
      insertedItems, numInsertedItems, totalWeight, totalValue := [], 0, 0, 0;
      maxWeight, availableItems, numAvailableItems := 10000, [], 0;
    }

    /** What Packer(row) stores once the row has passed the checks: the items as given, unsorted. */
    constructor Load(capacity: nat, items: seq<Item>)
      ensures Valid()
      ensures maxWeight == capacity && availableItems == items && numAvailableItems == |items|
      ensures insertedItems == [] && numInsertedItems == 0 && totalWeight == 0 && totalValue == 0
    {
      insertedItems, numInsertedItems, totalWeight, totalValue := [], 0, 0, 0;
      maxWeight, availableItems, numAvailableItems := capacity, items, |items|;
    }

    /**
     * Packer(row) on a parsed row: the checks run in pack.py's order
     * (capacity, then number of items, then each item) and the first that
     * fails is the error.
     */
    static method FromRow(capacity: nat, items: seq<Item>) returns (r: Result<Packer>)
      ensures capacity > MaxCapacity ==> r == Err(PackageTooHeavy)
      ensures capacity <= MaxCapacity && |items| > MaxItems ==> r == Err(TooManyItems)
      ensures capacity <= MaxCapacity && |items| <= MaxItems
              && (exists k :: 0 <= k < |items| && !WithinLimits(items[k]))
              ==> r == Err(ItemOverLimit)
      ensures r.Ok? <==> capacity <= MaxCapacity && |items| <= MaxItems
                         && forall k :: 0 <= k < |items| ==> WithinLimits(items[k])
      ensures r.Ok? ==> fresh(r.value) && r.value.Valid()
      ensures r.Ok? ==> r.value.maxWeight == capacity && r.value.availableItems == items
      ensures r.Ok? ==> r.value.insertedItems == [] && r.value.totalWeight == 0 && r.value.totalValue == 0
    {
      if capacity > MaxCapacity {
        return Err(PackageTooHeavy);
      }
      if |items| > MaxItems {
        return Err(TooManyItems);
      }
      var ok := ItemsWithinLimits(items);
      if !ok {
        return Err(ItemOverLimit);
      }
      var p := new Packer.Load(capacity, items);
      return Ok(p);
    }

    /** available_append: append, re-sort, count. */
    method AvailableAppend(item: Item)
      requires Valid()
      modifies this`availableItems, this`numAvailableItems
      ensures Valid()
      ensures availableItems == Sort(old(availableItems) + [item])
      ensures Sorted(availableItems)
      ensures multiset(availableItems) == multiset(old(availableItems)) + multiset{item}
      ensures numAvailableItems == old(numAvailableItems) + 1
    {
      availableItems := Sort(availableItems + [item]);
      numAvailableItems := numAvailableItems + 1;
    }

    /** inserted_append: append, re-sort, count, and add to both totals. */
    method InsertedAppend(item: Item)
      requires Valid()
      modifies this`insertedItems, this`numInsertedItems, this`totalWeight, this`totalValue
      ensures Valid()
      ensures multiset(insertedItems) == multiset(old(insertedItems)) + multiset{item}
      ensures numInsertedItems == old(numInsertedItems) + 1
      ensures totalWeight == old(totalWeight) + item.weight
      ensures totalValue == old(totalValue) + item.value
    {
      SumSortAppend(insertedItems, item, Weight);
      SumSortAppend(insertedItems, item, Value);
      insertedItems := Sort(insertedItems + [item]);
      numInsertedItems := numInsertedItems + 1;
      totalWeight := totalWeight + item.weight;
      totalValue := totalValue + item.value;
    }

    /**
     * The table loops of solve, with Python's subscripts: at i = 0 the item
     * is available_items[-1] and the row read is A[-1]. With no items the
     * first subscript raises IndexError.
     */
    method BuildTable() returns (A: array2<int>, status: Status)
      requires Valid()
      ensures fresh(A)
      ensures status == IndexError <==> availableItems == []
      ensures status == Done ==> A.Length0 == |availableItems| + 1 && A.Length1 == maxWeight + 1
      ensures status == Done ==> forall i, j {:trigger A[i, j]} :: 0 <= i < A.Length0 && 0 <= j < A.Length1
                                   ==> A[i, j] == Cell(availableItems, i, j)
    {
      var n := numAvailableItems;
      var items := availableItems;
      A := new int[n + 1, maxWeight + 1]((r, c) => 0);
      for i := 0 to n + 1
        invariant i > 0 ==> n > 0
        invariant forall r, c {:trigger A[r, c]} :: 0 <= r < i && 0 <= c <= maxWeight ==> A[r, c] == Cell(items, r, c)
        invariant forall r, c :: i <= r <= n && 0 <= c <= maxWeight ==> A[r, c] == 0
      {
        for j := 0 to maxWeight + 1
          invariant j > 0 ==> n > 0
          invariant forall r, c {:trigger A[r, c]} :: 0 <= r < i && 0 <= c <= maxWeight ==> A[r, c] == Cell(items, r, c)
          invariant forall c {:trigger A[i, c]} :: 0 <= c < j ==> A[i, c] == Cell(items, i, c)
          invariant forall r, c :: i < r <= n && 0 <= c <= maxWeight ==> A[r, c] == 0
        {
          var k := PyIndex(i - 1, n);
          if k.None? {
            return A, IndexError;
          }
          var it := items[k.value];
          var prev := PyIndex(i - 1, n + 1).value;
          if it.weight > j {
            A[i, j] := A[prev, j];
          } else {
            A[i, j] := Max(A[prev, j], A[prev, PyIndex(j - it.weight, maxWeight + 1).value] + it.value);
          }
        }
      }
      status := Done;
    }

    /** The test of compute_items' loop, read from the table A at row i with budget j. */
    method TestRow(A: array2<int>, i: nat, j: int) returns (t: Turn)
      requires 0 < i <= |availableItems|
      requires A.Length0 == |availableItems| + 1 && A.Length1 == maxWeight + 1
      requires forall r, c {:trigger A[r, c]} :: 0 <= r < A.Length0 && 0 <= c < A.Length1
                 ==> A[r, c] == Cell(availableItems, r, c)
      ensures t == TurnAt(availableItems, maxWeight, i, j)
    {
      var it := availableItems[i - 1];
      if it.weight > maxWeight {
        return Skip;
      }
      var here := PyIndex(j, maxWeight + 1);
      var there := PyIndex(j - it.weight, maxWeight + 1);
      if here.None? || there.None? {
        return Raise;
      }
      t := if A[i, here.value] - A[i - 1, there.value] == it.value then Pick else Skip;
    }

    /**
     * compute_items: walk back from A[n][max_weight], appending every item
     * the test picks; an IndexError stops the walk and keeps what was appended.
     */
    method ComputeItems(A: array2<int>) returns (status: Status)
      requires Valid() && availableItems != []
      requires A.Length0 == |availableItems| + 1 && A.Length1 == maxWeight + 1
      requires forall i, j {:trigger A[i, j]} :: 0 <= i < A.Length0 && 0 <= j < A.Length1
                 ==> A[i, j] == Cell(availableItems, i, j)
      modifies this`insertedItems, this`numInsertedItems, this`totalWeight, this`totalValue
      ensures Valid()
      ensures var t := WalkFrom(availableItems, maxWeight, |availableItems|, maxWeight);
        && (status == IndexError <==> t.indexError)
        && multiset(insertedItems) == multiset(old(insertedItems)) + multiset(t.picked)
    {
      var items := availableItems;
      var i := numAvailableItems;
      var j: int := maxWeight;
      ghost var full := WalkFrom(items, maxWeight, |items|, maxWeight);
      ghost var picked: seq<Item> := [];
      assert full == Resume(picked, full);
      status := Done;
      while i > 0
        invariant 0 <= i <= |items|
        invariant forall r, c {:trigger A[r, c]} :: 0 <= r < A.Length0 && 0 <= c < A.Length1 ==> A[r, c] == Cell(items, r, c)
        invariant Valid()
        invariant full == Resume(picked, WalkFrom(items, maxWeight, i, j))
        invariant multiset(insertedItems) == multiset(old(insertedItems)) + multiset(picked)
      {
        var turn := TestRow(A, i, j);
        ResumeTurn(items, maxWeight, i, j, picked);
        if turn == Raise {
          status := IndexError;
          break;
        }
        if turn == Pick {
          InsertedAppend(items[i - 1]);
          picked := picked + [items[i - 1]];
          j := j - items[i - 1].weight;
        }
        i := i - 1;
      }
      assert full.picked == picked && (status == IndexError <==> full.indexError);
    }

    /**
     * solve: build the table, then walk it. Nothing is cleared first, so a
     * second solve appends its selection to the first.
     */
    method Solve() returns (status: Status)
      requires Valid()
      modifies this`insertedItems, this`numInsertedItems, this`totalWeight, this`totalValue
      ensures Valid()
      ensures availableItems == [] ==> status == IndexError && insertedItems == old(insertedItems)
                                       && totalWeight == old(totalWeight) && totalValue == old(totalValue)
      ensures availableItems != [] ==>
        var t := WalkFrom(availableItems, maxWeight, |availableItems|, maxWeight);
        && (status == IndexError <==> t.indexError)
        && multiset(insertedItems) == multiset(old(insertedItems)) + multiset(t.picked)
        && numInsertedItems == old(numInsertedItems) + |t.picked|
        && totalWeight == old(totalWeight) + Sum(t.picked, Weight)
        && totalValue == old(totalValue) + Sum(t.picked, Value)
    {
      var A, built := BuildTable();
      if built == IndexError {
        return IndexError;
      }
      status := ComputeItems(A);
      ghost var picked := WalkFrom(availableItems, maxWeight, |availableItems|, maxWeight).picked;
      assert |insertedItems| == |multiset(insertedItems)| == |old(insertedItems)| + |picked|;
      SumMerge(insertedItems, old(insertedItems), picked, Weight);
      SumMerge(insertedItems, old(insertedItems), picked, Value);
    }

    /** The loop of pack: available_append each item in turn. */
    method AppendAll(items: seq<Item>)
      requires Valid()
      modifies this`availableItems, this`numAvailableItems
      ensures Valid()
      ensures items != [] ==> availableItems == Sort(old(availableItems) + items)
      ensures items == [] ==> availableItems == old(availableItems)
    {
      for k := 0 to |items|
        invariant Valid()
        invariant k > 0 ==> availableItems == Sort(old(availableItems) + items[..k])
        invariant k == 0 ==> availableItems == old(availableItems)
      {
        SortAppendPrefix(old(availableItems), items, k);
        AvailableAppend(items[k]);
      }
      assert items[..|items|] == items;
    }

    /** pack: set the capacity, append every item (each append re-sorts), then solve. */
    method Pack(capacity: nat, items: seq<Item>) returns (status: Status)
      requires Valid()
      modifies this
      ensures Valid()
      ensures maxWeight == capacity
      ensures multiset(availableItems) == multiset(old(availableItems)) + multiset(items)
      ensures items != [] ==> availableItems == Sort(old(availableItems) + items)
      ensures items != [] ==> Sorted(availableItems)
      ensures items == [] ==> availableItems == old(availableItems)
      ensures availableItems == [] ==> status == IndexError && insertedItems == old(insertedItems)
                                       && totalWeight == old(totalWeight) && totalValue == old(totalValue)
      ensures availableItems != [] ==>
        var t := WalkFrom(availableItems, capacity, |availableItems|, capacity);
        && (status == IndexError <==> t.indexError)
        && multiset(insertedItems) == multiset(old(insertedItems)) + multiset(t.picked)
        && numInsertedItems == old(numInsertedItems) + |t.picked|
        && totalWeight == old(totalWeight) + Sum(t.picked, Weight)
        && totalValue == old(totalValue) + Sum(t.picked, Value)
    {
      maxWeight := capacity;
      AppendAll(items);
      assert multiset(availableItems) == multiset(old(availableItems)) + multiset(items);
      status := Solve();
    }

    /** __str__: '-' when nothing is inserted, otherwise the inserted ids joined by ','. */
    function ToString(): (s: string)
      reads this
      ensures s == "-" <==> insertedItems == []
      ensures insertedItems != [] ==> Split(s) == Numerals(Ids(insertedItems))
      ensures ReadBack(s) == Ids(insertedItems)
    {
      ShowReadBack(insertedItems);
      Show(insertedItems)
    }
  }
}
