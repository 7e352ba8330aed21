/**
 * Concrete rows worked through the model's definitions: the two solve cases of the test
 * suite, a second solve on the same Packer, and the inputs that show where
 * the table's row 0 and the fit test against the capacity go wrong.
 */
module Scenarios {
  import opened Items
  import opened Optimum
  import opened Table
  import opened Walk
  import opened Intended
  import opened Render
  import opened Pack

  /** The parsed row '50 : (1,10,€60) (2,20,€100) (3,30,€100)'. */
  function ChallengeItems(): seq<Item>
  {
    [Item(1, 1000, 60), Item(2, 2000, 100), Item(3, 3000, 100)]
  }

  /** On that row the walk picks item 3, then item 2, and ends with j = 0. */
  lemma ChallengeWalk()
    ensures WalkFrom(ChallengeItems(), 5000, 3, 5000)
            == Trace([Item(3, 3000, 100), Item(2, 2000, 100)], 0, false)
  {
    var items := ChallengeItems();
    assert Cell(items, 1, 0) == 0;
    assert Cell(items, 0, 4001) == 100;
    assert Cell(items, 2, 2000) == 100;
    assert Cell(items, 3, 5000) == 200;
  }

  /** The output lines for the selections of one and of two solves. */
  lemma ShowChallenge()
    ensures Show([Item(2, 2000, 100), Item(3, 3000, 100)]) == "2,3"
    ensures Show([Item(2, 2000, 100), Item(2, 2000, 100), Item(3, 3000, 100), Item(3, 3000, 100)]) == "2,2,3,3"
  {
    assert Digits(2) == "2" && Digits(3) == "3";
    assert Ids([Item(2, 2000, 100), Item(3, 3000, 100)]) == [2, 3];
    assert Ids([Item(2, 2000, 100), Item(2, 2000, 100), Item(3, 3000, 100), Item(3, 3000, 100)]) == [2, 2, 3, 3];
    assert JoinIds([3]) == "3";
    assert JoinIds([2, 3]) == "2,3";
    assert JoinIds([3, 3]) == "3,3";
    assert JoinIds([2, 3, 3]) == "2,3,3";
  }

  /** The selection of one solve, in the order the re-sorts leave it. */
  lemma OnceInOrder(s: seq<Item>)
    requires Sorted(s)
    requires multiset(s) == multiset{Item(3, 3000, 100), Item(2, 2000, 100)}
    ensures s == [Item(2, 2000, 100), Item(3, 3000, 100)]
  {
    var expected := [Item(2, 2000, 100), Item(3, 3000, 100)];
    assert multiset(expected) == multiset(s);
    SortedUnique(s, expected);
  }

  /** The selection of two solves, in the order the re-sorts leave it. */
  lemma TwiceInOrder(s: seq<Item>)
    requires Sorted(s)
    requires multiset(s) == multiset{Item(3, 3000, 100), Item(2, 2000, 100)}
                            + multiset{Item(3, 3000, 100), Item(2, 2000, 100)}
    ensures s == [Item(2, 2000, 100), Item(2, 2000, 100), Item(3, 3000, 100), Item(3, 3000, 100)]
  {
    var expected := [Item(2, 2000, 100), Item(2, 2000, 100), Item(3, 3000, 100), Item(3, 3000, 100)];
    forall a, b | 0 <= a < b < 4
      ensures Le(expected[a], expected[b])
    {
      assert expected[a].id <= expected[b].id;
    }
    assert multiset(expected) == multiset(s);
    SortedUnique(s, expected);
  }

  /** After Packer(row).solve() on that row, str of the Packer is '2,3'. */
  method SolveChallenge() returns (s: string)
    ensures s == "2,3"
  {
    var p := new Packer.Load(5000, ChallengeItems());
    ChallengeWalk();
    var status := p.Solve();
    OnceInOrder(p.insertedItems);
    ShowChallenge();
    s := p.ToString();
  }

  /** A second solve appends its selection again: str of the Packer is then '2,2,3,3'. */
  method SolveChallengeTwice() returns (s: string)
    ensures s == "2,2,3,3"
  {
    var p := new Packer.Load(5000, ChallengeItems());
    ChallengeWalk();
    var status := p.Solve();
    status := p.Solve();
    TwiceInOrder(p.insertedItems);
    ShowChallenge();
    s := p.ToString();
  }

  /** After Packer('8 : (1,15.3,€34)').solve() the only item is over the capacity, so str of the Packer is '-'. */
  method SolveTooHeavy() returns (s: string)
    ensures s == "-"
  {
    var p := new Packer.Load(800, [Item(1, 1530, 34)]);
    var status := p.Solve();
    assert WalkFrom([Item(1, 1530, 34)], 800, 1, 800).picked == [];
    s := p.ToString();
  }

  /**
   * Row 0 holds the last item, so A[n][max_weight] can count it twice: one
   * item of weight 3000 and value 100 gives 200 at capacity 6000, while the
   * walk picks the item once.
   */
  lemma LastItemCountedTwice()
    ensures var items := [Item(1, 3000, 100)];
      && Cell(items, 1, 6000) == 200
      && WalkFrom(items, 6000, 1, 6000).picked == items
      && Sum(items, Value) == 100
  {
    var items := [Item(1, 3000, 100)];
    assert Cell(items, 0, 3000) == 100;
    assert Cell(items, 1, 6000) == 200;
  }

  /**
   * The as-written selection is not always the best: at capacity 1000 with
   * (1,500,3) and (2,500,10) the walk keeps only item 2 (value 10), while
   * both items fit together (weight 1000, value 13), which is what the
   * intended walk picks.
   */
  lemma RowZeroLosesOptimum()
    ensures var items := [Item(1, 500, 3), Item(2, 500, 10)];
      && WalkFrom(items, 1000, 2, 1000).picked == [Item(2, 500, 10)]
      && Sum(WalkFrom(items, 1000, 2, 1000).picked, Value) == 10
      && SelSum(items, [true, true], Weight) == 1000
      && SelSum(items, [true, true], Value) == 13
      && IntendedWalk(items, 2, 1000) == [Item(2, 500, 10), Item(1, 500, 3)]
  {
    var items := [Item(1, 500, 3), Item(2, 500, 10)];
    assert Cell(items, 1, 500) == 10;
    assert Cell(items, 2, 1000) == 20;
    assert Cell(items, 0, 0) == 0;
    assert Knap(items, 1, 500) == 3;
    assert Knap(items, 2, 1000) == 13;
    assert [true, true][..1] == [true];
  }

  /**
   * A zero-valued item passes the test A[i][j] - A[i-1][j-w] == 0 once j is
   * below its weight, because j - w wraps to the end of the row: at capacity
   * 1000 with (1,600,0) and (2,800,10) the walk picks both, 1400 in weight,
   * and ends with j = -400. The intended walk picks item 2 alone.
   */
  lemma ZeroValueOverfills()
    ensures var items := [Item(1, 600, 0), Item(2, 800, 10)];
      && WalkFrom(items, 1000, 2, 1000) == Trace([Item(2, 800, 10), Item(1, 600, 0)], -400, false)
      && Sum(WalkFrom(items, 1000, 2, 1000).picked, Weight) == 1400
      && IntendedWalk(items, 2, 1000) == [Item(2, 800, 10)]
  {
    var items := [Item(1, 600, 0), Item(2, 800, 10)];
    assert Cell(items, 1, 200) == 0;
    assert Cell(items, 0, 601) == 0;
    assert Cell(items, 1, 1000) == 10;
    assert Cell(items, 2, 1000) == 10;
    assert Knap(items, 1, 200) == 0;
    assert Knap(items, 2, 1000) == 10;
  }

  /**
   * The four rows the constraint tests reject, each with the message it
   * raises: capacity 120, sixteen items, an item worth 120, an item weighing 300.
   */
  method ConstraintRows() returns (messages: seq<string>)
    ensures messages == ["Package weight must not be over 100",
                         "Package's number of avalable items must not be over 15",
                         "Max weight and cost of an item must not be over 100",
                         "Max weight and cost of an item must not be over 100"]
  {
    var base := [Item(1, 1000, 60), Item(2, 2000, 100)];
    var r1 := Packer.FromRow(12000, base + [Item(3, 3000, 100)]);
    var r2 := Packer.FromRow(5000, base + seq(14, k => Item(3, 3000, 100)));
    var r3 := Packer.FromRow(5000, base + [Item(3, 3000, 120)]);
    assert !WithinLimits((base + [Item(3, 3000, 120)])[2]);
    var r4 := Packer.FromRow(5000, base + [Item(3, 30000, 100)]);
    assert !WithinLimits((base + [Item(3, 30000, 100)])[2]);
    messages := [Message(r1.error), Message(r2.error), Message(r3.error), Message(r4.error)];
  }
}
