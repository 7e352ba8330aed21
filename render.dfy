/**
 * Packer.__str__: '-' when nothing was inserted, otherwise the ids of the
 * inserted items, in list order, as decimal numerals joined by ','. ReadBack
 * is the reading a consumer of that output makes; it recovers the ids.
 */
module Render {
  import opened Items

  function DigitChar(d: nat): char
    requires d < 10
  {
    ('0' as int + d) as char
  }

  predicate IsDigit(c: char) { '0' <= c <= '9' }

  /** Python's str(n) for a non-negative int: no sign and no leading zero. */
  function Digits(n: nat): (s: string)
    ensures |s| > 0
    ensures forall k :: 0 <= k < |s| ==> IsDigit(s[k])
    ensures s[0] == '0' ==> n == 0 && s == "0"
  {
    if n < 10 then [DigitChar(n)] else Digits(n / 10) + [DigitChar(n % 10)]
  }

  function DigitValue(c: char): nat
  {
    if IsDigit(c) then c as int - '0' as int else 0
  }

  /** The number a string of decimal digits denotes. */
  function DecimalValue(s: string): nat
  {
    if s == [] then 0 else DecimalValue(s[..|s| - 1]) * 10 + DigitValue(s[|s| - 1])
  }

  lemma {:induction false} DecimalRoundTrip(n: nat)
    ensures DecimalValue(Digits(n)) == n
  {
    if n >= 10 {
      var s := Digits(n);
      assert s[..|s| - 1] == Digits(n / 10);
      DecimalRoundTrip(n / 10);
    }
  }

  function Ids(items: seq<Item>): seq<nat>
  {
    if items == [] then [] else [items[0].id] + Ids(items[1..])
  }

  /** ','.join(str(i) for i in ids), for a non-empty list of ids. */
  function JoinIds(ids: seq<nat>): (s: string)
    requires |ids| > 0
    ensures |s| > 0 && IsDigit(s[0])
  {
    if |ids| == 1 then Digits(ids[0]) else Digits(ids[0]) + [','] + JoinIds(ids[1..])
  }


  /** Splits a string at every ',', as Python's str.split(','). */
  function Split(s: string): (parts: seq<string>)
    ensures |parts| >= 1
  {
    if s == [] then [[]]
    else
      var rest := Split(s[1..]);
      if s[0] == ',' then [[]] + rest else [[s[0]] + rest[0]] + rest[1..]
  }

  function Values(parts: seq<string>): seq<nat>
  {
    if parts == [] then [] else [DecimalValue(parts[0])] + Values(parts[1..])
  }

  /** Reads an output line back into the ids it lists. */
  function ReadBack(s: string): seq<nat>
  {
    if s == "-" then [] else Values(Split(s))
  }

  function Numerals(ids: seq<nat>): seq<string>
  {
    if ids == [] then [] else [Digits(ids[0])] + Numerals(ids[1..])
  }

  lemma DigitsHaveNoComma(n: nat)
    ensures ',' !in Digits(n)
  {
  }

  lemma {:induction false} SplitNoComma(a: string)
    requires ',' !in a
    ensures Split(a) == [a]
  {
    if a != [] {
      SplitNoComma(a[1..]);
      assert a == [a[0]] + a[1..];
    }
  }

  lemma {:induction false} SplitAtComma(a: string, b: string)
    requires ',' !in a
    ensures Split(a + [','] + b) == [a] + Split(b)
  {
    if a == [] {
      assert (a + [','] + b)[1..] == b;
    } else {
      assert (a + [','] + b)[1..] == a[1..] + [','] + b;
      SplitAtComma(a[1..], b);
      assert a == [a[0]] + a[1..];
    }
  }

  lemma {:induction false} SplitJoin(ids: seq<nat>)
    requires |ids| > 0
    ensures Split(JoinIds(ids)) == Numerals(ids)
  {
    DigitsHaveNoComma(ids[0]);
    if |ids| == 1 {
      SplitNoComma(Digits(ids[0]));
    } else {
      SplitAtComma(Digits(ids[0]), JoinIds(ids[1..]));
      SplitJoin(ids[1..]);
    }
  }

  /**
   * The output line for a list of inserted items: '-' exactly when the list is
   * empty, and otherwise pieces between commas that are str of each id in turn.
   */
  function Show(inserted: seq<Item>): (s: string)
    ensures s == "-" <==> inserted == []
    ensures inserted != [] ==> Split(s) == Numerals(Ids(inserted))
  {
    if inserted == [] then "-"
    else
      IdsLength(inserted);
      SplitJoin(Ids(inserted));
      JoinIds(Ids(inserted))
  }

  lemma {:induction false} ValuesOfNumerals(ids: seq<nat>)
    ensures Values(Numerals(ids)) == ids
  {
    if ids != [] {
      DecimalRoundTrip(ids[0]);
      ValuesOfNumerals(ids[1..]);
    }
  }

  lemma {:induction false} IdsLength(items: seq<Item>)
    ensures |Ids(items)| == |items|
  {
    if items != [] { IdsLength(items[1..]); }
  }

  /** The output line lists exactly the ids of the inserted items, in order. */
  lemma ShowReadBack(inserted: seq<Item>)
    ensures ReadBack(Show(inserted)) == Ids(inserted)
  {
    if inserted != [] {
      IdsLength(inserted);
      SplitJoin(Ids(inserted));
      ValuesOfNumerals(Ids(inserted));
    }
  }
}
