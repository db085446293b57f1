/** Worked instances of the engine, pinned down through the uniqueness
    lemmas: whatever satisfies the specification on these inputs has the
    values given here. */
module Worked {
  import opened Symbols
  import opened Calculation

  /** The word "Мир": М, и and р sit at positions 13, 9 and 17 of the
      Russian alphabet, so they map to 5, 1 and 9. */
  lemma {:induction false} IndexesOfMir()
    ensures Indexes("Мир") == [5, 1, 9]
  {
    var text := "Мир";
    assert Lower(text[0]) == 'м' == CyrSymbols[13];
    assert Lower(text[1]) == 'и' == CyrSymbols[9];
    assert Lower(text[2]) == 'р' == CyrSymbols[17];
    assert SymbolMap[CyrSymbols[13]] == 5;
    assert SymbolMap[CyrSymbols[9]] == 1;
    assert SymbolMap[CyrSymbols[17]] == 9;
    IndexesOfLetters(text);
  }

  /** Two numerals 3 and 5 expand to 3, 5, 8, 4, 3, 7, 1, 8. */
  lemma {:induction false} ExpansionOfThreeFive(r: seq<u16>)
    requires IsExpansion([3, 5], r)
    ensures r == [3, 5, 8, 4, 3, 7, 1, 8]
  {
    var expected: seq<u16> := [3, 5, 8, 4, 3, 7, 1, 8];
    forall k | 2 <= k < |expected|
      ensures expected[k] == GetSum(expected[k - 1], expected[k - 2])
    {
    }
    assert expected[..2] == [3, 5];
    ExpansionUnique([3, 5], r, expected);
  }

  /** The rows the engine builds above 3, 5, 8, 4, 3, 7, 1, 8. */
  const ThreeFiveRows: seq<seq<u16>> := [
    [3, 5, 8, 4, 3, 7, 1, 8],
    [8, 4, 3, 7, 1, 8, 9],
    [3, 7, 1, 8, 9, 8],
    [1, 8, 9, 8, 8],
    [9, 8, 8, 7],
    [8, 7, 6],
    [6, 4],
    [1]]

  /** Rows 1 to 3 of `ThreeFiveRows` fold the rows above them. */
  lemma {:induction false} ThreeFiveUpperRows()
    ensures IsNextRow([3, 5, 8, 4, 3, 7, 1, 8], [8, 4, 3, 7, 1, 8, 9])
    ensures IsNextRow([8, 4, 3, 7, 1, 8, 9], [3, 7, 1, 8, 9, 8])
    ensures IsNextRow([3, 7, 1, 8, 9, 8], [1, 8, 9, 8, 8])
  {
    var r0: seq<u16> := [3, 5, 8, 4, 3, 7, 1, 8];
    var r1: seq<u16> := [8, 4, 3, 7, 1, 8, 9];
    var r2: seq<u16> := [3, 7, 1, 8, 9, 8];
    var r3: seq<u16> := [1, 8, 9, 8, 8];
    forall j | 0 <= j < |r1| ensures r1[j] == GetSum(r0[j], r0[j + 1]) { }
    forall j | 0 <= j < |r2| ensures r2[j] == GetSum(r1[j], r1[j + 1]) { }
    forall j | 0 <= j < |r3| ensures r3[j] == GetSum(r2[j], r2[j + 1]) { }
  }

  /** Rows 4 to 7 of `ThreeFiveRows` fold the rows above them. */
  lemma {:induction false} ThreeFiveLowerRows()
    ensures IsNextRow([1, 8, 9, 8, 8], [9, 8, 8, 7])
    ensures IsNextRow([9, 8, 8, 7], [8, 7, 6])
    ensures IsNextRow([8, 7, 6], [6, 4])
    ensures IsNextRow([6, 4], [1])
  {
    var r3: seq<u16> := [1, 8, 9, 8, 8];
    var r4: seq<u16> := [9, 8, 8, 7];
    var r5: seq<u16> := [8, 7, 6];
    var r6: seq<u16> := [6, 4];
    var r7: seq<u16> := [1];
    forall j | 0 <= j < |r4| ensures r4[j] == GetSum(r3[j], r3[j + 1]) { }
    forall j | 0 <= j < |r5| ensures r5[j] == GetSum(r4[j], r4[j + 1]) { }
    forall j | 0 <= j < |r6| ensures r6[j] == GetSum(r5[j], r5[j + 1]) { }
    forall j | 0 <= j < |r7| ensures r7[j] == GetSum(r6[j], r6[j + 1]) { }
  }

  /** `ThreeFiveRows` is the pyramid on the expansion of 3, 5. */
  lemma {:induction false} ThreeFiveRowsArePyramid()
    ensures IsPyramid([3, 5, 8, 4, 3, 7, 1, 8], ThreeFiveRows)
  {
    ThreeFiveUpperRows();
    ThreeFiveLowerRows();
    var p := ThreeFiveRows;
    assert p[0] == [3, 5, 8, 4, 3, 7, 1, 8];
    assert p[1] == [8, 4, 3, 7, 1, 8, 9];
    assert p[2] == [3, 7, 1, 8, 9, 8];
    assert p[3] == [1, 8, 9, 8, 8];
    assert p[4] == [9, 8, 8, 7];
    assert p[5] == [8, 7, 6];
    assert p[6] == [6, 4];
    assert p[7] == [1];
    forall i | 0 <= i < |p|
      ensures |p[i]| == 8 - i && Numerals(p[i])
    {
    }
    forall i | 1 <= i < |p|
      ensures IsNextRow(p[i - 1], p[i])
    {
    }
  }

  /** The pyramid on 3, 5, 8, 4, 3, 7, 1, 8 has the apex 1. */
  lemma {:induction false} ApexOfThreeFive(p: seq<seq<u16>>)
    requires IsPyramid([3, 5, 8, 4, 3, 7, 1, 8], p)
    ensures p[7] == [1]
  {
    ThreeFiveRowsArePyramid();
    PyramidUnique([3, 5, 8, 4, 3, 7, 1, 8], p, ThreeFiveRows);
  }
}
