/** The numeral engine: text is mapped through the symbol table, padded,
    expanded to at least eight numerals, and narrowed row by row into a
    triangular pyramid. */
module Calculation {
  import opened Symbols

  datatype Result<T, E> = Ok(value: T) | Err(error: E)

  function Max(a: int, b: int): int {
    if a < b then b else a
  }

  /** A numeral the engine produces: 0 (only from padding) to 9. */
  predicate Numerals(s: seq<u16>) {
    forall k | 0 <= k < |s| :: s[k] <= 9
  }

  /** No zero among the numerals. */
  predicate Positive(s: seq<u16>) {
    forall k | 0 <= k < |s| :: 1 <= s[k]
  }

  /** `get_sum`: the u16 sum folded back by nine once it exceeds nine. The
      addition must not overflow (Rust panics on it in a debug build). The
      result is congruent to the sum modulo 9, and for numerals it is again a
      numeral, zero only when both summands are. */
  function GetSum(a: u16, b: u16): (r: u16)
    requires a as int + b as int < 0x1_0000
    ensures (r as int) % 9 == (a as int + b as int) % 9
    ensures a <= 9 && b <= 9 ==> r <= 9 && (r == 0 <==> a == 0 && b == 0)
  {
    var sum := a + b;
    if sum > 9 then sum - 9 else sum
  }

  /** On 1..9 the fold stays in 1..9: the plain sum up to 9, the sum less
      nine beyond. */
  lemma GetSumOnDigits(a: u16, b: u16)
    requires 1 <= a <= 9 && 1 <= b <= 9
    ensures 1 <= GetSum(a, b) <= 9
    ensures GetSum(a, b) as int == if a + b <= 9 then a as int + b as int else a as int + b as int - 9
  {
  }

  /** The order of the summands does not matter. */
  lemma GetSumCommutative(a: u16, b: u16)
    requires a as int + b as int < 0x1_0000
    ensures GetSum(a, b) == GetSum(b, a)
  {
  }

  /** On 1..9 the fold is the digital root of the sum: the unique value in
      1..9 congruent to it modulo 9. */
  lemma GetSumIsDigitalRoot(a: u16, b: u16)
    requires 1 <= a <= 9 && 1 <= b <= 9
    ensures GetSum(a, b) as int == 1 + (a as int + b as int - 1) % 9
  {
  }

  /** The table entry of one character after lower-casing, if any: a
      single numeral in 1..9, or nothing. */
  function Mapped(c: char): (s: seq<u16>)
    ensures |s| <= 1
    ensures Positive(s) && Numerals(s)
  {
    var lower := Lower(c);
    if lower in SymbolMap then [SymbolMap[lower]] else []
  }

  /** A character has an entry exactly when its lower-case form is a letter
      of one of the two alphabets. */
  lemma MappedIffLetter(c: char)
    ensures Mapped(c) != [] <==> Lower(c) in CyrSymbols || Lower(c) in LatSymbols
  {
    SymbolMapKeys();
  }

  /** The initial `indexes`: the entries of the lower-cased characters of
      `text` in input order, characters without an entry skipped. All of them
      lie in 1..9. */
  function Indexes(text: string): (s: seq<u16>)
    ensures |s| <= |text|
    ensures Positive(s) && Numerals(s)
  {
    if text == [] then []
    else Indexes(text[..|text| - 1]) + Mapped(text[|text| - 1])
  }

  /** Mapping distributes over concatenation: every character contributes
      its own entry, independently of its neighbours, and order is kept. */
  lemma {:induction false} IndexesAppend(a: string, b: string)
    ensures Indexes(a + b) == Indexes(a) + Indexes(b)
    decreases |b|
  {
    if b == [] {
      assert a + b == a;
    } else {
      var b0, last := b[..|b| - 1], b[|b| - 1];
      assert (a + b)[..|a + b| - 1] == a + b0;
      assert (a + b)[|a + b| - 1] == last;
      assert Indexes(a + b) == Indexes(a + b0) + Mapped(last);
      IndexesAppend(a, b0);
      assert Indexes(b) == Indexes(b0) + Mapped(last);
    }
  }

  /** When every character of `text` has an entry, each one yields its own
      numeral at its own position. */
  lemma {:induction false} IndexesOfLetters(text: string)
    requires forall k | 0 <= k < |text| :: Lower(text[k]) in SymbolMap
    ensures |Indexes(text)| == |text|
    ensures forall k | 0 <= k < |text| :: Indexes(text)[k] == SymbolMap[Lower(text[k])]
  {
    if text != [] {
      var init, last := text[..|text| - 1], text[|text| - 1];
      IndexesOfLetters(init);
      assert Mapped(last) == [SymbolMap[Lower(last)]];
      assert Indexes(text) == Indexes(init) + [SymbolMap[Lower(last)]];
      forall k | 0 <= k < |text| ensures Indexes(text)[k] == SymbolMap[Lower(text[k])] {
        if k < |init| {
          assert text[k] == init[k];
        }
      }
    }
  }

  /** The fold over the characters of `text` into `indexes`. */
  method MapSymbols(text: string) returns (indexes: seq<u16>)
    ensures indexes == Indexes(text)
  {
    indexes := [];
    for i := 0 to |text|
      invariant indexes == Indexes(text[..i])
    {
      assert text[..i + 1][..i] == text[..i];
      var lower := Lower(text[i]);
      if lower in SymbolMap {
        indexes := indexes + [SymbolMap[lower]];
      }
    }
    assert text[..|text|] == text;
  }

  /** The numerals after padding: two zeros are appended when fewer than two
      characters mapped. */
  ghost function Padded(s: seq<u16>): (r: seq<u16>)
    ensures |s| < 2 ==> |r| == |s| + 2
    ensures |s| >= 2 ==> r == s
    ensures r[..|s|] == s
    ensures forall k | |s| <= k < |r| :: r[k] == 0
  {
    if |s| < 2 then s + [0, 0] else s
  }

  /** `r` is what the expansion loop makes of `s`: its length is the larger
      of 8 and `|s|`, it starts with `s`, and every appended numeral is the
      fold of the two before it. */
  ghost predicate IsExpansion(s: seq<u16>, r: seq<u16>)
    requires |s| >= 2
  {
    && |r| == Max(8, |s|)
    && r[..|s|] == s
    && Numerals(r)
    && forall k | |s| <= k < |r| :: r[k] == GetSum(r[k - 1], r[k - 2])
  }

  /** The expansion loop: append the fold of the last two numerals until
      there are eight. A sequence of eight or more is left as it is, and no
      zero appears unless `s` has one. */
  method Expand(s: seq<u16>) returns (r: seq<u16>)
    requires |s| >= 2 && Numerals(s)
    ensures IsExpansion(s, r)
    ensures |s| >= 8 ==> r == s
    ensures Positive(s) ==> Positive(r)
  {
    r := s;
    while |r| < 8
      invariant |s| <= |r| <= Max(8, |s|)
      invariant r[..|s|] == s
      invariant Numerals(r)
      invariant Positive(s) ==> Positive(r)
      invariant forall k | |s| <= k < |r| :: r[k] == GetSum(r[k - 1], r[k - 2])
    {
      var last, secondLast := r[|r| - 1], r[|r| - 2];
      r := r + [GetSum(last, secondLast)];
    }
  }

  /** At most one sequence is an expansion of `s`. */
  lemma {:induction false} ExpansionUnique(s: seq<u16>, r1: seq<u16>, r2: seq<u16>)
    requires |s| >= 2 && IsExpansion(s, r1) && IsExpansion(s, r2)
    ensures r1 == r2
  {
    forall k | 0 <= k < |r1| ensures r1[k] == r2[k] {
      ExpansionAgreesUpTo(s, r1, r2, k);
    }
  }

  lemma {:induction false} ExpansionAgreesUpTo(s: seq<u16>, r1: seq<u16>, r2: seq<u16>, k: nat)
    requires |s| >= 2 && IsExpansion(s, r1) && IsExpansion(s, r2) && k < |r1|
    ensures r1[k] == r2[k]
  {
    if k < |s| {
      assert r1[k] == r1[..|s|][k] && r2[k] == r2[..|s|][k];
    } else {
      ExpansionAgreesUpTo(s, r1, r2, k - 1);
      ExpansionAgreesUpTo(s, r1, r2, k - 2);
    }
  }

  /** `row` is the pairwise fold of `prev`: one numeral shorter, each
      numeral the fold of the two above it. */
  ghost predicate IsNextRow(prev: seq<u16>, row: seq<u16>)
    requires Numerals(prev)
  {
    && |row| == |prev| - 1
    && forall j | 0 <= j < |row| :: row[j] == GetSum(prev[j], prev[j + 1])
  }

  /** `p` is the pyramid built on `base`: one row per numeral of the base
      (one empty row for an empty base), row 0 the base itself, row `i`
      `|base| - i` numerals long, each numeral the fold of the two above it. */
  ghost predicate IsPyramid(base: seq<u16>, p: seq<seq<u16>>) {
    && |p| == Max(1, |base|)
    && p[0] == base
    && (forall i | 0 <= i < |p| :: |p[i]| == |base| - i && Numerals(p[i]))
    && forall i | 1 <= i < |p| :: IsNextRow(p[i - 1], p[i])
  }

  /** The pyramid loop: each new row is the pairwise fold of the one before. */
  method BuildPyramid(indexes: seq<u16>) returns (result: seq<seq<u16>>)
    requires Numerals(indexes)
    ensures IsPyramid(indexes, result)
    ensures |indexes| >= 1 ==> |result[|result| - 1]| == 1
    ensures Positive(indexes) ==> forall i | 0 <= i < |result| :: Positive(result[i])
  {
    var size := |indexes|;
    result := [indexes];
    var index := 1;
    while index < size
      invariant 1 <= index <= Max(1, size)
      invariant |result| == index && result[0] == indexes
      invariant forall i | 0 <= i < index :: |result[i]| == size - i && Numerals(result[i])
      invariant Positive(indexes) ==> forall i | 0 <= i < index :: Positive(result[i])
      invariant forall i | 1 <= i < index :: IsNextRow(result[i - 1], result[i])
    {
      var previous := result[index - 1];
      var row: seq<u16> := [];
      for j := 0 to |previous| - 1
        invariant |row| == j && Numerals(row)
        invariant Positive(previous) ==> Positive(row)
        invariant forall k | 0 <= k < j :: row[k] == GetSum(previous[k], previous[k + 1])
      {
        row := row + [GetSum(previous[j], previous[j + 1])];
      }
      result := result + [row];
      index := index + 1;
    }
  }

  /** At most one pyramid is built on `base`. */
  lemma {:induction false} PyramidUnique(base: seq<u16>, p: seq<seq<u16>>, q: seq<seq<u16>>)
    requires IsPyramid(base, p) && IsPyramid(base, q)
    ensures p == q
  {
    forall i | 0 <= i < |p| ensures p[i] == q[i] {
      PyramidRowsAgree(base, p, q, i);
    }
  }

  lemma {:induction false} PyramidRowsAgree(base: seq<u16>, p: seq<seq<u16>>, q: seq<seq<u16>>, i: nat)
    requires IsPyramid(base, p) && IsPyramid(base, q) && i < |p|
    ensures p[i] == q[i]
  {
    if i > 0 {
      PyramidRowsAgree(base, p, q, i - 1);
      assert IsNextRow(p[i - 1], p[i]) && IsNextRow(q[i - 1], q[i]);
      forall j | 0 <= j < |p[i]| ensures p[i][j] == q[i][j] {
        assert p[i][j] == GetSum(p[i - 1][j], p[i - 1][j + 1]);
      }
    }
  }

  /** `calculate_mandala`: it never fails. The pyramid it returns has one row
      per numeral of the expanded sequence, which has length `max(8, n)` for
      the `n` numerals of the padded input; row 0 is that expanded sequence
      and the last row has one numeral. Every numeral lies in 0..9, and none
      is zero exactly when at least two characters of `text` mapped. */
  method CalculateMandala(text: string) returns (r: Result<seq<seq<u16>>, string>)
    ensures r.Ok?
    ensures |r.value| == Max(8, |Padded(Indexes(text))|) && |r.value[|r.value| - 1]| == 1
    ensures IsExpansion(Padded(Indexes(text)), r.value[0])
    ensures IsPyramid(r.value[0], r.value)
    ensures (forall i | 0 <= i < |r.value| :: Positive(r.value[i])) <==> |Indexes(text)| >= 2
  {
    var indexes := MapSymbols(text);
    ghost var mapped := indexes;
    if |indexes| < 2 {
      indexes := indexes + [0, 0];
    }
    assert indexes == Padded(mapped);
    indexes := Expand(indexes);
    var result := BuildPyramid(indexes);
    if |mapped| < 2 {
      assert result[0][|mapped|] == Padded(mapped)[|mapped|] == 0;
    }
    r := Ok(result);
  }
}
