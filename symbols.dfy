/** The symbol table of the mandala calculator: two alphabets, each paired
    with the endless cycle 1, 2, ..., 9, 1, 2, ..., merged into one map from
    a (lower-case) letter to its numeral. */
module Symbols {

  /** Rust's `u16`: every numeral the calculator handles has this type. */
  newtype u16 = x: int | 0 <= x < 0x1_0000

  /** The code point of the Cyrillic letter at position `k`: а to е are
      U+0430 to U+0435, ё is U+0451, and ж to я are U+0436 to U+044F. */
  function CyrCode(k: int): int {
    if k < 6 then 0x430 + k else if k == 6 then 0x451 else 0x42F + k
  }

  /** The 33-letter Russian alphabet, in its traditional order (ё after е). */
  const CyrSymbols: string := "абвгдеёжзийклмнопрстуфхцчшщъыьэюя"

  /** The 26-letter Latin alphabet. */
  const LatSymbols: string := "abcdefghijklmnopqrstuvwxyz"

  /** The upper-case forms of the two alphabets, position by position. */
  const CyrUpper: string := "АБВГДЕЁЖЗИЙКЛМНОПРСТУФХЦЧШЩЪЫЬЭЮЯ"
  const LatUpper: string := "ABCDEFGHIJKLMNOPQRSTUVWXYZ"

  /** Item `k` (0-based) of the index generator, the endless cycle 1..9:
      the first nine items are 1 to 9 and every later one repeats the item
      nine places before it. */
  function CycleAt(k: nat): (v: u16)
    ensures 1 <= v <= 9
    ensures k < 9 ==> v as int == k + 1
    ensures k >= 9 ==> v == CycleAt(k - 9)
  {
    (k % 9 + 1) as u16
  }

  /** `s.chars().zip(index_generator())`: each letter with the cycle item at
      its own position (the cycle never runs out, so the zip is as long as `s`). */
  function Zip(s: string): (pairs: seq<(char, u16)>)
    ensures |pairs| == |s|
    ensures forall k | 0 <= k < |s| :: pairs[k] == (s[k], CycleAt(k))
  {
    if s == [] then []
    else Zip(s[..|s| - 1]) + [(s[|s| - 1], CycleAt(|s| - 1))]
  }

  /** `collect()` into a hash map: pairs are inserted in order, so a later
      pair with the same key replaces an earlier one. */
  function Collect(pairs: seq<(char, u16)>): map<char, u16> {
    if pairs == [] then map[]
    else Collect(pairs[..|pairs| - 1])[pairs[|pairs| - 1].0 := pairs[|pairs| - 1].1]
  }

  /** The keys of a collected sequence are exactly its first components. */
  lemma {:induction false} CollectDomain(pairs: seq<(char, u16)>)
    ensures Collect(pairs).Keys == set k | 0 <= k < |pairs| :: pairs[k].0
  {
    if pairs != [] {
      var init, last := pairs[..|pairs| - 1], pairs[|pairs| - 1];
      CollectDomain(init);
      assert (set k | 0 <= k < |pairs| :: pairs[k].0) == Collect(init).Keys + {last.0} by {
        forall c | c in Collect(init).Keys ensures c in set k | 0 <= k < |pairs| :: pairs[k].0 {
          var k :| 0 <= k < |init| && init[k].0 == c;
          assert pairs[k].0 == c;
        }
      }
    }
  }

  /** Each key of a collected sequence holds the value of its last pair. */
  lemma {:induction false} CollectLastWins(pairs: seq<(char, u16)>, k: nat)
    requires k < |pairs|
    requires forall k' | k < k' < |pairs| :: pairs[k'].0 != pairs[k].0
    ensures pairs[k].0 in Collect(pairs) && Collect(pairs)[pairs[k].0] == pairs[k].1
  {
    if k < |pairs| - 1 {
      var init := pairs[..|pairs| - 1];
      CollectLastWins(init, k);
    }
  }

  /** No letter occurs twice in `s`. */
  ghost predicate Distinct(s: string) {
    forall i, j | 0 <= i < j < |s| :: s[i] != s[j]
  }

  /** The code points of all four alphabet strings, position by position. */
  lemma AlphabetCodes()
    ensures |CyrSymbols| == 33 && |LatSymbols| == 26 && |CyrUpper| == 33 && |LatUpper| == 26
    ensures forall k | 0 <= k < |CyrSymbols| :: CyrSymbols[k] as int == CyrCode(k)
    ensures forall k | 0 <= k < |CyrUpper| :: CyrUpper[k] as int == if k == 6 then 0x401 else CyrCode(k) - 0x20
    ensures forall k | 0 <= k < |LatSymbols| :: LatSymbols[k] as int == 0x61 + k
    ensures forall k | 0 <= k < |LatUpper| :: LatUpper[k] as int == 0x41 + k
  {
  }

  /** Neither alphabet repeats a letter and the two share none. */
  lemma {:induction false} AlphabetsDistinct()
    ensures Distinct(CyrSymbols) && Distinct(LatSymbols)
    ensures forall c | c in CyrSymbols :: c !in LatSymbols
  {
    AlphabetCodes();
  }

  /** Two alphabets zipped with the cycle and chained, `a` first. */
  function Chain(a: string, b: string): (pairs: seq<(char, u16)>)
    ensures |pairs| == |a| + |b|
    ensures forall k | 0 <= k < |a| :: pairs[k] == (a[k], CycleAt(k))
    ensures forall k | |a| <= k < |pairs| :: pairs[k] == (b[k - |a|], CycleAt(k - |a|))
  {
    Zip(a) + Zip(b)
  }

  /** When neither alphabet repeats a letter and they share none, no key
      repeats in their chain. */
  lemma {:induction false} ChainDistinct(a: string, b: string)
    requires Distinct(a) && Distinct(b) && forall c | c in a :: c !in b
    ensures forall i, j | 0 <= i < j < |Chain(a, b)| :: Chain(a, b)[i].0 != Chain(a, b)[j].0
  {
    var pairs, n := Chain(a, b), |a|;
    forall i, j | 0 <= i < j < |pairs| ensures pairs[i].0 != pairs[j].0 {
      if j < n {
        assert pairs[i].0 == a[i] && pairs[j].0 == a[j];
      } else if i < n {
        assert pairs[i].0 == a[i] && pairs[j].0 == b[j - n];
        assert b[j - n] in b;
      } else {
        assert pairs[i].0 == b[i - n] && pairs[j].0 == b[j - n];
      }
    }
  }

  /** The keys of a collected chain are exactly the letters of its two alphabets. */
  lemma {:induction false} CollectKeys(a: string, b: string)
    ensures forall c :: c in Collect(Chain(a, b)) <==> c in a || c in b
  {
    var pairs := Chain(a, b);
    var m := Collect(pairs);
    CollectDomain(pairs);
    forall c | c in a || c in b ensures c in m {
      var k :| 0 <= k < |pairs| && pairs[k].0 == c by {
        if c in a {
          var i :| 0 <= i < |a| && a[i] == c;
          assert pairs[i].0 == c;
        } else {
          var i :| 0 <= i < |b| && b[i] == c;
          assert pairs[|a| + i].0 == c;
        }
      }
    }
    forall c | c in m ensures c in a || c in b {
      var k :| 0 <= k < |pairs| && pairs[k].0 == c;
      if k < |a| { assert c == a[k]; } else { assert c == b[k - |a|]; }
    }
  }

  /** A collected sequence of pairs whose keys do not repeat has one entry per pair. */
  lemma {:induction false} CollectSize(pairs: seq<(char, u16)>)
    requires forall i, j | 0 <= i < j < |pairs| :: pairs[i].0 != pairs[j].0
    ensures |Collect(pairs)| == |pairs|
  {
    var keys := seq(|pairs|, k requires 0 <= k < |pairs| => pairs[k].0);
    CollectDomain(pairs);
    assert Distinct(keys);
    DistinctCardinality(keys);
    assert (set c | c in keys) == Collect(pairs).Keys by {
      forall c | c in Collect(pairs).Keys ensures c in keys {
        var k :| 0 <= k < |pairs| && pairs[k].0 == c;
        assert keys[k] == c;
      }
    }
  }

  /** When no key of the chain repeats, collecting it keeps every pair, so
      the letter at position `k` of either alphabet gets cycle item `k`. */
  lemma {:induction false} CollectChainValues(a: string, b: string)
    requires forall i, j | 0 <= i < j < |Chain(a, b)| :: Chain(a, b)[i].0 != Chain(a, b)[j].0
    ensures forall k | 0 <= k < |a| :: a[k] in Collect(Chain(a, b)) && Collect(Chain(a, b))[a[k]] == CycleAt(k)
    ensures forall k | 0 <= k < |b| :: b[k] in Collect(Chain(a, b)) && Collect(Chain(a, b))[b[k]] == CycleAt(k)
    ensures forall c | c in Collect(Chain(a, b)) :: 1 <= Collect(Chain(a, b))[c] <= 9
  {
    var pairs := Chain(a, b);
    var m := Collect(pairs);
    forall k | 0 <= k < |pairs| ensures pairs[k].0 in m && m[pairs[k].0] == pairs[k].1 {
      CollectLastWins(pairs, k);
    }
    forall k | 0 <= k < |a| ensures a[k] in m && m[a[k]] == CycleAt(k) {
      assert pairs[k] == (a[k], CycleAt(k));
    }
    forall k | 0 <= k < |b| ensures b[k] in m && m[b[k]] == CycleAt(k) {
      assert pairs[|a| + k] == (b[k], CycleAt(k));
    }
    CollectDomain(pairs);
    forall c | c in m ensures 1 <= m[c] <= 9 {
      var k :| 0 <= k < |pairs| && pairs[k].0 == c;
      assert m[c] == pairs[k].1;
    }
  }

  /** The initialisation of `SYMBOL_MAP`: two alphabets zipped with the
      cycle, chained and collected. When neither repeats a letter and they
      share none, the letter at position `k` of either alphabet maps to
      `k % 9 + 1`; every value lies in 1..9; no entry is lost in the merge
      (`SymbolMapKeys` shows that nothing else is a key). */
  function BuildSymbolMap(a: string, b: string): (m: map<char, u16>)
    requires Distinct(a) && Distinct(b) && forall c | c in a :: c !in b
    ensures forall k | 0 <= k < |a| :: a[k] in m && m[a[k]] as int == k % 9 + 1
    ensures forall k | 0 <= k < |b| :: b[k] in m && m[b[k]] as int == k % 9 + 1
    ensures forall c | c in m :: 1 <= m[c] <= 9
    ensures |m| == |a| + |b|
  {
    ChainDistinct(a, b);
    CollectKeys(a, b);
    CollectSize(Chain(a, b));
    CollectChainValues(a, b);
    Collect(Chain(a, b))
  }

  /** A sequence of distinct letters has as many elements as its set. */
  lemma {:induction false} DistinctCardinality(s: string)
    requires Distinct(s)
    ensures |set c | c in s| == |s|
  {
    if s != [] {
      var init := s[..|s| - 1];
      assert Distinct(init);
      DistinctCardinality(init);
      assert (set c | c in s) == (set c | c in init) + {s[|s| - 1]};
      assert s[|s| - 1] !in init;
    }
  }

  /** `SYMBOL_MAP`: an immutable table, built once. */
  const SymbolMap: map<char, u16> := (AlphabetsDistinct(); BuildSymbolMap(CyrSymbols, LatSymbols))

  /** The letters of the two alphabets are the keys of the table, and no
      other character is. */
  lemma {:induction false} SymbolMapKeys()
    ensures forall c :: c in SymbolMap <==> c in CyrSymbols || c in LatSymbols
  {
    AlphabetsDistinct();
    CollectKeys(CyrSymbols, LatSymbols);
  }

  /** `letter.to_lowercase().next()` for every character whose lower-case
      form starts with a letter of either alphabet: the upper-case Latin and
      Cyrillic letters, U+0130 (whose lower-case form is `i` followed by a
      combining dot) and the Kelvin sign U+212A. Every other character is
      returned unchanged; its real lower-case form lies outside both
      alphabets, so the table gives it no entry either way. */
  function Lower(c: char): char
  {
    if 'A' <= c <= 'Z' then (c as int + 0x20) as char
    else if '\U{0410}' <= c <= '\U{042F}' then (c as int + 0x20) as char
    else if c == '\U{0401}' then '\U{0451}'
    else if c == '\U{0130}' then 'i'
    else if c == '\U{212A}' then 'k'
    else c
  }

  /** Lower-casing maps each upper-case letter to the letter at the same
      position of its alphabet and leaves the alphabets' own letters alone. */
  lemma LowerMatchesAlphabets()
    ensures forall k | 0 <= k < |CyrUpper| :: k < |CyrSymbols| && Lower(CyrUpper[k]) == CyrSymbols[k]
    ensures forall k | 0 <= k < |LatUpper| :: k < |LatSymbols| && Lower(LatUpper[k]) == LatSymbols[k]
    ensures forall c | c in CyrSymbols || c in LatSymbols :: Lower(c) == c
  {
    AlphabetCodes();
  }

  /** The only characters that lower-casing changes are the upper-case forms
      of the two alphabets and the two special characters. */
  lemma LowerChangesOnlyUpperForms(c: char)
    ensures Lower(c) != c ==> c in CyrUpper || c in LatUpper || c == '\U{0130}' || c == '\U{212A}'
  {
    AlphabetCodes();
    if 'A' <= c <= 'Z' {
      assert LatUpper[c as int - 0x41] == c;
    } else if '\U{0410}' <= c <= '\U{042F}' {
      var k := if c as int < 0x416 then c as int - 0x410 else c as int - 0x40F;
      assert CyrUpper[k] == c;
    } else if c == '\U{0401}' {
      assert CyrUpper[6] == c;
    }
  }
}
