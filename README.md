# Mandala numeral engine

This project models the numeral engine of mandala_rust, found in
`src/calculation.rs`. The engine turns a text into a triangle of numerals
in three steps:

1. Each character is lower-cased and looked up in a symbol table. The table
   gives every letter of the 33-letter Russian alphabet and of the 26-letter
   Latin alphabet its position on the cycle 1..9. Characters with no entry
   are dropped.
2. If fewer than two numerals result, two zeros are appended. The sequence
   is then extended to eight numerals: each new numeral folds the last two
   with `get_sum`, which adds them and subtracts 9 when the sum is above 9.
3. A pyramid is built. Row 0 is the extended sequence. Each later row is
   the pairwise `get_sum` of the row above it, so it is one numeral shorter.

The project has three modules:

- `Symbols` (`symbols.dfy`): the alphabets, the 1..9 cycle, the zip, chain
  and collect steps that build the table, and lower-casing.
- `Calculation` (`calculation.dfy`): `get_sum`, the character filter, the
  expansion loop, the pyramid loop and `calculate_mandala`. The loops are
  methods, each proved against a function or predicate that specifies its
  result. Uniqueness lemmas show that the expansion and pyramid predicates
  fix their results.
- `Worked` (`worked.dfy`): worked instances. The word "Мир" maps to 5, 1, 9.
  The numerals 3, 5 expand to 3, 5, 8, 4, 3, 7, 1, 8, and the pyramid on
  that sequence has the apex 1.

Integers are the Rust `u16`, modelled as a newtype over 0..65535.

Facts about `src/calculation.rs` that shape the model:

- A short input is padded with two zeros (src/calculation.rs:35-38).
- The function never returns an error (src/calculation.rs:69).
- A sequence of eight or more numerals is kept as it is (src/calculation.rs:40).
- The pyramid has `max(8, n)` rows (src/calculation.rs:48-52). The
  exporters index `digits[15 - row]` (src/export.rs:136, src/pdf.rs:112),
  which expects 16 rows that this engine never builds.
- `calculate_mandala` prints the pyramid and returns `Ok(())`. The model
  returns the pyramid inside `Ok` instead. `src/main.rs` calls the function
  expecting `Result<Vec<Vec<u16>>, String>`, so this is the interface the
  caller wants.

## Model

| member | source | states |
|---|---|---|
| Symbols.CycleAt | src/calculation.rs:8-10 | The k-th value of the cycle (0-based) lies in 1..9. It is k + 1 for k < 9 and repeats with period 9. |
| Symbols.Zip | src/calculation.rs:14-15 | Zipping an alphabet with the cycle gives one pair per letter, in order. The letter at position k is paired with the k-th cycle value. |
| Symbols.Chain | src/calculation.rs:17 | Chaining the two zipped alphabets gives the Russian pairs first, then the Latin pairs, each at its own position and with its own cycle value. |
| Symbols.Collect | src/calculation.rs:17 | The `collect()` into a `HashMap` as a last-wins insertion fold over the pairs in order; its properties are stated by CollectDomain and CollectLastWins. |
| Symbols.CollectDomain | src/calculation.rs:17 | The keys of the collected map are exactly the characters that occur in the pair list. |
| Symbols.CollectLastWins | src/calculation.rs:17 | When no later pair repeats a pair's key, the collected map holds that pair's value for the key. |
| Symbols.AlphabetCodes | src/calculation.rs:5-6 | The Russian alphabet has 33 letters: а..е, then ё, then ж..я. The Latin alphabet has 26 letters, a..z. The same holds for their upper-case forms. |
| Symbols.AlphabetsDistinct | src/calculation.rs:5-6 | Neither alphabet repeats a letter, and the two alphabets share no letter. |
| Symbols.ChainDistinct | src/calculation.rs:14-17 | When both alphabets are repeat-free and disjoint, no key repeats in the chained pair list. |
| Symbols.CollectKeys | src/calculation.rs:14-17 | A character is a key of the collected table exactly when it occurs in one of the two alphabets. |
| Symbols.CollectSize | src/calculation.rs:17 | Collecting a pair list with no repeated key loses no entry: the map has as many keys as the list has pairs. |
| Symbols.CollectChainValues | src/calculation.rs:14-17 | The letter at position k of either alphabet maps to the k-th cycle value, and every value in the table lies in 1..9. |
| Symbols.DistinctCardinality | src/calculation.rs:17 | A repeat-free string has as many distinct characters as it is long. |
| Symbols.BuildSymbolMap | src/calculation.rs:13-18 | The table maps the letter at position k of either alphabet to k % 9 + 1. Every value lies in 1..9. The table has 33 + 26 entries, so merging the alphabets loses none. |
| Symbols.SymbolMap | src/calculation.rs:13-18 | The table: BuildSymbolMap applied to the Russian and Latin alphabets, so it carries BuildSymbolMap's guarantees. |
| Symbols.SymbolMapKeys | src/calculation.rs:13-18 | A character has an entry in the table exactly when it is a letter of one of the two alphabets. |
| Symbols.Lower | src/calculation.rs:27 | Lower-casing of one character, restricted as under "## Left out"; its properties are stated by LowerMatchesAlphabets and LowerChangesOnlyUpperForms. |
| Symbols.LowerMatchesAlphabets | src/calculation.rs:27 | Lower-casing an upper-case letter of either alphabet gives the lower-case letter at the same position. Lower-case letters are unchanged. |
| Symbols.LowerChangesOnlyUpperForms | src/calculation.rs:27 | The model's Lower changes only the upper-case letters of the two alphabets, the dotted capital I (U+0130) and the Kelvin sign (U+212A). |
| Calculation.GetSum | src/calculation.rs:20-23 | The fold is congruent to a + b modulo 9. For numerals 0..9 it stays in 0..9 and is 0 only for 0 and 0. It requires that a + b does not overflow u16. |
| Calculation.GetSumOnDigits | src/calculation.rs:20-23 | For a, b in 1..9 the fold lies in 1..9. It is a + b when a + b <= 9 and a + b - 9 otherwise. |
| Calculation.GetSumCommutative | src/calculation.rs:20-23 | The fold is commutative. |
| Calculation.GetSumIsDigitalRoot | src/calculation.rs:20-23 | For a, b in 1..9 the fold is the digital root of a + b, that is 1 + (a + b - 1) % 9. |
| Calculation.Mapped | src/calculation.rs:27-31 | One character yields at most one numeral, and that numeral lies in 1..9. |
| Calculation.MappedIffLetter | src/calculation.rs:27-31 | A character yields a numeral exactly when its lower-case form is a letter of one of the two alphabets. |
| Calculation.Indexes | src/calculation.rs:26-33 | The numerals of a text are no more than its characters, and each lies in 1..9. |
| Calculation.IndexesAppend | src/calculation.rs:26-33 | The numerals of a concatenation are the numerals of the first part followed by those of the second. Mapping keeps input order and works character by character. |
| Calculation.IndexesOfLetters | src/calculation.rs:26-33 | When every character maps, numeral k is the table value of the lower-cased character k. |
| Calculation.MapSymbols | src/calculation.rs:26-33 | The accumulating loop produces exactly the numerals of the text. |
| Calculation.Padded | src/calculation.rs:35-38 | With fewer than two numerals, exactly two zeros are appended. Otherwise the sequence is unchanged. The earlier numerals are always kept. |
| Calculation.Expand | src/calculation.rs:40-45 | The expansion loop returns max(8, n) numerals. The original n are an unchanged prefix, and each appended numeral is get_sum(last, second last). A sequence of 8 or more is left untouched. No zero appears unless the input has one. |
| Calculation.ExpansionUnique | src/calculation.rs:40-45 | The expansion of a sequence is uniquely determined. |
| Calculation.ExpansionAgreesUpTo | src/calculation.rs:40-45 | Two expansions of the same sequence agree at every position. |
| Calculation.BuildPyramid | src/calculation.rs:47-65 | The pyramid has one row per numeral of the base, and row 0 is the base. Row i has size - i numerals, and entry j of row i is the fold of entries j and j + 1 of row i - 1. The last row has one numeral. The rows are zero-free when the base is. |
| Calculation.PyramidUnique | src/calculation.rs:47-65 | The pyramid on a base is uniquely determined. |
| Calculation.PyramidRowsAgree | src/calculation.rs:47-65 | Two pyramids on the same base agree row by row. |
| Calculation.CalculateMandala | src/calculation.rs:25-70 | The result is always Ok. It has max(8, n) rows for the n padded numerals, and the last row has one numeral. Row 0 is the expansion of the padded numerals of the text, and the rows form its pyramid. Every numeral is non-zero exactly when at least two characters mapped. |
| Worked.IndexesOfMir | src/calculation.rs:26-33 | The text "Мир" yields the numerals 5, 1, 9. |
| Worked.ExpansionOfThreeFive | src/calculation.rs:40-45 | The only expansion of 3, 5 is 3, 5, 8, 4, 3, 7, 1, 8. |
| Worked.ThreeFiveUpperRows | src/calculation.rs:52-65 | Rows 1 to 3 of the pyramid on 3, 5, 8, 4, 3, 7, 1, 8 fold the rows above them. |
| Worked.ThreeFiveLowerRows | src/calculation.rs:52-65 | Rows 4 to 7 of that pyramid fold the rows above them. |
| Worked.ThreeFiveRowsArePyramid | src/calculation.rs:47-65 | The eight listed rows form the pyramid on 3, 5, 8, 4, 3, 7, 1, 8. |
| Worked.ApexOfThreeFive | src/calculation.rs:47-65 | Any pyramid on 3, 5, 8, 4, 3, 7, 1, 8 has the apex 1. |

## Left out

- The `print!` of the pyramid (src/calculation.rs:67) is output only. The model returns the pyramid instead.
- The `LazyLock` one-time, thread-safe initialisation of the table is modelled as an immutable constant. Concurrency plays no part in its value.
- Calculation.GetSum: does not model u16 wrap-around. It requires that a + b fits in u16, where a debug build panics on overflow. Every call in the engine passes numerals in 0..9, so this precondition always holds.
- Calculation.Expand and Calculation.BuildPyramid require numerals in 0..9. This is all the engine ever passes them, and it keeps every fold free of overflow.
- Symbols.Lower: Rust's `to_lowercase().next()` is modelled only for the characters whose lower-case form begins with a letter of the two alphabets. These are A-Z, А-Я, Ё, U+0130 and U+212A. Every other character is left unchanged. Its real lower-case form has no entry in the table either way, so the lookup result is the same.
- The PDF and SVG layout and export code, which is floating-point geometry, font shaping and file writes: src/pdf.rs and src/export.rs are not part of this model.
- The Iced user interface in src/main.rs is not part of this model.
