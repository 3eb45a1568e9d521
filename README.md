# Pick 3 Key Analyzer — a verified model of the analysis pipeline

The Pick 3 Key Analyzer is a one-page Streamlit script (`pick3_analyzer_app.py.py`).
The user pastes a grid of numbers and selects one cell. The script then treats the
digits of that cell's Moore neighbours (and, optionally, of the cell itself) as a
pool. It forms every 3-digit string that an ordered draw of three distinct pool
positions gives. It splits those strings by whether they contain a chosen key digit,
sorts both lists and offers the first five as "hot picks". Finally, for the CSV
download, it pads the two lists into columns of equal length.

This project models that pipeline in Dafny. It follows the script's statements in
the same order:

| module | file | models |
|---|---|---|
| `Text` | `text.dfy` | `str.strip()` and `str.split(sep)` (with `Join`, its inverse) |
| `Decimal` | `decimal.dfy` | `int(t)` on a digit token and `str(n)` on a cell value |
| `Grid` | `grid.dfy` | grid parsing, right padding to `max_cols`, `valid_numbers` |
| `Neighborhood` | `neighborhood.dfy` | the nested 3x3 neighbour scan |
| `Combos` | `combos.dfy` | the digit pool and the `itertools.permutations(pool, 3)` set |
| `StringOrder` | `ordering.dfy` | Python string order and `sorted` applied to a set of strings |
| `Results` | `results.dfy` | the key-digit split, the hot picks, the export columns |
| `Analyzer` | `analyzer.dfy` | the whole recomputation, as a method and as a function |
| `Wrappers` | `wrappers.dfy` | `Option` |

## How the model is built

- **Loops become methods.** Each loop of the script is a method with its loop and
  invariants:
  - `BuildRows` builds the rows (lines 22-25).
  - `PadRows` pads the grid one appended cell at a time, rebuilding it as a
    sequence value (lines 27-30).
  - `CollectNeighbors` runs the neighbour scan (lines 54-62).
  - `GenerateCombos` fills the combination set (lines 70-72).
  - `Analyzer.Recompute` runs the whole script. It extends the digit pool by
    reassigning a sequence value (lines 65-67).
- **Each method is proved equal to a function.** The properties are then proved
  about those functions.
- **The comprehensions and slices are functions.** This covers the token
  comprehension, `valid_numbers`, the sorted comprehensions, the `[:5]` slice and
  the padding expressions.
- **A cell is `Option<nat>`.** This is the integer the script stores.
- **Leading zeros are lost, as in the script.** The cell is shown again through
  `str`, so `Decimal.ShowValue` proves that a token renders without its leading
  zeros. `Analyzer.LeadingZeroDropped` shows that the default grid's `038` gives
  the pool only `3` and `8`.
- **Whitespace is Python's `str.isspace` set.** `str.strip()` uses that exact list of
  code points.
- **Digits are ASCII only.** `str.isdigit()` is modelled on `'0'..'9'`.
- **String order is Python's.** Strings compare by code point, and a proper prefix
  comes first. The sorted lists are proved to be the unique strictly ascending
  listing of their sets.

## Model

| member | source | states |
|---|---|---|
| Text.Strip | pick3_analyzer_app.py.py:23-24 | the result is the input with only whitespace cut from both ends, and it neither starts nor ends with whitespace |
| Text.StripIdempotent | pick3_analyzer_app.py.py:24 | stripping a stripped token changes nothing |
| Text.StripUnpadded | pick3_analyzer_app.py.py:24 | text that neither starts nor ends with whitespace is left alone |
| Text.StripAllSpace | pick3_analyzer_app.py.py:23-24 | text made only of whitespace strips to the empty string |
| Text.Split | pick3_analyzer_app.py.py:23-24 | splitting gives at least one piece, and no piece contains the separator |
| Text.JoinSplit | pick3_analyzer_app.py.py:23-24 | joining the pieces with the separator gives the text back |
| Text.SplitJoin | pick3_analyzer_app.py.py:23-24 | separator-free pieces are exactly what splitting their join returns |
| Text.SplitWithoutSeparator | pick3_analyzer_app.py.py:24 | a line without a comma is a single token |
| Decimal.Value | pick3_analyzer_app.py.py:24 | `int(t)` on a digit string is zero exactly when every digit is `0`; `Decimal.ValueShow`, `Decimal.ValueStripZeros` and `Decimal.ShowValueCanonical` tie it to `str` |
| Decimal.StripZeros | pick3_analyzer_app.py.py:24 | the result is a suffix of the token, the cut-off prefix is all `0`, a non-empty token keeps at least one digit, and no redundant leading `0` is left |
| Decimal.Show | pick3_analyzer_app.py.py:62 | `str(n)` is a non-empty digit string that starts with `0` exactly when n is 0 |
| Decimal.ValueShow | pick3_analyzer_app.py.py:62 | reading `str(n)` back as a number gives n |
| Decimal.ValueStripZeros | pick3_analyzer_app.py.py:24 | dropping leading zeros keeps a token's value |
| Decimal.ShowValueCanonical | pick3_analyzer_app.py.py:24 | a numeral without redundant leading zeros is `str` of its own value |
| Decimal.ShowValue | pick3_analyzer_app.py.py:24 | `str(int(t))` is the digit token t without its leading zeros |
| Grid.ParseToken | pick3_analyzer_app.py.py:24 | a token is a number exactly when its stripped form is non-empty and all digits, otherwise empty |
| Grid.ParseTokenShow | pick3_analyzer_app.py.py:24 | a parsed cell renders as its stripped token without leading zeros |
| Grid.ParseLine | pick3_analyzer_app.py.py:24 | a line gives one cell per comma-separated token, and at least one cell |
| Grid.BlankLine | pick3_analyzer_app.py.py:23-25 | a blank line becomes the one-cell row of one empty cell |
| Grid.Lines | pick3_analyzer_app.py.py:23 | the stripped input has at least one line |
| Grid.RawGrid | pick3_analyzer_app.py.py:22-25 | the unpadded grid has at least one row, so `max` never sees an empty sequence |
| Grid.BuildRows | pick3_analyzer_app.py.py:22-25 | the append loop produces one parsed row per line, in order |
| Grid.MaxWidth | pick3_analyzer_app.py.py:27 | `max_cols` is at least every row's length and is some row's length |
| Grid.PadGrid | pick3_analyzer_app.py.py:28-30 | padding keeps the row count, makes every row `max_cols` long, keeps each row's cells as a prefix and adds only empty cells |
| Grid.PadGridWidth | pick3_analyzer_app.py.py:27-30 | padding keeps the maximum width |
| Grid.PadGridIdempotent | pick3_analyzer_app.py.py:28-30 | padding an already padded grid changes nothing |
| Grid.PadRows | pick3_analyzer_app.py.py:27-30 | the `while`/`append` loop computes `max_cols` and the padded grid |
| Grid.ParsedGrid | pick3_analyzer_app.py.py:22-30 | the grid the script works on has at least one row and is rectangular |
| Grid.RowChoices | pick3_analyzer_app.py.py:41 | one row's entries are exactly its non-empty cells with `str` of their values, left to right |
| Grid.ValidNumbers | pick3_analyzer_app.py.py:41 | `valid_numbers` holds exactly the non-empty cells, each with its coordinates and `str` of its value, in row-major order |
| Neighborhood.Found | pick3_analyzer_app.py.py:57-61 | every reported cell is in bounds, not empty and not the centre |
| Neighborhood.FoundOrdered | pick3_analyzer_app.py.py:55-56 | the reported cells lie in the 3x3 block, in strict raster order |
| Neighborhood.FoundComplete | pick3_analyzer_app.py.py:57-62 | no in-bounds, non-empty, non-centre cell of the block is skipped |
| Neighborhood.FoundCount | pick3_analyzer_app.py.py:57-59 | at most one cell is reported per in-bounds non-centre slot |
| Neighborhood.Render | pick3_analyzer_app.py.py:62 | each neighbour string is `str` of its cell's value |
| Neighborhood.ScanStep | pick3_analyzer_app.py.py:57-62 | one scan step adds `str` of the cell exactly when the cell is in bounds, not the centre and not empty |
| Neighborhood.NeighborTexts | pick3_analyzer_app.py.py:54-62 | `neighbors` holds at most 8 strings, each a decimal numeral; `Neighborhood.FoundOrdered`, `Neighborhood.FoundComplete` and `Neighborhood.Render` say which cells they come from and in what order |
| Neighborhood.CollectNeighbors | pick3_analyzer_app.py.py:54-62 | the nested loop produces exactly the neighbour strings in raster order |
| Neighborhood.NeighborCount | pick3_analyzer_app.py.py:54-62 | there are at most 8 neighbours, at most 5 on an edge row or column, and at most 3 in a corner |
| Combos.Flatten | pick3_analyzer_app.py.py:65 | the joined neighbour strings are as long as all of them together |
| Combos.FlattenPiece | pick3_analyzer_app.py.py:65 | the k-th neighbour string sits, unchanged, right after the first k strings |
| Combos.DigitPool | pick3_analyzer_app.py.py:65-67 | the pool is the joined neighbour strings, followed by the selected value's characters exactly when `include_self` is set |
| Combos.ComboSet | pick3_analyzer_app.py.py:70-72 | the set is empty for a pool of fewer than three characters, and every element is three pool characters |
| Combos.GenerateCombos | pick3_analyzer_app.py.py:70-72 | the `add` loop over the permutations collects exactly the draws of three distinct pool positions |
| Combos.DrawFits | pick3_analyzer_app.py.py:71-72 | the characters of a draw, counted with repetition, are found in the pool |
| Combos.FitsIsDraw | pick3_analyzer_app.py.py:71-72 | three characters found in the pool, counted with repetition, are some draw |
| Combos.ComboMembership | pick3_analyzer_app.py.py:70-72 | a string is in `combo_set` exactly when it has three characters that the pool supplies, counted with repetition |
| StringOrder.Below | pick3_analyzer_app.py.py:74-75 | Python's string `<`: a proper prefix sorts first; `StringOrder.BelowIrreflexive`, `StringOrder.BelowAsymmetric`, `StringOrder.BelowTransitive` and `StringOrder.BelowTotal` make it a strict total order |
| StringOrder.BelowIrreflexive | pick3_analyzer_app.py.py:74-75 | no string sorts before itself |
| StringOrder.BelowAsymmetric | pick3_analyzer_app.py.py:74-75 | two strings never sort before each other |
| StringOrder.BelowTransitive | pick3_analyzer_app.py.py:74-75 | string order is transitive |
| StringOrder.BelowTotal | pick3_analyzer_app.py.py:74-75 | any two different strings are ordered |
| StringOrder.Least | pick3_analyzer_app.py.py:74-75 | a non-empty set of strings has a smallest element |
| StringOrder.SortedList | pick3_analyzer_app.py.py:74-75 | `sorted` of a set lists each element once, nothing else, in strictly ascending order |
| StringOrder.SortedListUnique | pick3_analyzer_app.py.py:74-75 | `sorted` is the only strictly ascending listing of the set |
| Results.WithKey | pick3_analyzer_app.py.py:74 | `with_key` holds exactly the combinations containing the key digit, ascending, or nothing when hidden |
| Results.WithoutKey | pick3_analyzer_app.py.py:75 | `without_key` holds exactly the combinations without the key digit, ascending, or nothing when hidden |
| Results.Partition | pick3_analyzer_app.py.py:74-75 | with both lists shown, every combination is in exactly one list, and the lengths add up to the set's size |
| Results.HotPicks | pick3_analyzer_app.py.py:76 | the hot picks are the first min(5, \|with_key\|) entries of `with_key`, or nothing when hidden |
| Results.HotPicksAreSmallest | pick3_analyzer_app.py.py:74-76 | every other combination containing the key digit sorts after each hot pick |
| Results.ExportColumns | pick3_analyzer_app.py.py:94-97 | the headers follow the flags, both columns are as long as the longer list, each list is its column's prefix and the rest is blank |
| Results.ExportRoundTrip | pick3_analyzer_app.py.py:94-97 | dropping the blank cells of the columns gives the two lists back |
| Analyzer.Analyze | pick3_analyzer_app.py.py:22-97 | the pipeline is defined for every request; its grid is non-empty and rectangular, it has at most 8 neighbours and its export columns have equal length; `Analyzer.Recompute` and `Analyzer.ReportGuarantee` are stated against it |
| Analyzer.Recompute | pick3_analyzer_app.py.py:22-97 | the script's statements, including the extension of the pool by the selected value's digits, compute exactly the report of the request |
| Analyzer.PoolIsDigits | pick3_analyzer_app.py.py:62-67 | the pool of the selected cell holds only decimal digits |
| Analyzer.ComboOfDigits | pick3_analyzer_app.py.py:70-72 | a combination from a pool of digits is a three-digit string that the pool supplies |
| Analyzer.CombosOfDigits | pick3_analyzer_app.py.py:74-75 | both lists hold such three-digit strings, with the key digit in the first and without it in the second |
| Analyzer.SoundPool | pick3_analyzer_app.py.py:70-97 | for a pool of digits, the lists are sound and the export gives them back |
| Analyzer.ReportGuarantee | pick3_analyzer_app.py.py:22-97 | for every request with a selected cell, each listed combination is three digits drawn from the pool and split correctly by the key digit, and the export columns give both lists back |
| Analyzer.LeadingZeroDropped | pick3_analyzer_app.py.py:24 | the default grid's token `038` parses to 38, which renders as `38` |

## Left out

- Streamlit is not modelled: the page setup, grid display, selection boxes, check boxes, result display and download button (lines 7-19, 33-38, 44-48, 79-91, 100). Their values become the fields of `Analyzer.Request`.
- pandas `DataFrame` construction and `to_csv` text, with its quoting rules (lines 94, 99), are not modelled. Only the column padding and the header choice are.
- When both flags are off, both dictionary keys are `''` and the two columns collapse into one. That collapse is a dictionary/pandas effect and is not modelled. `Results.ExportColumns` always keeps two columns.
- The script crashes at line 50 when no cell can be selected. That case is not modelled. `Analyzer.Recompute` accepts any selected cell. The end-to-end lemma `Analyzer.ReportGuarantee` requires the selection to be an element of `valid_numbers` (`Analyzer.Selectable`), as the selection box guarantees.
- `Decimal.IsDigit` accepts only ASCII `'0'..'9'`. Python's `str.isdigit` also accepts other Unicode digits, on which `int` may fail.
- `Text.IsSpace` takes Python's whitespace set as a list of code points. No Unicode database is consulted.
- `Analyzer.Request.keyDigit` is any character. The script's selection box offers only `'0'..'9'`, and no property depends on that restriction.
- `Combos.GenerateCombos` follows the visiting order of `itertools.permutations` (positions in lexicographic order). Only the resulting set is specified, because that set is all the script keeps.
- Combos.ComboSet: the size bounds on the combination set (at most n(n-1)(n-2) draws for a pool of n characters, at most 1000 distinct strings of digits) are not proved. No other property depends on them, and they need a counting argument over the set comprehension.
- The script grows each padded row one `append` at a time, in place, on the row objects that `grid_data` holds (lines 28-30). The model reassigns the row in a sequence value. Aliasing between `row` and `grid_data[i]` is therefore not represented, though the resulting grid is the same.
- The script extends `digit_pool` in place with `+=` (line 67). The model reassigns the pool as a sequence value. The pool is not shared, so only the order and contents matter, and both are kept.
