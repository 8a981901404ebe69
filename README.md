# Table helpers of the regional energy analysis, in Dafny

This project models the pandas helpers that prepare the regional energy
sheets for analysis, and proves what they promise:

- `add_year_month` (`01_DataAnalysis/_artifacts/long_merge.py`) copies a
  table, parses its date column with the format `"%Y-%m"`, adds a year
  column `연도` and a month column `월`, and optionally drops columns.
- `merge_region_sheets` (same file) copies every sheet of a
  region → table mapping, stamps each copy with a `구역` column holding the
  region, and concatenates the copies with a fresh row numbering.
- `clean_structure` (both `preprocessing.py` files) cuts off the last three
  rows and the last three columns.
- `handle_missing` and `handle_rainfall_missing` (both `preprocessing.py`
  files, identical bodies) coerce a column to numbers when it is not numeric
  and fill its NaN cells with the column mean rounded to one decimal, on the
  caller's own frame.

A table is a list of distinct column labels, a map from label to column,
and a row count; a column has a dtype (`Numeric`, `Datetime` or `Object`)
and one cell per row. A cell is a number, a text, a year-month date or
`Missing` (NaN, None and NaT alike). Row labels are row positions, so
`reset_index(drop=True)` and `ignore_index=True` hold by construction.
Exceptions are `Failure` values of a `Result`.

Files:

- `frames.dfy` (module `Frames`): the table, `df[key]` reads and
  assignments, `drop(columns=…, errors="ignore")`, `pd.concat`, and the
  `Frame` class (a DataFrame object whose columns are assigned in place).
- `dates.dfy` (module `Dates`): `pd.to_datetime(…, format="%Y-%m")`.
- `long_merge.dfy` (module `LongMerge`): `add_year_month` and
  `merge_region_sheets`. Each is a method on `Frame` objects, proved equal to
  a specification function (`AddYearMonthSpec`, `MergeSpec`). The lemmas
  state the promised properties of those functions.
- `preprocessing.dfy` (module `Preprocessing`): `clean_structure` as a
  function. The two imputation helpers are methods that change the caller's
  `Frame` and are proved equal to the function `Impute`; its properties are
  lemmas.

Three behaviours of the code that the model keeps as written:

- The imputation helpers change the caller's frame in place; there is no
  copy. They return that same frame.
- A column with no number after coercion has a NaN mean. `fillna(NaN)`
  changes nothing, so the column stays all NaN. "No NaN is left" holds
  exactly when the coerced column holds a number or has no rows
  (`ImputeNoMissing`).
- `clean_structure` keeps `max(0, n - 3)` rows and columns, whatever the
  sheet holds.

## Model

| member | source | states |
|---|---|---|
| Frames.Get | 01_DataAnalysis/_artifacts/long_merge.py:26 | `df[key]` raises KeyError iff there is no such column; a column read from a well-formed table has one cell per row, each fitting the column's dtype |
| Frames.GetAssign | 01_DataAnalysis/_artifacts/long_merge.py:30-31 | after `df[key] = c`, reading `key` gives `c` back and reading any other label gives what it gave before |
| Frames.Assign | 01_DataAnalysis/_artifacts/long_merge.py:30-31 | `df[key] = column` keeps the table well formed and its row count; afterwards `key` holds the new column and every other column is unchanged; an existing label keeps the label order, and a new one is appended after the last label |
| Frames.Without | 01_DataAnalysis/_artifacts/long_merge.py:34 | the labels left after dropping are exactly those not listed, without repeats; if no label is listed, nothing changes |
| Frames.DropColumns | 01_DataAnalysis/_artifacts/long_merge.py:34 | `drop(columns=…, errors="ignore")` keeps exactly the columns that are not listed, unchanged, with the row count; listed labels that are absent are no error |
| Frames.Concat | 01_DataAnalysis/_artifacts/long_merge.py:53 | `pd.concat` has as many rows as all blocks together; its columns are exactly those some block has; each column's cells are the blocks' cells in order, NaN for blocks lacking the column |
| Frames.ConcatNamesOk | 01_DataAnalysis/_artifacts/long_merge.py:53 | the concatenated labels have no repeats and are exactly the labels of some block |
| Frames.JoinDtypeAgrees | 01_DataAnalysis/_artifacts/long_merge.py:53 | a concatenated column has a dtype iff some block has the column; a dtype other than object is the dtype of every block that has the column |
| Frames.ConcatCellsFit | 01_DataAnalysis/_artifacts/long_merge.py:53 | every concatenated cell fits the dtype that all blocks holding the column agree on |
| Frames.ConcatWellFormed | 01_DataAnalysis/_artifacts/long_merge.py:53 | the concatenation is a well-formed table |
| Frames.ConcatCell | 01_DataAnalysis/_artifacts/long_merge.py:53 | row `i` of block `k` lands at position (rows of blocks before `k`) + `i` of the result, with the same cell in every column |
| Frames.Locate | 01_DataAnalysis/_artifacts/long_merge.py:53 | every row of the concatenation comes from some position of some block |
| Frames.LocateUnique | 01_DataAnalysis/_artifacts/long_merge.py:53 | two block positions that land on the same row of the concatenation are the same block and offset, so the position `Locate` finds is the only one |
| Frames.TotalHeightAppend | 01_DataAnalysis/_artifacts/long_merge.py:53 | row counts add up over a split list of blocks |
| Frames.ConcatOne | 01_DataAnalysis/_artifacts/long_merge.py:53 | concatenating a single table gives that table back |
| Frames.Frame.Copy | 01_DataAnalysis/_artifacts/long_merge.py:16 | `df.copy()` is a new frame with the same contents |
| Frames.Frame.SetColumn | 01_DataAnalysis/_artifacts/long_merge.py:50 | `df[key] = column` on the frame itself: the new contents are the assignment applied to the old |
| Frames.Frame.Drop | 01_DataAnalysis/_artifacts/long_merge.py:34 | `df.drop(…)` returns a new frame holding the dropped table |
| Dates.ParseYearMonth | 01_DataAnalysis/_artifacts/long_merge.py:25-28 | a string parsed with `"%Y-%m"` has four digits, a dash and one or two digits, and its month lies in 1..12 |
| Dates.ParseOnlyWritten | 01_DataAnalysis/_artifacts/long_merge.py:25-28 | conversely, a string parses only if it is a year 0..9999 and a month 1..12 written as `YYYY-MM`, or as `YYYY-M` for a one-digit month, and it parses to that year and month |
| Dates.ParseFormat | 01_DataAnalysis/_artifacts/long_merge.py:14 | every year 0..9999 and month 1..12, written as `YYYY-MM`, parses back to that year and month |
| Dates.ParseShortMonth | 01_DataAnalysis/_artifacts/long_merge.py:14 | a one-digit month (`YYYY-M`) also parses |
| Dates.ToDatetime | 01_DataAnalysis/_artifacts/long_merge.py:25-28 | one converted value is NaT or a date with month 1..12 inside the datetime64[ns] range; NaN and the NaT spellings convert to NaT, and a number is a parse error |
| Dates.ToDatetimeWritten | 01_DataAnalysis/_artifacts/long_merge.py:25-28 | a year and month written as `YYYY-MM` inside the datetime64[ns] range convert to that date |
| Dates.ToDatetimeOnlyWritten | 01_DataAnalysis/_artifacts/long_merge.py:25-28 | conversely, a text that converts to a date is that date written as `YYYY-MM`, or `YYYY-M` for a one-digit month |
| Dates.ToDatetimeCells | 01_DataAnalysis/_artifacts/long_merge.py:25-28 | the column converts iff every value converts; then each row is its value converted; otherwise the error is that of the first failing row, with no partial result |
| LongMerge.DtField | 01_DataAnalysis/_artifacts/long_merge.py:30-31 | `.dt.year` / `.dt.month` exist iff the column is datetime, else AttributeError; the result is a numeric column as long as the input, holding each date's year or month, and NaN for NaT |
| LongMerge.Derive | 01_DataAnalysis/_artifacts/long_merge.py:30-31 | deriving fails iff the date column is `연도` itself (AttributeError), because the year assignment overwrites the dates before `.dt.month`; otherwise the row count stays and `연도` and `월` are present |
| LongMerge.AddYearMonthSpec | 01_DataAnalysis/_artifacts/long_merge.py:10-37 | an absent date column raises KeyError and a date column named `연도` always fails; a result keeps the row count, drops every listed label, and without `drop_cols` holds the date column, `연도` and `월` |
| LongMerge.AddYearMonth | 01_DataAnalysis/_artifacts/long_merge.py:10-37 | `date_col` defaults to `일시` and `drop_cols` to None; leaves the caller's frame unchanged; on success returns a new frame equal to `AddYearMonthSpec`, and on failure raises the same error |
| LongMerge.DeriveRow | 01_DataAnalysis/_artifacts/long_merge.py:30-31 | each row's year and month are those of that row's date; NaT gives NaN |
| LongMerge.DeriveKeys | 01_DataAnalysis/_artifacts/long_merge.py:30-31 | the derived table keeps the row count and has the old columns plus `연도` and `월` |
| LongMerge.DeriveNames | 01_DataAnalysis/_artifacts/long_merge.py:30-31 | the labels stay in order, and `연도` then `월` are appended, each only when it was not already a column |
| LongMerge.AddYearMonthFails | 01_DataAnalysis/_artifacts/long_merge.py:25-31 | the call fails iff the date column is absent (KeyError), some value does not convert, or the date column is `연도` |
| LongMerge.AddYearMonthRows | 01_DataAnalysis/_artifacts/long_merge.py:25-31 | the row count is unchanged; in each row the date column holds the parsed date and `연도`/`월` its year and month, with the month in 1..12 |
| LongMerge.AddYearMonthStages | 01_DataAnalysis/_artifacts/long_merge.py:25-34 | the result is the conversion, then the derivation, then the drop, which is applied only when `drop_cols` is a non-empty list |
| LongMerge.AddYearMonthKeys | 01_DataAnalysis/_artifacts/long_merge.py:30-34 | the result's columns are the input's plus `연도` and `월`, minus exactly the listed ones; absent listed names cause no error, and the date column and the derived ones can be dropped |
| LongMerge.AddYearMonthKept | 01_DataAnalysis/_artifacts/long_merge.py:16-34 | every column other than the date column and the derived ones keeps its contents |
| LongMerge.AddYearMonthNames | 01_DataAnalysis/_artifacts/long_merge.py:33 | with `drop_cols` None or empty, the result's labels are the input's, in order, followed by `연도` and then `월`, each appended only when it was not already a column (an existing one is overwritten where it stands) |
| LongMerge.AddYearMonthExample | 01_DataAnalysis/_artifacts/long_merge.py:10-37 | a one-row table holding `"2023-05"` gets the date 2023-05, year 2023 and month 5 |
| LongMerge.Tag | 01_DataAnalysis/_artifacts/long_merge.py:49-50 | a stamped copy keeps the row count and every other column, and adds or overwrites `구역` with the key in every row |
| LongMerge.Tagged | 01_DataAnalysis/_artifacts/long_merge.py:48-51 | the loop yields one table per sheet |
| LongMerge.TagCell | 01_DataAnalysis/_artifacts/long_merge.py:50 | in a stamped table every `구역` cell is the region key, and every other cell is unchanged |
| LongMerge.TaggedCopy | 01_DataAnalysis/_artifacts/long_merge.py:49-50 | the loop body produces a new frame holding the stamped copy of the sheet |
| LongMerge.MergeSpec | 01_DataAnalysis/_artifacts/long_merge.py:53 | the merge fails iff the mapping is empty, with the error of `pd.concat([])`; otherwise the result is a well-formed table with as many rows as the stamped copies |
| LongMerge.TagEach | 01_DataAnalysis/_artifacts/long_merge.py:46-51 | the loop builds `dfs`: one new frame per sheet, in mapping order, each the sheet stamped with its key; no sheet changes |
| LongMerge.MergeRegionSheets | 01_DataAnalysis/_artifacts/long_merge.py:45-55 | no input frame changes; the result is a new frame equal to `MergeSpec` of the sheets, or the same error |
| LongMerge.TaggedOk | 01_DataAnalysis/_artifacts/long_merge.py:48-51 | after the loop, `dfs` holds one stamped copy per sheet, in mapping order |
| LongMerge.TaggedRows | 01_DataAnalysis/_artifacts/long_merge.py:48-53 | the stamped copies have as many rows as the sheets |
| LongMerge.MergeRowCount | 01_DataAnalysis/_artifacts/long_merge.py:53 | a non-empty mapping merges, and the result has the sum of the sheets' row counts |
| LongMerge.MergeCell | 01_DataAnalysis/_artifacts/long_merge.py:48-53 | row `i` of sheet `k` appears at position (rows of the sheets before `k`) + `i`, so blocks follow mapping order with rows in order; its `구역` cell is the sheet's key and every other cell is the sheet's cell |
| LongMerge.MergeTaggedCell | 01_DataAnalysis/_artifacts/long_merge.py:48-53 | row `i` of sheet `k` lands at position (rows of the sheets before `k`) + `i`, holding the cells of the stamped copy of that sheet |
| LongMerge.MergeColumns | 01_DataAnalysis/_artifacts/long_merge.py:50-53 | the merged columns are `구역` plus every column some sheet has |
| LongMerge.MergeRegionBlock | 01_DataAnalysis/_artifacts/long_merge.py:48-53 | with distinct keys, a merged row's `구역` equals a sheet's key iff the row lies in that sheet's block |
| LongMerge.BlockOf | 01_DataAnalysis/_artifacts/long_merge.py:53 | every merged row position is row `i` of the block of some sheet `j` |
| LongMerge.MergeRegionOf | 01_DataAnalysis/_artifacts/long_merge.py:50-53 | every merged row lies in some sheet's block, and its `구역` cell is that sheet's key |
| LongMerge.BlocksDisjoint | 01_DataAnalysis/_artifacts/long_merge.py:53 | the blocks of two different sheets share no row |
| LongMerge.BlocksAfter | 01_DataAnalysis/_artifacts/long_merge.py:53 | an earlier sheet's block ends before a later sheet's block starts |
| LongMerge.RowsAppend | 01_DataAnalysis/_artifacts/long_merge.py:53 | row counts add up over a split mapping |
| LongMerge.MergeSingle | 01_DataAnalysis/_artifacts/long_merge.py:45-55 | a one-sheet mapping gives that sheet stamped with its key |
| Preprocessing.CleanStructure | 01_DataAnalysis/_artifacts/preprocess_outputs/preprocessing.py:7-9 | the result has max(0, rows-3) rows and max(0, cols-3) columns; the kept labels are the first ones in order, and each kept cell and dtype is the input's at the same position |
| Preprocessing.CleanStructureDropped | 01_DataAnalysis/preprocessing.py:7-9 | a column disappears iff it is among the last three labels |
| Preprocessing.Coerce | 01_DataAnalysis/_artifacts/preprocess_outputs/preprocessing.py:27 | coercing never fails: numbers and NaN stay, a text becomes a number iff the parser accepts it, and anything else becomes NaN |
| Preprocessing.ToNumeric | 01_DataAnalysis/_artifacts/preprocess_outputs/preprocessing.py:27 | the coerced column is numeric, as long as the input, and each cell is that cell coerced |
| Preprocessing.AsNumbers | 01_DataAnalysis/_artifacts/preprocess_outputs/preprocessing.py:26-27 | whether or not the `is_numeric_dtype` guard skips the coercion, the column the fill sees is numeric, as long as before, and each cell is that cell coerced: numbers and NaN stay where they are |
| Preprocessing.Mean | 01_DataAnalysis/_artifacts/preprocess_outputs/preprocessing.py:29 | the mean exists iff the column holds a number, and times the count of numbers it is their sum |
| Preprocessing.MeanBetween | 01_DataAnalysis/_artifacts/preprocess_outputs/preprocessing.py:29 | the mean lies between any lower and upper bound of the numbers |
| Preprocessing.RoundHalfEven | 01_DataAnalysis/_artifacts/preprocess_outputs/preprocessing.py:29 | rounding moves a value by at most one half, and an exact tie goes to the even neighbour |
| Preprocessing.Round1 | 01_DataAnalysis/_artifacts/preprocess_outputs/preprocessing.py:29 | `round(1)` moves a value by at most 0.05, and the result has at most one decimal |
| Preprocessing.Round1Exact | 01_DataAnalysis/_artifacts/preprocess_outputs/preprocessing.py:29 | a value that already has one decimal is left as it is |
| Preprocessing.FillNa | 01_DataAnalysis/_artifacts/preprocess_outputs/preprocessing.py:30 | `fillna` writes the fill value into exactly the NaN cells; a NaN fill value changes nothing |
| Preprocessing.FillValue | 01_DataAnalysis/_artifacts/preprocess_outputs/preprocessing.py:29 | the fill value exists iff the column holds a number, and lies within 0.05 of the mean |
| Preprocessing.Coerced | 01_DataAnalysis/_artifacts/preprocess_outputs/preprocessing.py:26-27 | the coercion step replaces only `col`, by its numeric version, and keeps labels and rows |
| Preprocessing.Filled | 01_DataAnalysis/_artifacts/preprocess_outputs/preprocessing.py:29-30 | the fill step keeps the labels, their order, the row count and every other column, and leaves `col` numeric |
| Preprocessing.Impute | 01_DataAnalysis/_artifacts/preprocess_outputs/preprocessing.py:25-32 | the helper fails iff the column is absent, with KeyError; otherwise labels and row count stay, every other column is untouched and `col` ends numeric |
| Preprocessing.ImputeCell | 01_DataAnalysis/_artifacts/preprocess_outputs/preprocessing.py:26-30 | each cell of the result is the coerced number if there is one, else the rounded mean of the numbers, else NaN when there is no number |
| Preprocessing.ImputeKeepsNumbers | 01_DataAnalysis/_artifacts/preprocess_outputs/preprocessing.py:15-22 | a cell that held a number keeps its value |
| Preprocessing.ImputeNoMissing | 01_DataAnalysis/_artifacts/preprocess_outputs/preprocessing.py:19-20 | no NaN is left iff the coerced column holds a number or has no rows |
| Preprocessing.ImputeFillBounds | 01_DataAnalysis/_artifacts/preprocess_outputs/preprocessing.py:29-30 | every filled value lies within the numbers' range widened by 0.05 |
| Preprocessing.ImputeIdempotent | 01_DataAnalysis/_artifacts/preprocess_outputs/preprocessing.py:25-32 | a second call changes nothing |
| Preprocessing.ImputeExample | 01_DataAnalysis/_artifacts/preprocess_outputs/preprocessing.py:29-30 | `[10, NaN, 20]` becomes `[10, 15.0, 20]` |
| Preprocessing.ImputeCoerceExample | 01_DataAnalysis/_artifacts/preprocess_outputs/preprocessing.py:26-30 | the text column `["12.5", "n/a", NaN]` becomes the numbers `[12.5, 12.5, 12.5]` |
| Preprocessing.HandleMissing | 01_DataAnalysis/_artifacts/preprocess_outputs/preprocessing.py:25-32 | on the caller's frame: an absent column fails with nothing written; otherwise the frame's new contents are `Impute` of the old, and the frame itself is returned |
| Preprocessing.HandleRainfallMissing | 01_DataAnalysis/preprocessing.py:12-19 | the same contract as `handle_missing`: the caller's frame is updated in place to `Impute` of its old contents and returned |

## Left out

- File and Excel I/O, matplotlib and the pipeline script are outside these helpers and are not modelled.
- Floating point is modelled by exact reals. The mean is exact, and `round(1)` rounds the exact value half to even. numpy rounds the binary product `x * 10`, so the results can differ in the last place.
- Preprocessing.Coerce: the text grammar of `pd.to_numeric` is the parameter `parseNum`, and no grammar is modelled. A date cell coerces to NaN, whereas pandas turns a datetime64 column into nanosecond counts. Booleans are not modelled.
- Preprocessing.AsNumbers: `is_numeric_dtype` is the `Numeric` dtype flag. Boolean and other numeric sub-dtypes are not distinguished.
- Dates.ToDatetime: only the `"%Y-%m"` format is modelled, not other strptime patterns. Surrounding whitespace is not accepted. A number cell in the date column is reported as a parse error. `now` and `today`, which pandas reads as the current time, are reported as parse errors, since the clock is not modelled. Non-ASCII decimal digits in the year or month are reported as parse errors too.
- Frames.Concat: the dtype of a concatenated column is the common dtype, or object when blocks differ. numpy's numeric promotion and the float upcast of columns that gain NaN are not modelled.
- Frames.Frame: frames own their contents, so aliasing between views and copies, the index object and the `SettingWithCopy` behaviour are not modelled.
- The dict iteration order of `merge_region_sheets` is the order of the `sheets` sequence.
- The `date_format` argument of `add_year_month` is fixed at its default, `"%Y-%m"`.
