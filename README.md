# Stratified sample of the artist spreadsheet: validation and class filter

This project models the validate-and-filter pipeline of `200samples.py`. The script
loads a spreadsheet of artists and checks that the stratification column (`star`) exists
and has no missing values. It then drops every class of that column with fewer than
`min_count` rows (default 4). It checks the requested sample size against the rows and
the classes that remain. Only then does it call a stratified train/test split with a fixed
seed. `main` catches the first exception and prints an advice message chosen by the
exception's class.

The model has three modules:

- `Wrappers` (`wrappers.dfy`): `Option`, `Result` and `Outcome`. These stand in for
  pandas' missing cells and for Python's exceptions.
- `Frames` (`frames.dfy`): a DataFrame as a list of column names and a list of rows. The
  subset type `Frame` says that every row has exactly the frame's columns. The module also
  models the pandas queries the script uses on one column: `value_counts` (`Count`),
  `nunique` (the size of `Classes`), `isnull().any()` (`AnyNull`) and selection by an `isin`
  mask (`DropClasses`). Like `value_counts` and `nunique`, `Count` and `Classes` skip null
  cells. The classes passed to the `isin` selection come from `value_counts`, which drops
  nulls, so a null cell is never in them and its row is never removed.
- `Samples` (`samples.dfy`): the checks, `remove_small_classes`, the wrapper around the
  split, and `main`. `Pipeline` is the body of `main`'s `try`. `Main` adds the handlers that
  pick the reported category.

The split from the library is a parameter of type `Splitter`. `StratifiedSampling` calls it
with the source's arguments: the exact fraction `(len - size) / len`, the stratification
column, and seed 42. Its precondition `ReadyToSample` is the state that `main`'s checks
establish. So the verifier confirms at the call site that the split is reached only after
every check has passed.

Two details of the code are modelled as written:

- The sample size is checked against the row count of the frame *after* small classes are
  removed. Line 80 runs before line 83. `SizeIsCheckedAfterFiltering` gives a frame of five
  rows on which a sample of five passes the check before filtering but fails after it.
- The comment at line 79 speaks of classes with fewer than 2 rows. The default threshold at
  line 37 is 4, so classes of 2 or 3 rows are removed too
  (`DefaultThresholdRemovesClassesBelowFour`).

## Model

| member | source | states |
|---|---|---|
| `Frames.AnyNull` | DS/Statistics_Artist/code/200samples.py:34 | `isnull().any()` is true exactly when some row has a null cell in the column |
| `Frames.Column` | DS/Statistics_Artist/code/200samples.py:34-54 | `df[col]` has one cell per row, in row order, each the row's cell in that column |
| `Frames.Count` | DS/Statistics_Artist/code/200samples.py:39 | `value_counts()[v]` is at most the row count; `ClassesAreCounted` ties it to the classes present |
| `Frames.Classes` | DS/Statistics_Artist/code/200samples.py:47 | there are never more distinct classes (`nunique`) than rows; `ClassesAreCounted` says which values they are |
| `Frames.DropClasses` | DS/Statistics_Artist/code/200samples.py:42 | the `isin` selection keeps only rows of the input whose cell is null or outside the dropped classes, and never lengthens the frame |
| `Frames.ClassesAreCounted` | DS/Statistics_Artist/code/200samples.py:39-47 | a value is one of the column's distinct classes exactly when `value_counts` counts it at least once |
| `Frames.CountDropClasses` | DS/Statistics_Artist/code/200samples.py:42 | after the selection a dropped class has no rows and every other class keeps its full count |
| `Frames.ClassesDropClasses` | DS/Statistics_Artist/code/200samples.py:42 | the classes left after the selection are the old classes minus the dropped ones |
| `Frames.MultisetDropClasses` | DS/Statistics_Artist/code/200samples.py:42 | every row outside the dropped classes is kept exactly as often as it occurs, and no other row is kept |
| `Frames.DropClassesEmbedding` | DS/Statistics_Artist/code/200samples.py:42 | the kept rows sit at strictly increasing positions of the input |
| `Frames.DropClassesIsSubsequence` | DS/Statistics_Artist/code/200samples.py:42 | the selection is an order-preserving subsequence of the input rows |
| `Frames.DropClassesNothingToDrop` | DS/Statistics_Artist/code/200samples.py:41-43 | when no row is in a dropped class the selection returns its input, so the `if not small_classes.empty` shortcut does not change the result |
| `Samples.Categorize` | DS/Statistics_Artist/code/200samples.py:96-101 | FileNotFoundError, and only it, gets the "check the file path" advice; ValueError, and only it, gets the "check the input values" advice; anything else is unexpected |
| `Samples.CheckColumnExists` | DS/Statistics_Artist/code/200samples.py:20-23 | passes exactly when the column is among the frame's columns, else fails with a missing-column error naming it |
| `Samples.CheckMissingValues` | DS/Statistics_Artist/code/200samples.py:32-35 | passes exactly when every row has a non-null cell in the column, else fails with a missing-values error naming it |
| `Samples.ValidateSampleSize` | DS/Statistics_Artist/code/200samples.py:25-30 | passes exactly when `0 < size <= len(df)`; a non-positive size and a size above the row count raise different errors, the former tested first |
| `Samples.SmallClasses` | DS/Statistics_Artist/code/200samples.py:40 | the small classes are classes present in the column whose count is positive and below `min_count` |
| `Samples.ValidateClassCount` | DS/Statistics_Artist/code/200samples.py:45-49 | passes exactly when the size is at least the number of distinct non-null classes; the error carries the size and that number |
| `Samples.RemoveSmallClasses` | DS/Statistics_Artist/code/200samples.py:37-43 | keeps the columns and never adds rows |
| `Samples.TestSize` | DS/Statistics_Artist/code/200samples.py:54 | once the size checks have passed, the test fraction is well defined (no division by zero), lies in `[0, 1)` and is `(len - size) / len` |
| `Samples.StratifiedSampling` | DS/Statistics_Artist/code/200samples.py:51-59 | on success returns the first part of the split unchanged; fails exactly when the split fails, keeping its message, with a split ValueError staying a ValueError and any other split failure becoming a plain Exception |
| `Samples.RemoveSmallClassesKeepsExactlyLargeClasses` | DS/Statistics_Artist/code/200samples.py:39-42 | a row is kept, as often as it occurs, exactly when its cell is null or its class has at least `min_count` rows in the input; no other row survives |
| `Samples.RemoveSmallClassesPreservesOrder` | DS/Statistics_Artist/code/200samples.py:42 | the output is an order-preserving subsequence of the input, with no more rows and a subset of its classes (so no more distinct classes) |
| `Samples.RemoveSmallClassesCounts` | DS/Statistics_Artist/code/200samples.py:39-42 | classes are removed whole: a class below `min_count` ends with 0 rows, any other keeps its full count |
| `Samples.RemoveSmallClassesSurvivors` | DS/Statistics_Artist/code/200samples.py:39-43 | the surviving classes are exactly the input classes with at least `min_count` rows, and each still has at least `min_count` rows |
| `Samples.RemoveSmallClassesIdempotent` | DS/Statistics_Artist/code/200samples.py:37-43 | filtering the filtered frame again returns it unchanged |
| `Samples.RemoveSmallClassesUnchangedIff` | DS/Statistics_Artist/code/200samples.py:40-43 | the frame comes back unchanged exactly when no class has fewer than `min_count` rows |
| `Samples.RemoveSmallClassesLowThreshold` | DS/Statistics_Artist/code/200samples.py:37-43 | with `min_count <= 1` nothing is ever removed |
| `Samples.RemoveSmallClassesNoNull` | DS/Statistics_Artist/code/200samples.py:32-43 | for any threshold, a frame without nulls in the column still has none after filtering |
| `Samples.PipelineStopsAtFirstFailure` | DS/Statistics_Artist/code/200samples.py:68-89 | the checks run in order (column, nulls, size against the filtered rows, size against the classes that reach 4 rows) and the first failure is the outcome; when all pass, the result is the split's |
| `Samples.SamplerReachedOnlyWhenChecksPass` | DS/Statistics_Artist/code/200samples.py:80-89 | a result or error from the split implies that the column exists and has no nulls, and that on the filtered frame `0 < size <= len`, `size >= nunique` and every class has at least 4 rows |
| `Samples.Pipeline` | DS/Statistics_Artist/code/200samples.py:69-92 | the body of `main`'s `try`: its own contract says a result or error from the split comes only after the column exists and the filtered frame is `ReadyToSample`; the order of the checks is stated by `PipelineStopsAtFirstFailure` and `SamplerReachedOnlyWhenChecksPass` |
| `Samples.ReadyAfterChecks` | DS/Statistics_Artist/code/200samples.py:77-89 | once the column has no nulls and the size fits the filtered rows and classes, the filtered frame meets the split's precondition: no nulls and every class with at least 4 rows |
| `Samples.Main` | DS/Statistics_Artist/code/200samples.py:89-101 | `main` hands on a sample exactly when the pipeline succeeds, and the sample is the pipeline's (the split's first part); otherwise it reports the pipeline's error; every validation error is reported as "check the input values", and of the pipeline's errors only a non-ValueError split failure is reported as unexpected (the save at line 92 is not modelled), and nothing as a missing file |
| `Samples.EmptyAfterFilteringIsRejected` | DS/Statistics_Artist/code/200samples.py:80-83 | a frame that filtering empties is stopped by the size check before the split |
| `Samples.DefaultThresholdRemovesClassesBelowFour` | DS/Statistics_Artist/code/200samples.py:37-80 | under the default threshold every class with fewer than 4 rows, including classes of 2 or 3, is gone after filtering |
| `Samples.FourAndOneSmallClasses` | DS/Statistics_Artist/code/200samples.py:39-40 | on rows of classes `[1, 1, 1, 1, 2]` under the default threshold, class 2 is the only small class |
| `Samples.FourAndOneDropTwo` | DS/Statistics_Artist/code/200samples.py:42 | on those rows the `isin` selection without class 2 leaves the four rows of class 1 |
| `Samples.FourAndOneFiltered` | DS/Statistics_Artist/code/200samples.py:37-43 | on rows of classes `[1, 1, 1, 1, 2]` the filter leaves the four rows of class 1 |
| `Samples.SizeIsCheckedAfterFiltering` | DS/Statistics_Artist/code/200samples.py:80-83 | on that frame a sample of 5 passes the size check before filtering, yet the run fails with the size-above-rows error |

## Left out

- `read_data` (lines 8-18) reads a spreadsheet from disk. `Pipeline` and `Main` start from
  the loaded frame. Note that `read_data` re-raises its own "empty file" ValueError as a
  plain Exception, which `main` reports as unexpected. The "check the file path" category
  therefore arises only from loading and is unreachable in this model.
- `save_sample` (lines 61-66) and the success message: file output. `Main` ends with the
  sample that would be written. `save_sample` re-raises any failure to write as a plain
  Exception, which `main` reports as unexpected. So a failed save is a second unexpected
  outcome of `main`, beside the non-ValueError split failure that `Main` models.
- The configuration and `print` calls of `__main__` (lines 103-111): console output and fixed paths.
- The `isinstance(sample_size, int)` test (line 27): the sample size is an `int` parameter.
- `train_test_split` (line 54) is a library call with seeded randomness and a floating-point
  `test_size`. It is a parameter, and nothing is claimed about the sample it returns: not
  its size, not proportional allocation, and not its own rejection of a test fraction of 0.
- `StratifiedSampling`'s test fraction is an exact rational number, not a float. In floating
  point the fraction can round up. With 100 rows and a size of 93, `0.07 * 100` exceeds 7,
  so the split may take 8 test rows and return a 92-row sample. This is not modelled.
- `statistics.py`: reads the sample and prints pandas aggregates. It has no logic of its own.
- Duplicate column names are not representable. Each row maps a column name to one cell.
- Index labels are not modelled. Filtering keeps pandas' original labels, which the writer drops.
- `CheckMissingValues`, `RemoveSmallClasses` and `ValidateClassCount` require the column to
  exist. Pandas raises KeyError otherwise, and `main` never reaches them in that case.
