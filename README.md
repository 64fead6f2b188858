# datawig imputation benchmark: a Dafny model of its bookkeeping

`experiments/benchmarks.py` compares four imputers (mean filling, k-nearest
neighbours, matrix factorisation and datawig) on four datasets. It uses two
missingness mechanisms and a list of missing percentages. Around the foreign calls
(the imputers, the dataset loaders, numpy's random generator) the file does index
and mask bookkeeping, and that bookkeeping is what this project models and proves:

- `dict_product` (module `HyperGrid`) expands a hyperparameter grid into the list of
  all assignments, in `itertools.product` order;
- `generate_missing_mask` (module `MissingMask`) builds the mask, either missing at
  random or missing not at random. The second mechanism uses affected columns,
  driver columns and a window of driver-ranked rows;
- `fancyimpute_hpo` (module `Hpo`) does the following, in order:
  - draws a validation split from the unmasked entries;
  - builds the search input and the refit input;
  - calls the imputer once per candidate;
  - selects a candidate by numpy's first-occurrence `argmin`;
  - refits with that candidate and scores the refit;
- the four `impute_*` wrappers (module `Imputers`) supply each imputer's default grid.
  For datawig, the module also models the direct call, scored by `evaluate_mse`
  (module `Mse`);
- `experiment` (module `Experiment`) runs the nested loops that produce one record
  per percentage, dataset, mechanism and imputer.

Support modules:
- `Wrappers` holds the `Result` type;
- `Numeric` holds floats with NaN and numpy's `argmin`;
- `Matrix` holds row snapshots of 2-D arrays, row-major flattening, and NaN-masked copies;
- `Arith` holds division and remainder facts.

The source's data structures are modelled as follows:
- numpy arrays are Dafny arrays (`array2` for matrices, `array` for the flat
  validation mask), and the methods that fill them in place keep that form;
- abstract functions see a matrix through its row snapshot `Rows(a)`;
- a float is `Float = NaN | Num(real)`.
- Each random draw is an explicit argument, with its range as a precondition:
  - the uniform matrix of `np.random.rand`;
  - `k`, the column permutation, the driver positions and the window starts of the
    not-at-random mechanism;
  - the training positions picked by `np.random.choice`.
- When numpy refuses to draw from an empty range, the model returns an error result.
- The imputers are abstract functions from parameters and an input with NaNs to a
  matrix. The grid-searched imputers and the corrected datawig call are assumed only to
  keep the shape (`Hpo.KeepsShape`, `Imputers.CompletesShape`). The lemmas about datawig
  as written also assume that the completer keeps every observed entry
  (`Imputers.FillsOnlyMissing`).

Two consequences of the code that are easy to miss:
- Validation positions are drawn from the unmasked entries only (`train_idx` at line
  41), so the validation mask and the evaluation mask are disjoint
  (`Hpo.ValidationDisjoint`).
- An affected column gets `n_samples // k` missing entries (line 112), and that is
  zero when `n_samples < k`. So an affected column is not guaranteed to lose any
  entry (`MissingMask.ColumnCounts` states exactly when the count is positive).

## Model

| member | source | states |
|---|---|---|
| HyperGrid.DictProduct | experiments/benchmarks.py:27-32 | `dict_product`: one dict per tuple of `itertools.product`, its keys zipped in grid order; size, entries and completeness are stated by `DictProductSize`, `DictProductAt` and `DictProductComplete` |
| HyperGrid.Product | experiments/benchmarks.py:31-32 | `itertools.product(*hp_dict.values())`, first list slowest; characterised by `ProductLength`, `ProductAt` and `ProductMembers` |
| HyperGrid.Zip | experiments/benchmarks.py:31 | `dict(zip(keys, vals))`, a later pair overriding an earlier one; characterised by `ZipKeys` and `ZipAt` |
| HyperGrid.DictProductSize | experiments/benchmarks.py:27-32 | the number of candidates is the product of the value-list lengths |
| HyperGrid.DictProductAt | experiments/benchmarks.py:27-32 | every candidate has exactly the grid's keys; candidate `i` maps key `j` to value `(i / product of later lengths) % len_j` of that key's list (last key fastest), which is a member of the list |
| HyperGrid.DictProductComplete | experiments/benchmarks.py:27-32 | every assignment of one listed value per key is among the candidates |
| HyperGrid.EmptyValueList | experiments/benchmarks.py:27-32 | a key with an empty value list leaves no candidates |
| HyperGrid.SingleKeyGrid | experiments/benchmarks.py:27-32 | a one-key grid yields one single-entry dict per value, in list order |
| HyperGrid.TwoKeyGrid | experiments/benchmarks.py:27-32 | a two-key grid yields `len1 * len2` dicts; candidate `c` takes value `c / len2` of the first key and `c % len2` of the second |
| HyperGrid.ProductMembers | experiments/benchmarks.py:31-32 | a tuple is in `itertools.product` iff it has one entry per list, each a member of its list |
| HyperGrid.ProductAt | experiments/benchmarks.py:31-32 | entry `j` of tuple `i` is element `(i / product of later lengths) % len_j` of list `j` |
| HyperGrid.ProductLength | experiments/benchmarks.py:31-32 | the product has as many tuples as the product of the lengths |
| HyperGrid.ZipAt | experiments/benchmarks.py:31 | with distinct keys, `dict(zip(ks, vs))` maps `ks[j]` to `vs[j]` |
| HyperGrid.ZipKeys | experiments/benchmarks.py:31 | the keys of `dict(zip(ks, vs))` are exactly the elements of `ks` |
| Mse.EvaluateMse | experiments/benchmarks.py:34-35 | a score that is a number is never negative |
| Mse.MseIsNaN | experiments/benchmarks.py:34-35 | the score is NaN iff nothing is masked or some masked imputed entry is NaN |
| Mse.MseZero | experiments/benchmarks.py:34-35 | when something is masked and all masked entries are numbers, the score is a number, and it is zero iff every masked entry equals the data |
| Mse.FlatMseIsNaN | experiments/benchmarks.py:35 | the same NaN condition on the flattened arrays |
| Mse.FlatMseZero | experiments/benchmarks.py:35 | the same zero condition on the flattened arrays |
| Mse.Select | experiments/benchmarks.py:35 | boolean indexing `a[mask]` of a flat array, in order; characterised by `SelectMembers` and `SelectEmpty` |
| Mse.Mean | experiments/benchmarks.py:35 | `.mean()`: NaN for an empty selection or a NaN term, otherwise the sum over the count; characterised by `MeanZero` and `MeanNonNegative` |
| Mse.FlatMse | experiments/benchmarks.py:35 | the masked mean of squared differences of two flat arrays; a numeric result is never negative |
| Mse.SelectMembers | experiments/benchmarks.py:35 | boolean indexing keeps exactly the entries at true positions |
| Mse.SelectEmpty | experiments/benchmarks.py:35 | boolean indexing is empty iff the mask has no true entry |
| Mse.SumNaN | experiments/benchmarks.py:35 | a sum is NaN iff some term is NaN |
| Mse.SumOfNonNegatives | experiments/benchmarks.py:35 | a sum of non-negative numbers is non-negative, and zero iff every term is zero |
| Mse.MeanZero | experiments/benchmarks.py:35 | the mean of non-negative numbers is zero iff each is zero |
| Mse.MeanNonNegative | experiments/benchmarks.py:35 | the mean of NaN-or-non-negative values is NaN or non-negative |
| Mse.SquareNonNegative | experiments/benchmarks.py:35 | a square is non-negative, and positive for a non-zero difference |
| Mse.ExactWhenZero | experiments/benchmarks.py:35 | a numeric squared error is positive unless the entry equals the data |
| Numeric.ArgMin | experiments/benchmarks.py:59 | `argmin` returns the first NaN if there is one, else the first minimal score |
| Numeric.FirstMinUnique | experiments/benchmarks.py:59 | at most one index is the first minimum |
| Numeric.ArgMinPrefersNaN | experiments/benchmarks.py:59 | if some score is NaN, a NaN score is selected, at or before the first one |
| Numeric.ArgMinOfNumbers | experiments/benchmarks.py:59 | among numbers, the selected score is minimal and strictly below every earlier one |
| Hpo.TrainIndices | experiments/benchmarks.py:41 | the flat positions of unmasked entries, each in range and unmasked, strictly increasing, none left out |
| Hpo.NValidation | experiments/benchmarks.py:43 | `n_validation` is the floor of `len(train_idx) * percent / 100` |
| Hpo.ValidationMask | experiments/benchmarks.py:45-47 | the reshaped validation mask: of the data's shape, and true at `(i, j)` iff flat position `i * m + j` was drawn |
| Hpo.MarkValidation | experiments/benchmarks.py:45-46 | the flat mask is set exactly at the drawn training positions |
| Hpo.DrawValidationMask | experiments/benchmarks.py:44-47 | the reshaped validation mask has the data's shape and equals the drawn set |
| Hpo.HideSearchEntries | experiments/benchmarks.py:49-51 | the search array is the data with NaN wherever `mask` or `validation_mask` is set |
| Hpo.SearchInput | experiments/benchmarks.py:49-51 | the search input has the data's shape; `InputsHide` states that it is NaN exactly where `mask` or `validation_mask` is set and the data elsewhere |
| Hpo.RefitInput | experiments/benchmarks.py:61-62 | the refit input has the data's shape; `InputsHide` states that it is NaN exactly at `mask` |
| Hpo.Scores | experiments/benchmarks.py:52-57 | `mse_hpo`: one score per candidate, in candidate order, each the validation score of that candidate's imputation of the search input |
| Hpo.Search | experiments/benchmarks.py:52-57 | one call per candidate, in order, all on the same search input; the scores are the validation scores of the imputed matrices |
| Hpo.FancyImputeHpo | experiments/benchmarks.py:37-66 | it errs iff there are no candidates. There is one imputer call per candidate plus one more: the search calls on the search input, then a refit call with the best candidate on the refit input. The best candidate is the first-argmin of the validation scores. The result is the refit's score on the evaluation mask |
| Hpo.ValidationDisjoint | experiments/benchmarks.py:41-47 | no validation entry is under the evaluation mask |
| Hpo.ValidationCount | experiments/benchmarks.py:43-46 | at most `n_validation` validation entries (repeats collapse), and none iff `n_validation` is zero |
| Hpo.InputsHide | experiments/benchmarks.py:49-62 | the search input is NaN exactly where `mask` or `validation_mask` is set and the data elsewhere; the refit input is NaN exactly at `mask`, so validation entries are visible again |
| Hpo.NoValidationPicksFirst | experiments/benchmarks.py:43-59 | with no validation entries every score is NaN and the first candidate is selected |
| Hpo.SelectionIsFirstMinimal | experiments/benchmarks.py:59 | no score is below the selected one, every earlier score is above it, and it is the only first minimum |
| Imputers.MeanCandidates | experiments/benchmarks.py:68-69 | `SimpleFill` has the single candidate `fill_method = "mean"` |
| Imputers.KnnCandidates | experiments/benchmarks.py:71-72 | `KNN` candidates are `k = 2, 4, 6` in that order |
| Imputers.MfCandidates | experiments/benchmarks.py:75-76 | six `MatrixFactorization` candidates, rank slowest: candidate `c` has rank `[5, 10, 50][c / 2]` and penalty `[1e-3, 1e-5][c % 2]` |
| Imputers.ImputeMean | experiments/benchmarks.py:68-69 | succeeds with the mean candidate, two calls both with it, the refit on the refit input and its score returned |
| Imputers.ImputeKnn | experiments/benchmarks.py:71-72 | succeeds with four calls: `k = 2, 4, 6` on the search input, then the refit on the refit input. The selected `k` is the first-argmin of the three validation scores, and the returned score is the refit's score on the evaluation mask |
| Imputers.ImputeMf | experiments/benchmarks.py:75-76 | succeeds with seven calls: the six candidates in order on the search input, then the refit on the refit input. The selected candidate is the first-argmin of the six validation scores, and the returned score is the refit's score on the evaluation mask |
| Imputers.DatawigAsWritten | experiments/benchmarks.py:80-83 | the score as written: the completer receives the complete data, and its output is scored on `mask`; `AsWrittenReportsZero` states the consequence |
| Imputers.DatawigScore | experiments/benchmarks.py:79-84 | the intended score: the completer receives the data with NaN at `mask`; `DatawigScoreZero` states when it is zero |
| Imputers.ImputeDatawig | experiments/benchmarks.py:79-84 | with the mask applied before completing, the result is the score of the completed matrix on the evaluation mask; the completer need only keep the shape |
| Imputers.DatawigScoreZero | experiments/benchmarks.py:79-84 | the completer then sees NaN exactly at the masked entries, and the score is zero iff it reconstructs every one of them |
| Imputers.AsWrittenReportsZero | experiments/benchmarks.py:79-84 | as written, any completer that keeps observed entries scores exactly zero whenever the mask hides anything |
| Imputers.AsWrittenCounterexample | experiments/benchmarks.py:79-84 | on data `[[1, 2]]` with the first entry masked, a zero-filling completer is scored 0 as written |
| Imputers.ExampleScore | experiments/benchmarks.py:79-84 | on data `[[1, 2]]` with the first entry masked, a completion that puts 0 there has squared error 1 on the masked entries |
| Imputers.MaskedScoreOfExample | experiments/benchmarks.py:79-84 | the same completer on the same input is scored 1 once the entry is hidden |
| Imputers.FillZeroFillsOnlyMissing | experiments/benchmarks.py:82 | the zero-filling completer keeps the shape and every observed entry |
| MissingMask.GenerateMissingMask | experiments/benchmarks.py:96-117 | the mask has the data's shape. At random it is the threshold mask of the draws and always succeeds. Not at random it succeeds exactly when both ranges are non-empty, and it is then the window mask |
| MissingMask.AtRandom | experiments/benchmarks.py:98 | `np.random.rand(*X.shape) < percent_missing / 100.` on the draws: a mask of the data's shape |
| MissingMask.AtRandomExtremes | experiments/benchmarks.py:97-98 | at 0 percent nothing is masked, at 100 percent everything is, and a higher percentage masks a superset |
| MissingMask.NotAtRandom | experiments/benchmarks.py:99-116 | it fails with no column count iff `n_features <= 2`, and with no window start iff the start range is empty; otherwise each affected column is masked exactly at its driver-ranked window and other columns nowhere |
| MissingMask.MaskedRows | experiments/benchmarks.py:112-115 | the rows at the driver's ranked positions `[start, start + n_samples // k)` of the `q`-th affected column |
| MissingMask.IsNotAtRandomMask | experiments/benchmarks.py:108-116 | the not-at-random mask: affected column `q` is masked exactly at `MaskedRows(q)`, and no unaffected column is masked |
| MissingMask.MarkWindow | experiments/benchmarks.py:114-116 | the column is set at the rows of the window, nothing else changes |
| MissingMask.StartBoundPositive | experiments/benchmarks.py:112-113 | the start range is non-empty iff `n_samples >= 3`, or `n_samples == 2` with `k > 2` |
| MissingMask.ColumnsPartition | experiments/benchmarks.py:104-106 | the affected and unaffected columns are disjoint and together are all columns |
| MissingMask.DriverIsUnaffected | experiments/benchmarks.py:106-110 | each driver is an unaffected column, hence never masked |
| MissingMask.WindowBound | experiments/benchmarks.py:112-114 | every window ends at most at rank `n_samples - 2` |
| MissingMask.WindowSize | experiments/benchmarks.py:114-115 | a window over distinct ranks has exactly `d` rows |
| MissingMask.AffectedColumnCount | experiments/benchmarks.py:108-116 | the `q`-th affected column has exactly `n_samples // k` masked entries, and that is at most `n_samples - 2` |
| MissingMask.ColumnCounts | experiments/benchmarks.py:108-116 | an affected column has exactly `n_samples // k <= n_samples - 2` masked entries (positive iff `n_samples >= k`); an unaffected one has none |
| MissingMask.TopRowsKept | experiments/benchmarks.py:112-116 | the two highest-ranked rows of the driver are never masked, and every masked row's driver value is at most theirs |
| MissingMask.ArgsortsAreOrders | experiments/benchmarks.py:115 | each column's argsort is a permutation of the rows |
| Matrix.Incomplete | experiments/benchmarks.py:49-51 | the copy of the data with NaN at the mask, as a value, of the data's shape; its cells are stated by `IncompleteAt` |
| Matrix.SetMissing | experiments/benchmarks.py:62 | the in-place `X_incomplete[mask] = np.nan` (also line 51): a cell becomes NaN where the mask is set and keeps its old value elsewhere |
| Matrix.MaskedCopy | experiments/benchmarks.py:61-62 | `X.copy()` with NaN at the true mask entries |
| Matrix.IncompleteAt | experiments/benchmarks.py:62 | an entry of the copy is NaN iff masked, and the data otherwise |
| Matrix.MissingCellsOfIncomplete | experiments/benchmarks.py:62 | the NaN cells of the copy are exactly the mask's true cells |
| Matrix.FlattenAt | experiments/benchmarks.py:41-47 | `reshape` is row-major: entry `(i, j)` is flat position `i * m + j` |
| Experiment.Experiment | experiments/benchmarks.py:120-153 | `len(percent_missing_list) * 4 * 2 * 4` records; record `r` is the run at the coordinates of `r` |
| Experiment.RunRecord | experiments/benchmarks.py:137-152 | the run at coordinates `(p, l, a, i)` records the loader's and imputer's names, the percentage and the mechanism. Its score comes from the data of loader `l` and a mask that does not depend on the imputer |
| Experiment.Entry | experiments/benchmarks.py:144-150 | record `r` names the dataset, imputer, percentage and mechanism at the coordinates of `r` |
| Experiment.Ordered | experiments/benchmarks.py:137-152 | records are ordered percentage, then dataset, then mechanism, then imputer (lexicographically) |
| Experiment.CoordinatesOfPosition | experiments/benchmarks.py:137-152 | every run of the loop nest appears, at its position in the results |
| Experiment.PositionOfCoordinates | experiments/benchmarks.py:137-152 | every position holds exactly the run whose coordinates it decodes to |
| Experiment.RunImputers | experiments/benchmarks.py:142-152 | the inner loop appends the four imputers' records of one mask |

## Left out

- Imputer internals are not modelled. `SimpleFill`, `KNN`, `MatrixFactorization` and
  datawig's `SimpleImputer.complete` are foreign code, so they are abstract functions
  assumed only to keep the shape. The lemmas about datawig as written also assume that
  the completer keeps the observed entries.
- `get_data` (lines 86-94) is a wrapper over the sklearn loaders, and the datasets
  are abstract values. Also left out: its `is` comparison of names and the unbound `X`
  for an unknown loader.
- The global numpy random generator and its seeding (line 24) are replaced by
  explicit draws. In `Experiment.Experiment` the random state is replaced by call
  ordinals:
  - the mask function receives the number of masks drawn before;
  - the run function receives the number of imputer runs before.
- Floating point is left out. Scores and data are reals with a NaN value, without
  rounding. `percent_missing / 100.` and `int(len(train_idx) * percent_validation / 100)`
  are exact.
- `print` (lines 56, 65, 151), the logger level (lines 155-158), the open-file limit
  (lines 161-163) and the commented-out run and JSON dump (lines 165-166) are left out,
  since they have no modellable behaviour.
- The keyword `hyperparams` of `impute_knn` and `impute_mf` is modelled at its
  default only. `Hpo.FancyImputeHpo` covers any grid.
- `Experiment.Experiment` takes the mask generation and the imputer runs as abstract
  functions. It does not call `MissingMask.GenerateMissingMask` or the `Imputers`
  methods: those work on arrays and return error results, and neither is possible
  inside a pure function argument.
- `MissingMask.GenerateMissingMask`: `percent_missing` has no effect on the
  not-at-random mask, as in the source.
- A numpy error raised inside a loop aborts the whole program; the model returns an
  error result instead. An error inside `experiment` is not modelled, because its
  abstract functions are total.

## Findings

| source | as written | input that shows it | evidently intended | confidence | as-written member | corrected member |
|---|---|---|---|---|---|---|
| experiments/benchmarks.py:79-84 | `impute_datawig` hands the complete data `X` to `SimpleImputer.complete` and never applies `mask`, so nothing is missing and the score compares `X` with itself | `X = [[1, 2]]`, `mask = [[True, False]]`, a completer that fills NaN with 0: reported error 0, true error 1 | set the masked entries to NaN before completing, as `fancyimpute_hpo` does at line 62 | high, not executed | Imputers.AsWrittenCounterexample | Imputers.ImputeDatawig |
