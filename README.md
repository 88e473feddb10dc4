# personal_library in Dafny

A Dafny model of the numerical core of *personal_library*, a collection of
Python helpers for engineering work:

- **Time-series correlation.** `correlation` and `normalized_covariance`
  exist in two versions:
  - system_identification/covariance.py has the normalised correlogram
    computed through `np.correlate`.
  - covariance.py has the older loop, which re-centres both series at
    every lag.
- **`partitions`.** Lists every way of spreading at most `value` units
  over `positions` places.
- **`step_import`.** Reads an LTspice `.step` export. It exists in
  ltscompat.py and in its earlier copy ltspice.py.
- **`csv_export`.** Prepares the columns a CSV file is written from.
- **Benchmark functions.** Test functions for optimisers (sphere,
  Rosenbrock, Styblinski–Tang, …).
- **`ivmpf_disassembler`.** Turns mpmath intervals into pairs of
  endpoints.

Floating-point numbers are modelled as `real`. NaN is the `NaN` case of
`Floats.Float`. 0/0 gives NaN, as numpy's does, and the model never
divides a non-zero number by 0: the lemmas ending in `NaNIsZeroOverZero`
and `Correlation.ZeroDenominatorZeroSums` show that every zero divisor
comes with a zero numerator.

Several calls into numpy, scipy and mpmath enter as parameters:
- `np.sqrt` enters as a parameter `sqrt`, with `Series.IsSqrt` saying it is
  a square root.
- The normal quantile `norm.ppf((1 + c) / 2)` enters as a number `z`.
- `np.fromstring` enters through the rows it parses.
- Number formatting, `str` and `mp.mpf` enter as function fields of
  `CsvManager.Formatter` and `IvmpfTools.Conversions`.

Each imperative loop of the source is a method with loop invariants;
the list comprehension of `partitions` is a recursion over functions. The method is
proved against a function that states what the loop computes, and the
properties are proved about that function.

Files:
- `wrappers.dfy`: `Option`, `Result`, and floats with NaN.
- `series.dfy`: sums, means, centring, the dot product, the variance and
  the Cauchy–Schwarz inequality.
- `correlation.dfy`: system_identification/covariance.py.
- `legacy_correlation.dfy`: covariance.py.
- `partitions.dfy`: both copies of `partitions`.
- `step_blocks.dfy`, `ltscompat.dfy` and `ltspice.dfy`: `step_import`.
- `csvmanager.dfy`: `csv_export`.
- `benchmark_functions.dfy`: the benchmark functions.
- `ivmpftools.dfy`: `ivmpf_disassembler`.

## Model

| member | source | states |
|---|---|---|
| Floats.Quotient | system_identification/covariance.py:109-110 | division as numpy does it for 0/0: NaN exactly when the divisor is 0 (a non-zero numerator never meets a zero divisor, by the `NaNIsZeroOverZero` lemmas) |
| Floats.Plus | benchmark_functions.py:13-15 | adding to NaN gives NaN, adding to a number adds |
| Series.Sum | covariance.py:73-74 | `np.sum`, accumulated from the first sample to the last (definition; SumShift and CentreSumsToZero state its properties) |
| Series.Mean | covariance.py:73-74 | `np.mean` of a non-empty series, the sum over the count (definition; MeanShift states its properties) |
| Series.Shift | system_identification/covariance.py:89 | `s - c` has the length of `s` |
| Series.Centre | system_identification/covariance.py:89 | `s - np.mean(s)` has the length of `s` |
| Series.CentreSumsToZero | system_identification/covariance.py:89 | a centred series sums to 0 |
| Series.Dot | covariance.py:76 | `np.sum(a*b)` for series of equal length (definition; DotComm, DotWithZero and CauchySchwarz state its properties) |
| Series.SumSq | covariance.py:76 | `np.sum(s*s)` (definition; SumSqNonNegative and SumSqZero state its properties) |
| Series.Var | system_identification/covariance.py:110 | `np.var`, the mean squared deviation (definition; VarNonNegative and VarZero state its properties) |
| Series.SumShift | covariance.py:73-74 | shifting by `c` lowers the sum by `c·N` |
| Series.MeanShift | covariance.py:79-80 | shifting by `c` lowers the mean by `c` |
| Series.RecentreWindow | covariance.py:79-80 | re-centring on a window's mean gives the original series minus the window's own mean |
| Series.DotComm | system_identification/covariance.py:37 | the dot product is symmetric |
| Series.DotSelf | covariance.py:76 | `np.sum(y*y)` is the sum of squares |
| Series.DotWithZero | system_identification/covariance.py:109 | a dot product with an all-zero series is 0 |
| Series.SumSqNonNegative | benchmark_functions.py:23-28 | a sum of squares is non-negative |
| Series.SumSqZero | benchmark_functions.py:23-28 | a sum of squares is 0 exactly when every entry is 0 |
| Series.VarNonNegative | system_identification/covariance.py:110 | `np.var` is non-negative |
| Series.VarZero | system_identification/covariance.py:110 | `np.var` is 0 exactly when the centred series is all zero |
| Series.CauchySchwarz | system_identification/covariance.py:37 | `(a·b)² ≤ (a·a)(b·b)` |
| Correlation.FullCorrelate | system_identification/covariance.py:109 | `np.correlate(a, v, 'full')` has `len(a) + len(v) - 1` entries |
| Correlation.Divide | system_identification/covariance.py:109-110 | dividing a series by one number keeps its length |
| Correlation.Correlate | system_identification/covariance.py:43-116 | fails exactly on an empty operand; otherwise the bounds are `∓ z / sqrt(N)` |
| Correlation.Arange | system_identification/covariance.py:86 | `np.arange(lo, hi)` (definition; LagAxisShape states its shape) |
| Correlation.LagAxis | system_identification/covariance.py:86 | the lag axis `np.arange(-(N-1), N)` (definition; LagAxisShape states its shape) |
| Correlation.Ndim | system_identification/covariance.py:95-96 | `np.array(u).ndim` for an absent, scalar or series `u` (definition; AutoModeShape uses it) |
| Correlation.Partner | system_identification/covariance.py:95-96 | the series `y` is correlated with: `y` itself unless `u` has a dimension (definition; AutoModeShape and CrossModeShape state the shapes) |
| Correlation.Lagged | system_identification/covariance.py:106-109 | one entry of `np.correlate`: the sum of `a[n+k]·v[n]` over the overlap (definition; LaggedSymmetric, LaggedZeroLag and LaggedWithZero state its properties) |
| Correlation.Denominator | system_identification/covariance.py:109-110 | `np.sqrt(np.var(y)·np.var(u))·N` (definition; AutoVarianceRatio and ZeroDenominatorZeroSums state its properties) |
| Correlation.Spread | system_identification/covariance.py:110 | `np.sqrt(vy*vu)*len(y)` from the two variances (definition; Denominator applies it, ZeroDenominatorZeroSums states when it is 0) |
| Correlation.LagAxisShape | system_identification/covariance.py:86 | `t` runs from `-(N-1)` to `N-1` in steps of one |
| Correlation.AutoModeShape | system_identification/covariance.py:95-98 | with `u` absent or a scalar, exactly `N` values are returned at the lags `0 … N-1` |
| Correlation.CrossModeShape | system_identification/covariance.py:100-102 | in cross mode `N+M-1` values and `2N-1` lags are returned; the counts agree only when `M == N` |
| Correlation.ValuesAreNormalisedLaggedSums | system_identification/covariance.py:104-110 | every value is the lagged sum of the centred series at its lag over the common denominator |
| Correlation.LaggedSymmetric | system_identification/covariance.py:91-94 | the lagged sum of a series with itself is the same at `k` and `-k` |
| Correlation.FullAutoCorrelateSymmetric | system_identification/covariance.py:91-98 | the full autocorrelation is symmetric about its middle, so keeping the right half loses nothing |
| Correlation.LaggedZeroLag | system_identification/covariance.py:104-107 | at lag 0 the lagged sum is the dot product |
| Correlation.AutoZeroLagIsOne | system_identification/covariance.py:95-110 | a non-constant series has autocorrelation 1 at lag 0 |
| Correlation.AutoFirstValue | system_identification/covariance.py:109-110 | the first autocorrelation value is the sum of squares over the denominator |
| Correlation.AutoVarianceRatio | system_identification/covariance.py:108-110 | for a non-constant series that ratio is 1 |
| Correlation.ZeroDenominatorZeroSums | system_identification/covariance.py:109-110 | a zero denominator means a constant series and all lagged sums 0, so every NaN is 0/0 |
| Correlation.LaggedWithZero | system_identification/covariance.py:106-107 | a lagged sum with an all-zero series is 0 |
| Correlation.NormalizedCovariance | system_identification/covariance.py:10-37 | `normalized_covariance`, here and in covariance.py:9-31, whose body `np.corrcoef(x, y)[0,1]` is the same: fails exactly when the lengths differ |
| Correlation.NormalizedCovarianceSymmetric | system_identification/covariance.py:37 | swapping the arguments gives the same result |
| Correlation.NormalizedCovarianceSelf | system_identification/covariance.py:37 | a non-constant series has coefficient 1 with itself |
| Correlation.NormalizedCovarianceBounded | system_identification/covariance.py:37 | every numeric coefficient lies in [-1, 1] |
| Correlation.NormalizedCovarianceNaNIsZeroOverZero | system_identification/covariance.py:37 | the coefficient is NaN only when the covariance is 0 as well, so only numpy's 0/0 occurs |
| LegacyCorrelation.Broadcastable | covariance.py:76 | numpy's broadcasting rule for `y*u`: equal lengths, or one of them 1 (definition; Correlate states ShapeMismatch exactly when it fails) |
| LegacyCorrelation.Correlate | covariance.py:35-90 | lengths numpy cannot broadcast fail with ShapeMismatch; otherwise `N < 2` fails with IndexOutOfRange; a single-sample `u` gives `[NaN]` for `N` of 2 or 3 and ShapeMismatch from `N = 4` on; equal lengths give `⌊N/2⌋` values, value `k` being Pearson's coefficient of `y[:N-k]` and `u[k:]`; bounds are `± z / sqrt(N)` |
| LegacyCorrelation.BroadcastLag | covariance.py:73-76 | with a single sample in `u`, the lag-0 value is NaN (0/0) |
| LegacyCorrelation.Repeat | covariance.py:76 | a single-sample `u` broadcast over the samples of `y` (definition; BroadcastLag uses it) |
| LegacyCorrelation.LagCoefficient | covariance.py:81-82 | Pearson's coefficient of `y[:N-k]` and `u[k:]` (definition; LagStep, AutoZeroLagIsOne and LagCoefficientBounded state its properties) |
| LegacyCorrelation.Ratio | covariance.py:76 | `np.sum(y*u) / (np.sqrt(np.sum(y*y)) * np.sqrt(np.sum(u*u)))` on the current series (definition; LagStep ties it to LagCoefficient) |
| LegacyCorrelation.HeadCentred | covariance.py:79 | the series minus the mean of its first `m` samples keeps the length of the series |
| LegacyCorrelation.TailCentred | covariance.py:80 | the series minus the mean of its samples from `i` on keeps the length of the series |
| LegacyCorrelation.FirstLag | covariance.py:73-76 | after centring, the lag-0 value is the coefficient at lag 0 |
| LegacyCorrelation.FillLags | covariance.py:78-83 | the loop fills every slot `t` of `ryu` with the coefficient at lag `t` |
| LegacyCorrelation.NextLag | covariance.py:79-82 | one iteration moves the centred series to lag `t` and appends the coefficient at lag `t` |
| LegacyCorrelation.LagStep | covariance.py:79-82 | re-centring at lag `t` gives the original series minus the window means, and the ratio is the coefficient at lag `t` |
| LegacyCorrelation.WindowsCentred | covariance.py:79-80 | after the update, `y[:-t]` and `u[t:]` are centred windows summing to 0 |
| LegacyCorrelation.AutoZeroLagIsOne | covariance.py:76 | with `u == y` non-constant, the lag-0 value is 1 |
| LegacyCorrelation.LagCoefficientBounded | covariance.py:81-82 | every stored numeric coefficient lies in [-1, 1] |
| LegacyCorrelation.LagCoefficientNaNIsZeroOverZero | covariance.py:81-82 | a NaN coefficient is 0/0: the covariance of the two windows is 0 |
| Partitions.Partitions | partitions.py:11-18 | a negative `value` gives no lists (below the last level) |
| Partitions.Sweep | partitions.py:14-18 | no lists once `i` passes `value` |
| Partitions.Extend | partitions.py:15 | `item + [i]` for every item, in order |
| Partitions.ExtendMembership | partitions.py:15 | a list is produced by `Extend` exactly when it ends in `i` and its prefix is one of the items |
| Partitions.AdmissibleSnoc | partitions.py:16-17 | a list is admissible exactly when its last entry is non-negative and its prefix is admissible for what remains |
| Partitions.PartitionsMembership | partitions.py:11-18 | the result holds exactly the lists of `positions - depth` non-negative integers summing to at most `value` |
| Partitions.SweepMembership | partitions.py:16-17 | the comprehension from `i` on holds exactly the admissible lists whose last entry is at least `i` |
| Partitions.BlockMembership | partitions.py:15-17 | the lists built for one `i` are exactly the admissible lists ending in `i` |
| Partitions.ExtendDistinct | partitions.py:15 | extending distinct lists keeps them distinct |
| Partitions.PartitionsDistinct | partitions.py:11-18 | no list appears twice |
| Partitions.SweepOrdered | partitions.py:14-18 | lists come in increasing order of last entry, without repeats |
| Partitions.PartitionsOrdered | system_identification/partitions.py:29-35 | the top-level result is grouped by increasing last entry, without repeats |
| StepBlocks.Runs | ltscompat.py:40-55 | a file ending in a data line has at least one table |
| StepBlocks.IsData | ltscompat.py:46 | a line is data exactly when `np.fromstring` finds a number in it (definition) |
| StepBlocks.Rectangular | ltscompat.py:51 | `np.vstack` accepts a table: all its rows have the same width (definition; Vstack states it) |
| StepBlocks.AllRectangular | ltscompat.py:51-55 | every table is accepted by `np.vstack` (definition; both StepImport contracts state the ragged-table error with it) |
| StepBlocks.EndsWithData | ltscompat.py:55 | the last line is data, so the final `np.vstack` receives a non-empty table (definition; Runs and both StepImport contracts use it) |
| StepBlocks.Vstack | ltscompat.py:51 | `np.vstack` succeeds exactly on a non-empty list of rows of equal width, and returns those rows |
| StepBlocks.RunsFlatten | ltscompat.py:40-55 | the tables read one after another are exactly the data lines |
| StepBlocks.RunsNonEmpty | ltscompat.py:46-48 | every table has a row, and every row a number |
| StepBlocks.RunsCount | ltscompat.py:46-53 | there are as many tables as runs of data lines begin |
| StepBlocks.RunsSnoc | ltscompat.py:46-53 | a separator changes nothing; a data line extends the open table or opens a new one |
| StepBlocks.RunsAppend | ltscompat.py:49-53 | after a separator, the tables are those before it followed by those after it |
| StepBlocks.TrailingBlanks | ltscompat.py:49-53 | separator lines at the end add no table |
| StepBlocks.SeparatorsCollapse | ltscompat.py:49-53 | several separator lines split the tables exactly as one does |
| StepBlocks.FlushedRun | ltscompat.py:50-52 | a table flushed at a separator is one of the file's tables |
| LtsCompat.StepImport | ltscompat.py:8-57 | returns the runs of data lines as tables; raises at a ragged table, or at the end when the file does not end in a data line |
| LtSpice.StepImport | ltspice.py:7-48 | the same result, and `table_count` is the number of tables minus the last one stacked after the loop |
| CsvManager.AllText | csvmanager.py:72-74 | every title is a string (definition; CsvExport states the check) |
| CsvManager.TitlesAccepted | csvmanager.py:72-78 | no titles, or string titles as many as the columns (definition; CsvExport states the check) |
| CsvManager.Numeric | csvmanager.py:90 | `np.array(data, dtype=float)` succeeds: every element converts to a float (definition; ConvertColumn takes the numeric branch exactly when it holds, and NumericCellsUseDecimalMark states what that branch produces) |
| CsvManager.FormatNumber | csvmanager.py:92-96 | `'{:.pE}'` for `'sci'`, `'{:.pf}'` otherwise (definition) |
| CsvManager.ReplaceDots | csvmanager.py:98 | `text.replace('.', decimal_mark)` (definition; the ReplaceDots lemmas state its properties) |
| CsvManager.ConvertColumn | csvmanager.py:89-102 | one converted text per element |
| CsvManager.Transpose | csvmanager.py:107 | `n` rows, each as wide as the number of columns |
| CsvManager.TitleRow | csvmanager.py:113-114 | one cell per title |
| CsvManager.CsvExport | csvmanager.py:9-117 | each error exactly when its check in lines 72-86 fails, in order; otherwise the title row, then row `i` holding the `i`-th converted entry of every column |
| CsvManager.TransposeTwice | csvmanager.py:107 | transposing back recovers the columns |
| CsvManager.ReplaceDotsPointwise | csvmanager.py:98 | with a one-character mark, every `.` becomes it and nothing else changes |
| CsvManager.ReplaceDotsDefault | csvmanager.py:98 | the default mark `.` leaves the text unchanged |
| CsvManager.ReplaceDotsRemovesDots | csvmanager.py:98 | a mark without `.` leaves no `.` |
| CsvManager.NumericCellsUseDecimalMark | csvmanager.py:89-99 | in a numeric column with a valid precision and a mark other than `.`, no cell keeps a `.` |
| BenchmarkFunctions.Sphere | benchmark_functions.py:23-28 | the sum of squares; non-negative, and 0 exactly at the origin |
| BenchmarkFunctions.NanSphere | benchmark_functions.py:8-16 | NaN exactly when some entry is negative, otherwise the sum of squares |
| BenchmarkFunctions.Constant | benchmark_functions.py:18-21 | -1 at every point |
| BenchmarkFunctions.RosenbrockTerm | benchmark_functions.py:38 | one term `100(a² - b)² + (1 - a)²` (definition; TermNonNegative and TermZero state its properties) |
| BenchmarkFunctions.RosenbrockValue | benchmark_functions.py:37-38 | the sum of the terms over `range(len(x) - 1)` (definition; RosenbrockMinimum states its properties) |
| BenchmarkFunctions.Rosenbrock | benchmark_functions.py:34-39 | the sum of `100(x_i² - x_{i+1})² + (1 - x_i)²` over consecutive pairs |
| BenchmarkFunctions.TermNonNegative | benchmark_functions.py:38 | each Rosenbrock term is non-negative |
| BenchmarkFunctions.TermZero | benchmark_functions.py:38 | a Rosenbrock term is 0 exactly when both coordinates are 1 |
| BenchmarkFunctions.RosenbrockSumNonNegative | benchmark_functions.py:37-38 | a partial sum is non-negative, and 0 exactly when the coordinates it covers are all 1 |
| BenchmarkFunctions.RosenbrockMinimum | benchmark_functions.py:34-39 | Rosenbrock is non-negative, 0 for fewer than two coordinates, and otherwise 0 exactly at the point of all ones |
| BenchmarkFunctions.StyblinskiTerm | benchmark_functions.py:65 | one term `a⁴ - 16a² + 5a` (definition; StyblinskiTermBound bounds it) |
| BenchmarkFunctions.StyblinskiSum | benchmark_functions.py:64-65 | the sum of the terms (definition; StyblinskiBound bounds it) |
| BenchmarkFunctions.StyblinskiTang | benchmark_functions.py:61-66 | half the sum of `x⁴ - 16x² + 5x` |
| BenchmarkFunctions.StyblinskiTermBound | benchmark_functions.py:65 | each Styblinski–Tang term is at least -80 |
| BenchmarkFunctions.StyblinskiBound | benchmark_functions.py:61-66 | Styblinski–Tang is at least `-40` per coordinate, and 0 with no coordinates |
| IvmpfTools.Str | ivmpftools.py:34 | `str(ivmpf)`: `[lower, upper]` for an interval (definition) |
| IvmpfTools.DropEnds | ivmpftools.py:34 | `s[1:-1]`: the inner characters, or empty for fewer than two characters |
| IvmpfTools.Find | ivmpftools.py:35 | the index of the first comma, or -1 exactly when there is none |
| IvmpfTools.RemoveSpaces | ivmpftools.py:34 | `s.replace(' ', '')` (definition; the RemoveSpaces lemmas state its properties) |
| IvmpfTools.Before | ivmpftools.py:35-36 | `s[:k]`, where `k = -1` drops the last character (definition; NoComma states that case) |
| IvmpfTools.SplitText | ivmpftools.py:35-36 | the two texts handed to `mp.mpf` (definition; NoComma, FirstComma and IntervalRoundTrip state its properties) |
| IvmpfTools.FromText | ivmpftools.py:33-36 | the `except` branch: both halves parsed, or NotANumber (definition) |
| IvmpfTools.Disassembled | ivmpftools.py:8-36 | the whole function as a recursive definition, with a list falling back to its printed text when an element fails or `np.array` refuses the outputs (definition; Disassemble computes it, AllElements, MixedDepth and WellFormedMirrored state its properties) |
| IvmpfTools.Disassemble | ivmpftools.py:8-36 | walks a list element by element; any failing element, outputs `np.array` refuses, and any interval go through the printed text |
| IvmpfTools.FailingElement | ivmpftools.py:27-33 | an exception in any element sends the whole list to the `except` branch |
| IvmpfTools.AllElements | ivmpftools.py:29-33 | when no element fails, the list maps to the array of the element outputs if `np.array` accepts them, and to the `except` branch if not |
| IvmpfTools.Shape | ivmpftools.py:32 | the numpy shape of an output: `(2,)` for a pair, one more leading axis for a list of outputs of one shape (definition; MirrorsShape and MixedDepth use it) |
| IvmpfTools.Uniform | ivmpftools.py:32 | all outputs of a list have the same shape, the case where `np.array(output, dtype=object)` always stacks (definition) |
| IvmpfTools.IntervalPair | ivmpftools.py:33-36 | an interval with printable, parseable endpoints becomes the pair of their values |
| IvmpfTools.MixedDepth | ivmpftools.py:29-36 | for `[a, [b, c]]` the outputs have shapes `(2,)` and `(2, 2)`; the list succeeds exactly when `np.array` accepts them and otherwise goes through its printed text |
| IvmpfTools.RemoveSpacesMembership | ivmpftools.py:34 | removing spaces keeps every other character and leaves no space |
| IvmpfTools.RemoveSpacesNone | ivmpftools.py:34 | text without spaces is unchanged |
| IvmpfTools.RemoveSpacesAppend | ivmpftools.py:34 | removing spaces distributes over concatenation |
| IvmpfTools.NoComma | ivmpftools.py:35-36 | without a comma, `find` gives -1: the lower text loses its last character and the upper text is the whole text |
| IvmpfTools.FirstComma | ivmpftools.py:35-36 | text with a comma splits around the first comma |
| IvmpfTools.IntervalRoundTrip | ivmpftools.py:34-36 | the printed form `[lower, upper]` of an interval splits back into its two endpoint texts |
| IvmpfTools.WellFormedMirrored | ivmpftools.py:8-36 | an input of printable, parseable intervals whose lists have elements of one shape succeeds with the same nesting, each interval becoming its parsed `[lower, upper]`, given that numpy stacks outputs of one shape |

Members without a row are of two kinds, neither with a counterpart of its
own in the source:
- proof helpers: Floats.QuotientTimes, Floats.QuotientSelf,
  Floats.QuotientBound, Series.ShiftShift, Series.ShiftSlice,
  Series.Combine, Series.CombinePrefix, Series.CombineSumSq, Series.Quad,
  Series.Regroup, Series.QuadFactor, Series.PositiveFactor,
  Series.ZeroProduct, Series.SquareZero, Series.SquareNonNegative,
  Series.MulPositive, Series.RootUnique, Series.SquareBound,
  Correlation.Min, Correlation.Times, Correlation.RootPositive,
  Correlation.SqrtOfSquare, Correlation.BoundedRatio,
  Correlation.MulNonNegative, StepBlocks.Blanks, StepBlocks.FlattenSnoc,
  StepBlocks.FlattenLastExtended, StepBlocks.ExtendLastAppend,
  Partitions.TotalNonNegative, Partitions.ConcatOrdered, Partitions.Levels,
  IvmpfTools.MappedSnoc, IvmpfTools.MirrorsShape, IvmpfTools.ListMirrored,
  LegacyCorrelation.CoefficientsSnoc,
  BenchmarkFunctions.FarLeftBound, BenchmarkFunctions.MulNonNegativeOrdered;
- predicates and functions that only phrase the properties above:
  Series.AllZero, BenchmarkFunctions.NoNegative, BenchmarkFunctions.AllOnes,
  Partitions.NonNegative, Partitions.Last, Partitions.Distinct,
  Partitions.OrderedDistinct, StepBlocks.DataLines, StepBlocks.RunStarts,
  IvmpfTools.Printable, IvmpfTools.Mirrors, IvmpfTools.WellFormed,
  IvmpfTools.InShape, IvmpfTools.StacksUniform.

## Left out

- **The rest of benchmark_functions.py.** `rastrigin`, `holder` and
  `crossintray` are not modelled. They rest on `cos`, `sin`, `exp`, `abs`
  of floats and `π`, which have no counterpart in the real arithmetic used
  here.
- **Floating-point rounding.** Every float is an exact real, apart from
  NaN.
  - Nothing models rounding, overflow, infinities or NaN inputs.
  - The `np.clip` inside `np.corrcoef` is modelled as no clipping.
    `NormalizedCovarianceBounded` proves that exact values never need it.
- **Library functions taken as parameters:**
  - `np.sqrt`;
  - `scipy.stats.norm.interval` and `norm.ppf`: only their value `z` is
    used;
  - `np.fromstring`;
  - number formatting with `'{:.pE}'` and `'{:.pf}'`;
  - `str` of Python and numpy values;
  - `mp.mpf` parsing;
  - whether `np.array(output, dtype=object)` accepts a list's element
    outputs. The model states only the case where it cannot fail: outputs
    of one common shape (`IvmpfTools.StacksUniform`).

  The model states the source's behaviour in terms of them. It does not
  state what they compute.
- **File input and output:**
  - `step_import` is given the parsed rows of the file rather than a file
    name.
  - `csv_export` returns the rows it would hand to `csv.writer` instead of
    writing them. The `separator` argument, quoting and line endings are
    therefore not modelled.
- **Argument conversion by `np.array`.** In `correlation` the second
  argument is modelled only as absent, a scalar (`ndim < 1`) or a
  one-dimensional series. Multi-dimensional input is not modelled.
- **LegacyCorrelation.Correlate, the quantile.** It takes
  `norm.ppf(1 - (1 - c)/2)` as the number `z`.
- **The error taxonomy.** The source raises plain `Exception`s, numpy's
  ValueError and Python's IndexError.
  - The model's error cases name which check failed.
  - Errors the code does not raise are not invented. No length check exists
    in system_identification/covariance.py's `correlation` beyond
    `np.correlate`'s refusal of empty operands, and none is added.
- **Partitions.Partitions, calls that never return.** It requires
  `depth <= positions` or `value < 0`.
  - With `depth > positions` and `value >= 0` the source recurses until
    Python raises RecursionError. That covers a negative `positions` at the
    default `depth = 0`, such as `partitions(3, -1)`, and an explicit
    `depth` larger than `positions`.
  - RecursionError is not modelled, so those calls are excluded rather
    than mapped to an error.
- **LtSpice.StepImport, `table_count`.** It returns `table_count` as a
  second result. The source computes it and never returns it.
- **StepImport, `np.vstack`.**
  - Only the two ways `np.vstack` fails are modelled: rows of different
    widths, and an empty list.
  - A table is the list of its rows.
- **CsvExport, the title row.** The title row is the title strings. The
  check of lines 72-74 is modelled for a list of values. numpy's element
  comparison of `titles != None` on an array of titles is not modelled.
- **IvmpfTools.Disassemble, inputs.**
  - It models inputs that are intervals or (nested) lists of them. `str`
    of an interval is fixed as `[lower, upper]`.
  - Other objects that have a length, such as strings, and the exact
    numpy array shapes `np.array(output, dtype=object)` builds are not
    modelled. An array of pairs is the list of its elements.
  - Whether `np.array(output, dtype=object)` accepts outputs of different
    shapes is a parameter, not numpy's own rule. Mixed-depth lists such as
    `[a, [b, c]]` (shapes `(2,)` and `(2, 2)`) make numpy raise. Their
    fallback through the printed text is modelled, but the model does not
    itself decide that numpy raises there.
- **The `__main__` demonstration blocks and python_tools/update_pip.py.**
  They are not part of this model. They run plots, printing and `pip` in
  subprocesses.
