# SO279 cruise data reduction: the exact rules, in Dafny

This project models the deterministic core of the SO279 data-reduction scripts. The scripts turn
raw cruise exports into quality-flagged data sets:

- CTD casts;
- the underway pH optode log;
- VINDTA alkalinity/DIC analyses;
- nutrient-analyser sheets.

The model covers these parts of that work:

- **Sample identifiers.** STN bottle names are split into station, niskin and duplicate letter
  and joined into a `stncode`. Nutrient-sheet names get the last station prefix carried
  forward. Underway ids give duplicate codes. `rstrip('.0')` is modelled, and so is the parsing
  of degree/minute/second coordinates.
- **Quality flags.** Every flag starts at 2. A duplicate pair whose difference over mean is
  strictly above the analyte's precision number gives 3. A missing value clears its flag.
  Manual statements are applied in order, so the last write wins. A pair of flags averaging
  2.5 is published as 3.
- **Row filters.** These are:
  - the warm-up cuts of the pH log;
  - the cell-vs-in-situ temperature restriction;
  - the 2σ z-score filters;
  - the post-correction cut;
  - the bootstrap preparation (finite values, sort by time, first row per time).
- **Exact arithmetic.** These are:
  - the mean-offset calibration between the two pH pathways;
  - the subsample difference and the corrected optode pH;
  - nitrate from NO3+NO2 minus NO2, and the division by density;
  - the precision number, 3·mean(diff/mean);
  - the Lee et al. (2006) North Atlantic alkalinity polynomial;
  - the trailing 60-row mean (pandas `rolling(60, min_periods=1).mean()`).

The code is modelled as follows:

- A pandas table is a sequence of records. A NaN cell is `None` in `Value = Option<real>` or
  in `Flag = Option<int>`. Python floats are `real`, and no claim is made about rounding.
- A `diff/mean` quotient can be infinite (x/0) or NaN (0/0), and its comparisons and means
  follow numpy. It is therefore a `Ratio` (`Finite`, `PosInf`, `NegInf`, `NaN`).
- A script that writes cells of a table in a loop (`.loc[...] = ...`) is a method over an
  array (`array<Value>` or `array2<Flag>`). Each such method is proved equal to a pure
  function that defines its result.
- A frame reassigned by a boolean mask is a pure `Filter`. Its properties are proved as
  lemmas: it is a subsequence, it keeps an element's multiplicity exactly when the element
  passes, and rows outside its scope are untouched.
- The carbonate-system solver, the seawater density, the PCHIP interpolator, the nearest-time
  lookup and the random draws are parameters of the functions that use them.

Modules:

| module | file | source |
|---|---|---|
| Frames | frames.dfy | shared: Value, Filter, pandas mean |
| Text | text.dfy | shared: strip, split, lower, int() |
| Sorting | sorting.dfy | shared: sort and de-duplicate by time |
| Duplicates | duplicates.dfy | shared: dupcode, pair statistics, threshold flags |
| Overrides | overrides.dfy | shared: manual flag statements |
| Nutrients | nutrients.dfy | shared: nitrate, density, missing flags |
| Calibration | calibration.dfy | shared: warm-up cuts, offset, correction, rolling mean |
| Vindta | vindta.dfy | processing_vindta.py |
| CtdRaw | ctd_raw.dfy | processing_ctd_raw.py |
| SubsamplesRaw | subsamples_raw.dfy | processing_subsamples_raw.py |
| PhCorrection | ph_correction.dfy | processing_uws_pH_correction.py |
| Bootstrapping | bootstrapping.dfy | processing_uws_pH_correction_bootstrapping.py |
| PhFunction | ph_function.dfy | data_processing/pH.py |
| PrecisionNumber | precision_number.dfy | processing_ammonium_precision_number.py, processing_nitrite_precision_number.py |
| Coordinates | coordinates.dfy | processing_stations_coordinates.py, data_processing/dms_to_dd.py |
| TempRestriction | temp_restriction.dfy | data_processing/temp_restriction.py |
| Alkalinity | alkalinity.dfy | data_processing/alkalinity.py |

Points of the code worth knowing, each reproduced as written:

- **The order of the interpolation points.** The `sort_values` at
  processing_uws_pH_correction.py:89 discards its result, so the points reach the interpolator
  in table order (`PhCorrection.DiffPointsInOrder`). Building the interpolator fails when their
  times do not strictly increase or there are fewer than two (`PhCorrection.CorrectBySubsamples`).
  Only the bootstrap trials sort and de-duplicate (`Bootstrapping.Prepare`).
- **Extrapolation.** The bootstrapping main path builds its interpolator with
  `extrapolate=True` (processing_uws_pH_correction_bootstrapping.py:84). The other
  interpolators are built with `extrapolate=False`. The interpolator is a parameter here, so
  either behaviour can be supplied.
- **The ammonium flag.** In processing_subsamples_raw.py the ammonium flag is decided from the
  NO3+NO2 ratio. The model reproduces this; see "## Findings".

## Model

| member | source | states |
|---|---|---|
| Text.LStrip | processing_vindta.py:80 | the result is a suffix of the input; it does not start with a stripped character; every removed character is one of them |
| Text.RStrip | processing_vindta.py:89 | the result is a prefix of the input; it does not end with a stripped character; every removed character is one of them |
| Text.Split | processing_ctd_raw.py:82 | `str.split(sep)` gives at least one part and no part contains the separator |
| Text.JoinSplit | processing_ctd_raw.py:82 | joining the parts of a split with the separator gives back the string |
| Text.SplitCount | processing_ctd_raw.py:82 | a split has one more part than the string has separators |
| Text.SplitAround | processing_ctd_raw.py:86 | splitting `a + sep + b` gives the parts of `a` followed by the parts of `b` |
| Text.SplitOnTokens | processing_stations_coordinates.py:14 | `re.split` on a list of alternatives gives at least one part |
| Text.SplitOnOneChar | processing_stations_coordinates.py:14 | `re.split` on a single character agrees with `str.split` |
| Text.Lower | processing_subsamples_raw.py:82 | `str.lower` on ASCII text keeps the length and lowers A-Z character by character, leaving every other character alone |
| Text.LowerIdempotent | processing_subsamples_raw.py:82 | lowering twice is lowering once |
| Text.ParseInteger | processing_ammonium_precision_number.py:14 | `int()` on a string succeeds iff the string is an optionally signed run of digits; an unsigned result is non-negative; the value is the decimal value of the digits, negated after a minus sign |
| Text.ParseShowInteger | processing_ammonium_precision_number.py:14 | `int(str(n)) == n` for every integer `n`: parsing reads back what printing an integer writes |
| Frames.NanMean | processing_ammonium_precision_number.py:22 | pandas `mean()` skips missing cells and is missing iff every cell is missing |
| Frames.AbsDiff | processing_uws_pH_correction.py:77 | `abs(a - b)` is present iff both are present, and is then non-negative |
| Frames.FilterCompose | processing_uws_pH_correction.py:15-28 | two boolean-mask filters in a row are one filter on the conjunction |
| Sorting.SortByTime | processing_uws_pH_correction_bootstrapping.py:103 | `sort_values('date_time')` gives a time-ordered permutation of its input |
| Sorting.InsertMultiset | processing_uws_pH_correction_bootstrapping.py:103 | inserting one point into a sorted run adds exactly that point |
| Sorting.DropDuplicateTimes | processing_uws_pH_correction_bootstrapping.py:107 | `drop_duplicates('date_time')` leaves no repeated time and only rows of its input |
| Sorting.DropDuplicatesKeepsTimes | processing_uws_pH_correction_bootstrapping.py:107 | every time of the input is still present after de-duplication |
| Sorting.DropDuplicatesOfSorted | processing_uws_pH_correction_bootstrapping.py:103-107 | sorting and then de-duplicating gives strictly increasing times, as the interpolator requires |
| Duplicates.DupCode | processing_subsamples_raw.py:128-132 | the duplicate code is a prefix of the id: its first character for a 2-character id, otherwise its first two |
| Duplicates.DupCodeOfPair | processing_subsamples_raw.py:128-132 | the a and b members of a pair (same id up to the last letter, 2 or 3 characters) share their code |
| Duplicates.DupCodeSeparatesLengths | processing_subsamples_raw.py:128-132 | a 2-character and a 3-character id never share a code |
| Duplicates.AssignDupCodes | processing_ammonium_precision_number.py:9-13 | the row-by-row loop writes each row's duplicate code into the `dupcode` column |
| Duplicates.ParseCodes | processing_ammonium_precision_number.py:14 | `astype(int)` succeeds iff every code is an integer, and then gives each code's value |
| Duplicates.Group | processing_ammonium_precision_number.py:19-20 | a group has exactly as many rows as the code occurs |
| Duplicates.PairDifference | processing_ammonium_precision_number.py:21 | `abs(np.diff(values)[0])` is present iff both members are, and is non-negative |
| Duplicates.PairOfTwo | processing_ammonium_precision_number.py:21-22 | for two present values, the group mean is their average and the stored difference equals `|a - b|` |
| Duplicates.Divide | processing_ammonium_precision_number.py:23 | float division: finite iff both are present and the mean is non-zero, with quotient × mean = difference; ±inf for a non-zero difference over zero |
| Duplicates.GroupStat | processing_ammonium_precision_number.py:21-23 | a group's difference, mean and diff/mean; the mean is missing iff every value is |
| Duplicates.PairStatistics | processing_ammonium_precision_number.py:17-23 | the group loop succeeds iff every code has at least two rows (else IndexError); every row holds its group's statistics, and rows with one code hold the same ones |
| Duplicates.PairRatios | processing_ammonium_precision_number.py:23 | the `diff/mean` column, equal for the rows of one code |
| Duplicates.ThresholdFlag | processing_subsamples_raw.py:150-156 | a flag is 3 iff diff/mean is strictly above the threshold, otherwise 2 |
| Duplicates.ThresholdBoundary | processing_ctd_raw.py:314-320 | a ratio equal to the threshold gives 2, a NaN ratio gives 2, anything above gives 3 |
| Duplicates.IncompletePairNotFlagged | processing_subsamples_raw.py:150-156 | a pair with a missing member is never flagged 3 |
| Duplicates.RatioFor | processing_subsamples_raw.py:150-156 | the `sub['id'] == df['id'][i]` lookup finds a matching row's ratio, or reports that no row matches |
| Duplicates.RatioForUnique | processing_subsamples_raw.py:150-156 | with unique keys, the lookup returns that key's own ratio |
| Duplicates.ThresholdUpdate | processing_subsamples_raw.py:150-156 | one row's flag after a pass is unchanged, 2 or 3 |
| Duplicates.AssignThresholdFlags | processing_subsamples_raw.py:150-156 | the flag loop succeeds iff the pair keys are unique; only the pass's column changes, each row by ThresholdUpdate |
| Duplicates.PairThresholdPass | processing_subsamples_raw.py:141-156 | one pass (statistics, then flags) succeeds iff every code is paired and every key is unique, and writes the threshold flags of its column |
| Duplicates.MissingClears | processing_ctd_raw.py:380-385 | a missing value makes its flag missing; a present value leaves the flag as it was |
| Overrides.LastHit | processing_vindta.py:254-273 | finds the last statement that addresses a cell, or reports that none does |
| Overrides.LastWriteWins | processing_vindta.py:254-273 | after the statements run in order, a cell holds the flag of the last statement addressing it, or its start flag |
| Overrides.NoHitNoChange | processing_vindta.py:254-273 | statements that address other rows leave a cell unchanged |
| Overrides.ApplyAppend | processing_ctd_raw.py:209-293 | running two lists of statements one after the other is running their concatenation |
| Overrides.UniformTable | processing_subsamples_raw.py:259-314 | when all statements write one flag, a cell ends with that flag iff one addresses it, else with its start |
| Overrides.HitsAgree | processing_subsamples_raw.py:259-314 | if every statement addressing a cell writes the same flag, the cell ends with it |
| Overrides.KeyStatements | processing_ctd_raw.py:209-293 | a list of (key, flag) statements on one column, in source order |
| Overrides.DropNonHit | processing_vindta.py:254-273 | a statement for an absent id changes nothing wherever it sits |
| Overrides.ApplyStaysIn | processing_subsamples_raw.py:259-314 | statements drawn from a set of flags keep a cell inside that set |
| Overrides.ApplyOverrides | processing_vindta.py:254-273 | the in-place update leaves every cell equal to the in-order application of the statements |
| Nutrients.WithNitrate | processing_ctd_raw.py:180 | nitrate is present iff NO3+NO2 and NO2 are, with nitrate + NO2 = NO3+NO2; nothing else changes |
| Nutrients.PerKilogram | processing_ctd_raw.py:189-194 | each concentration is divided by the density (value × density = original); missing stays missing |
| Nutrients.NitrateBeforeConversion | processing_ctd_raw.py:180-194 | converted nitrate equals converted NO3+NO2 minus converted NO2 for the same positive density |
| Nutrients.ClearMissing | processing_ctd_raw.py:380-385 | the loop clears the flag of every missing value and leaves all other flags as they were |
| Calibration.ApplyCut | processing_uws_pH_correction.py:15-28 | a warm-up cut leaves no row that it cuts |
| Calibration.CutRemovesExactly | processing_uws_pH_correction.py:15-28 | a cut removes every copy of a row in file F with sec < S and pH < P (no pH clause for file #4), and keeps every other row at its multiplicity |
| Calibration.CutKeepsOrder | processing_uws_pH_correction.py:15-28 | what a cut keeps is a subsequence, so order is preserved |
| Calibration.CutLeavesOtherFiles | processing_uws_pH_correction_bootstrapping.py:19-32 | rows of other files are exactly as before, in order |
| Calibration.CutKeepsMissingPH | processing_uws_pH_correction_bootstrapping.py:19-32 | a cut with a pH clause keeps every row with missing pH, in order |
| Calibration.ApplyCutsIsOneFilter | processing_uws_pH_correction_bootstrapping.py:19-32 | the cuts in sequence are one filter keeping the rows that no cut removes |
| Calibration.Offsets | processing_uws_pH_correction.py:77 | offset_i = abs(a_i - b_i), row by row |
| Calibration.MeanOffset | processing_uws_pH_correction.py:78 | the mean offset is non-negative and is missing iff no row has both pH values |
| Calibration.Calibrated | processing_uws_pH_correction.py:79 | the calibrated pH is the initial pH plus the mean offset, present iff both are |
| Calibration.CalibrationIsAShift | processing_uws_pH_correction_bootstrapping.py:73-75 | calibrated minus initial is the same scalar for every row |
| Calibration.Differences | processing_uws_pH_correction.py:82 | diff_i = abs(corrected_i - optode_i) ≥ 0, present iff both are |
| Calibration.Corrected | processing_uws_pH_correction_bootstrapping.py:88 | corrected = pH - interpolated difference, present iff both are, so corrected + interpolated = pH |
| Calibration.Trailing | processing_uws_pH_correction.py:105 | the window is the last min(w, n) values |
| Calibration.Rolling | processing_uws_pH_correction_bootstrapping.py:129 | `rolling(60, min_periods=1).mean()` gives one value per row |
| Calibration.RollingBounds | processing_uws_pH_correction.py:105 | a row's rolling mean is missing iff its whole window is, and otherwise lies within any bounds of the window's present values |
| Calibration.RollingIsLocal | processing_uws_pH_correction.py:105 | a row's rolling mean depends only on the last ≤60 values up to that row |
| PhCorrection.CutLog | processing_uws_pH_correction.py:15-28 | the four warm-up cuts never add a row |
| PhCorrection.CutLogLeavesOtherFiles | processing_uws_pH_correction.py:15-28 | rows of files other than #2 to #5 are untouched, in order |
| PhCorrection.CutLogRemovesExactly | processing_uws_pH_correction.py:15-28 | the cuts remove exactly the rows that some cut matches |
| PhCorrection.DiffColumn | processing_uws_pH_correction.py:77-82 | the diff column has one point per subsample at that subsample's time |
| PhCorrection.DiffOfSubsample | processing_uws_pH_correction.py:77-82 | a present diff is abs(initial + mean offset - optode) |
| PhCorrection.DiffPoints | processing_uws_pH_correction.py:85-86 | the points that reach the interpolator all have a difference |
| PhCorrection.DiffPointsInOrder | processing_uws_pH_correction.py:85-89 | the NaN drop keeps exactly the present points, in table order; the unassigned sort changes nothing |
| PhCorrection.DiffPointsNonNegative | processing_uws_pH_correction.py:82-86 | every interpolated difference point is ≥ 0 |
| PhCorrection.CorrectLog | processing_uws_pH_correction.py:95 | each log row gets pH - interpolated difference, missing iff either is missing; the row itself is unchanged |
| PhCorrection.CorrectBySubsamples | processing_uws_pH_correction.py:89-95 | building the interpolator on the points fails (ValueError) iff there are fewer than two or their times do not strictly increase; otherwise the log is corrected by the interpolant of exactly those points |
| PhCorrection.CorrectedAtSubsampleTime | processing_uws_pH_correction.py:89-95 | when the interpolant passes through its points, a log row at a subsample's time is corrected by exactly that subsample's difference |
| PhCorrection.SharedTimeFails | processing_uws_pH_correction.py:90 | two points sharing a time make the interpolator fail |
| PhCorrection.PostFilter | processing_uws_pH_correction.py:98-99 | no file-#5 row with corrected pH below 8.07278 remains |
| PhCorrection.PostFilterScope | processing_uws_pH_correction.py:98-99 | rows of other files and rows with missing corrected pH all survive, in order; only the cut rows go |
| PhCorrection.SmaAtRank | processing_uws_pH_correction.py:103-105 | a row's SMA is the rolling mean of its own file's series at that row's place in it |
| PhCorrection.PerFileSma | processing_uws_pH_correction.py:103-105 | the per-file loop gives every row the trailing ≤60-row mean of its own file |
| PhCorrection.WriteFileSma | processing_uws_pH_correction.py:104-105 | one iteration writes the rolling means of one file into that file's rows only |
| PhCorrection.FileValues | processing_uws_pH_correction.py:104 | one file's corrected values, never longer than the log |
| PhCorrection.OtherFilesIrrelevant | processing_uws_pH_correction.py:103-105 | a row's SMA is unchanged by any row of another file |
| PhCorrection.FileValuesAreFiltered | processing_uws_pH_correction.py:104 | a file's series is the corrected column of that file's rows |
| PhCorrection.OneFileIsWholeSeries | processing_uws_pH_correction_bootstrapping.py:129-130 | for a single file, the per-file SMA equals the whole-series SMA of the bootstrapping script |
| Bootstrapping.Finite | processing_uws_pH_correction_bootstrapping.py:100 | the finite filter keeps only points with a difference, taken from the draw |
| Bootstrapping.DrawIsFinite | processing_uws_pH_correction_bootstrapping.py:81 | a draw from the cleaned subsamples loses nothing to the finite filter |
| Bootstrapping.Prepare | processing_uws_pH_correction_bootstrapping.py:100-107 | prepared trial points have strictly increasing times, all with a value, all from the draw |
| Bootstrapping.PrepareKeepsTimes | processing_uws_pH_correction_bootstrapping.py:100-107 | every time with a value in the draw is still present after preparation |
| Bootstrapping.TrialSeries | processing_uws_pH_correction_bootstrapping.py:112-116 | a trial's corrected series has one value per log row |
| Bootstrapping.Trials | processing_uws_pH_correction_bootstrapping.py:95-119 | the stored series never outnumber the draws |
| Bootstrapping.TrialsStep | processing_uws_pH_correction_bootstrapping.py:110-119 | one iteration appends its series iff its prepared draw has more than one point |
| Bootstrapping.Bootstrap | processing_uws_pH_correction_bootstrapping.py:91-119 | the 100-iteration loop stores exactly Trials, so at most n_iterations = 100 series |
| Bootstrapping.UsableDraws | processing_uws_pH_correction_bootstrapping.py:110 | the draws that pass `len(sample) > 1`, in order |
| Bootstrapping.TrialsAreUsableDraws | processing_uws_pH_correction_bootstrapping.py:110-119 | the stored series are exactly one corrected series per usable draw, in draw order |
| PhFunction.SumSquares | data_processing/pH.py:9-11 | the sum of squared deviations is ≥ 0 |
| PhFunction.MomentsOf | data_processing/pH.py:9-11 | the column's mean and population variance (ddof = 0); the variance is ≥ 0, and both are missing iff the mean is |
| PhFunction.ZScoreAsWritten | data_processing/pH.py:9-11 | for σ > 0, abs(z) < 2 iff (x - μ)² < 4σ² |
| PhFunction.OptodeFilter | data_processing/pH.py:9-11 | every kept log row passes the 2σ test against the moments of the whole log |
| PhFunction.OptodeFilterExactly | data_processing/pH.py:9-11 | the filter keeps exactly the rows passing the 2σ test, each as often as in the log, in log order |
| PhFunction.ConstantLogDropsAll | data_processing/pH.py:9-11 | a log whose pH is constant (σ = 0, z = NaN) is emptied |
| PhFunction.TalkFilter | data_processing/pH.py:53-55 | the TA z-filter never adds a row |
| PhFunction.TalkFilterExactly | data_processing/pH.py:53-55 | the first filter keeps exactly the subsamples whose pH(TA/DIC) passes the 2σ test, each as often as in the table, in order |
| PhFunction.CleanSubsamples | data_processing/pH.py:53-60 | the two z-filters never add a row |
| PhFunction.CleanSubsamplesExactly | data_processing/pH.py:53-60 | the two filters keep exactly the subsamples passing the first test against all rows and the second against the first filter's survivors, each as often as in the table, in order |
| PhFunction.CleanSubsamplesPassed | data_processing/pH.py:53-60 | a kept subsample passes the first test against all rows and the second test against the first filter's survivors |
| PhFunction.ElecCorr | data_processing/pH.py:63-65 | one calibrated point per cleaned subsample |
| PhFunction.GroupByTime | data_processing/pH.py:68 | `groupby('date_time').mean()` gives strictly increasing (so unique) times, each with its group's mean |
| PhFunction.GroupTimes | data_processing/pH.py:68 | a time is in the grouped table iff it is in the input |
| PhFunction.SingleGroupMean | data_processing/pH.py:68 | a point whose time is unique keeps its value |
| PhFunction.SubPoints | data_processing/pH.py:63-68 | the subsample points have unique, increasing times |
| PhFunction.MatchOptode | data_processing/pH.py:75-81 | the loop gives each subsample point the optode value at its own time |
| PhFunction.EveryPointMatched | data_processing/pH.py:78-81 | every grouped point's time is among the lookup locations |
| PhFunction.PointDiffs | data_processing/pH.py:84 | diff = abs(pH - optode) ≥ 0 at each point's time, present iff both are |
| PhFunction.CorrectedSma | data_processing/pH.py:88-95 | one SMA per log row |
| PhFunction.CorrectedSmaBounds | data_processing/pH.py:88-95 | the SMA is missing iff the window's corrected values all are, and otherwise lies within their bounds |
| PrecisionNumber.RatioMean | processing_ammonium_precision_number.py:26 | pandas mean over ratios: NaN skipped, an infinity dominates, opposite infinities or no value give NaN, else the mean of the finite ratios |
| PrecisionNumber.Times3 | processing_ammonium_precision_number.py:27 | three times a finite mean; an infinite or NaN mean stays as it is |
| PrecisionNumber.PrecisionNumberOf | processing_ammonium_precision_number.py:7-27 | the script stops with ValueError iff some dupcode is not an integer; a result is never -inf |
| PrecisionNumber.RatiosNeverNegInf | processing_ammonium_precision_number.py:21-23 | no diff/mean is -inf, because the difference is never negative |
| PrecisionNumber.PrecisionNumberScript | processing_nitrite_precision_number.py:7-27 | the in-place loops compute PrecisionNumberOf |
| PrecisionNumber.PositiveValuesGiveFinitePN | processing_nitrite_precision_number.py:17-27 | with every value present and positive, the precision number is finite and ≥ 0 |
| PrecisionNumber.RecordedNumbersAreThresholds | processing_ammonium_precision_number.py:30 | the recorded ammonium and nitrite numbers are the thresholds of the subsample and CTD flagging |
| Vindta.Batch189IsCrm | processing_vindta.py:33-35 | a batch-189 CRM bottle is a CRM bottle |
| Vindta.AnalysisBatch | processing_vindta.py:128-131 | batch 1 for days 10-17, 2 for 18-26, 3 for 27-30, else 0 (each iff) |
| Vindta.Slice | processing_vindta.py:65-67 | Python slicing: in range a slice, past the end truncated, empty when reversed |
| Vindta.SplitBottle | processing_vindta.py:63-74 | an STN name fails iff it is exactly "STN" (IndexError); otherwise its station, niskin and letter are split out; a non-STN name gives "0", "0", "0" |
| Vindta.SplitBottleNames | processing_vindta.py:63-74 | the loop succeeds iff every bottle splits, and gives each bottle's parts |
| Vindta.NiskinNumber | processing_vindta.py:80-81 | leading zeros are stripped, and an empty result becomes "0" |
| Vindta.NiskinNumberExamples | processing_vindta.py:80-81 | "07" gives "7", "13" stays, "00" gives "0" |
| Vindta.StationCode | processing_vindta.py:63-83 | the stncode fails iff the name is "STN"; a non-STN name has stncode "000" |
| Vindta.ZeroCode | processing_vindta.py:71-83 | a non-STN bottle's parts join to "000" |
| Vindta.StationCodeOfStationBottle | processing_vindta.py:63-83 | "STN{s}N{nn}-{d}" gives station ++ niskin without leading zeros ++ duplicate |
| Vindta.CleanCode | processing_vindta.py:89 | `rstrip('.0')` gives a prefix with no trailing '.' or '0', and removes only those characters |
| Vindta.CleanCodeOfFloatText | processing_vindta.py:89 | a float-formatted code "x.0" gives back x when x does not end in '.' or '0' |
| Vindta.CleanCodeStripsMoreThanSuffix | processing_vindta.py:89 | "4120.0" becomes "412": every trailing '0' goes, not just ".0" |
| Vindta.AnalysisFlag | processing_vindta.py:254-273 | a bottle's alkalinity or DIC flag after the statements is 2, 3, 4 or 9 |
| Vindta.PoppedBottlesMissing | processing_vindta.py:268-273 | '13a' and 'SOS062' end with alkalinity flag 9 whatever their day |
| Vindta.MisspelledCrmStatementInert | processing_vindta.py:271 | the statement for 'CCRM-189-0963-1' changes no CRM bottle: the result is as if it were absent |
| Vindta.Day11Questionable | processing_vindta.py:256-273 | any other bottle analysed on day 11 ends with alkalinity flag 3 |
| Vindta.Codes | processing_vindta.py:296-305 | dupcodes parse to one integer per row, or the cast fails |
| Vindta.PairDifferences | processing_vindta.py:308-312 | the loop succeeds iff every code is paired; each row gets its pair's difference and the count 2 |
| Vindta.PairsStep | processing_vindta.py:308-312 | each iteration extends the written groups by one code |
| Vindta.PairsComplete | processing_vindta.py:308-312 | when every code is done, every row holds its pair's difference and count |
| Vindta.WritePair | processing_vindta.py:311-312 | one iteration writes the rows of one code only |
| Vindta.MarkGoodDuplicates | processing_vindta.py:317-329 | each listed good id gets flag 3, no difference and count 1; all other rows are unchanged |
| Vindta.RemoveIds | processing_vindta.py:331-341 | dropping the bad ids never adds a row |
| Vindta.RemoveIdsIsOneFilter | processing_vindta.py:331-341 | the drop loop is one filter keeping the rows whose id is not listed as bad |
| Vindta.MarkedRow | processing_vindta.py:317-329 | a good id gets flag 3, no difference and count 1; any other row keeps its flag and count 2 |
| Vindta.MarkPairs | processing_vindta.py:308-329 | the loops succeed iff every code is paired, and give each row its MarkedRow |
| Vindta.DuplicateTable | processing_vindta.py:296-341 | the finished duplicate table contains no bad id |
| Vindta.ProcessDuplicates | processing_vindta.py:296-341 | the script's duplicate processing computes DuplicateTable |
| Vindta.ListsArePartners | processing_vindta.py:317-338 | the good and bad lists pair up member by member: same duplicate code, never the same id |
| Vindta.GoodMemberSurvives | processing_vindta.py:326-341 | a good id that is not listed as bad stays in the table with flag 3 and count 1 |
| Vindta.PrecisionNumber | processing_vindta.py:344 | √π/2 times the absolute value of the mean difference; missing iff every difference is missing; ≥ 0 |
| Vindta.PrecisionNumberBound | processing_vindta.py:344 | differences bounded by b give a precision number of at most √π/2 · b |
| Vindta.PublishedFlag | processing_vindta.py:371-373 | a row of the given day with a difference is published with flag 2; every other row keeps its flag |
| Vindta.TalkThreeOnlyOnDay11 | processing_vindta.py:256-273 | an alkalinity flag 3 from the flag statements comes only from an analysis on day 11 |
| Vindta.RemainingTalkThreeIsLoneMember | processing_vindta.py:360-373 | in the duplicate table, a row still published with alkalinity flag 3 has no difference: it is a listed good member or a day-11 row of a pair with a missing value, so at most one member of its pair counts |
| Vindta.UnlistedRowsStay | processing_vindta.py:309-341 | when no id is listed as bad, every row stays in the duplicate table, in order, as the pair and good-duplicate loops mark it |
| Vindta.DicRemainingThreeKeepsPair | processing_vindta.py:483-498 | for DIC the remaining-3 promise fails: 24a (DIC flag 3 by name) and 24b analysed on day 12 both stay with difference 1.0, 24a publishes 3 and the merged pair flag is 3 |
| Vindta.MergedFlag | processing_vindta.py:377-378 | the merged flag of a duplicate group is never 2.5, and is missing iff every flag is |
| Vindta.MergedFlagCases | processing_vindta.py:496-498 | flags summing to 5 merge to 3; other pairs merge to their mean; a single flag stays |
| CtdRaw.ChannelMean | processing_ctd_raw.py:33-34 | the mean of the a/b channels, or the single present channel, or missing |
| CtdRaw.LastPrefix | processing_ctd_raw.py:79-86 | the carried prefix is the start or a dash-free station prefix |
| CtdRaw.NormaliseName | processing_ctd_raw.py:79-86 | a three-part name is unchanged; any other name is prefixed, and fails iff no prefix has been seen |
| CtdRaw.NormalisedNames | processing_ctd_raw.py:137-144 | a successful normalisation keeps the number of names |
| CtdRaw.NormalisedNamesSucceed | processing_ctd_raw.py:79-86 | normalisation fails iff some abbreviated name comes before any full name |
| CtdRaw.NormalisedNamesValues | processing_ctd_raw.py:79-86 | each name is normalised with the prefix carried from the names before it |
| CtdRaw.NormaliseNames | processing_ctd_raw.py:79-86 | the loop succeeds iff NormalisedNames does, gives its names, and leaves the last prefix in `stn` |
| CtdRaw.FailureStays | processing_ctd_raw.py:137-144 | once the loop has failed, later names cannot rescue it |
| CtdRaw.PrefixCarriesOver | processing_ctd_raw.py:137-144 | the prefix after two runs of names is carried from the first into the second |
| CtdRaw.NoPrefixBeforeFullName | processing_ctd_raw.py:137-144 | with no full name there is never a prefix |
| CtdRaw.AbbreviatedNameCompleted | processing_ctd_raw.py:83-86 | a two-part name becomes a three-part name whose parts are the prefix followed by its own parts |
| CtdRaw.SplitSample | processing_ctd_raw.py:94-96 | a name splits iff it has at least three '-' parts; the station is the last character of the first part |
| CtdRaw.SplitSampleOfParts | processing_ctd_raw.py:94-96 | "first-niskin-dup" gives station last(first), niskin and duplicate |
| CtdRaw.NutrientNiskin | processing_ctd_raw.py:151-152 | the nutrient niskin has its leading 'N's stripped |
| CtdRaw.NiskinPrefixStripped | processing_ctd_raw.py:151-152 | "N" + nn gives nn back when nn does not start with 'N' |
| CtdRaw.SilicateCode | processing_ctd_raw.py:157-161 | stncode = station ++ niskin ++ duplicate ("nan" when the station is missing) |
| CtdRaw.NutrientCode | processing_ctd_raw.py:162 | stncode = station ++ stripped niskin ++ duplicate, present iff the station is |
| CtdRaw.SheetsAgree | processing_ctd_raw.py:149-162 | the silicate and nutrient sheets give one bottle the same stncode |
| CtdRaw.CtdStatements | processing_ctd_raw.py:209-293 | the manual statements touch only phosphate and nitrate, with flags 3 or 4 |
| CtdRaw.ManualFlag | processing_ctd_raw.py:199-293 | a flag after the manual statements is 2, 3 or 4 |
| CtdRaw.ManualStatementsSkip | processing_ctd_raw.py:199-293 | the other analytes keep flag 2 through the manual statements |
| CtdRaw.PairRows | processing_ctd_raw.py:297-299 | the duplicate subtable has only rows with a nitrite value, all from the table |
| CtdRaw.PairRowsExactly | processing_ctd_raw.py:297-299 | every row with a nitrite value is kept, as often as in the table and in table order, and no other row |
| CtdRaw.PairCodes | processing_ctd_raw.py:301 | the CTD duplicate code is station ++ niskin |
| CtdRaw.PassedFlag | processing_ctd_raw.py:304-377 | a flag after any set of passes is 2, 3 or 4 |
| CtdRaw.CtdPass | processing_ctd_raw.py:304-320 | one pass succeeds iff the script runs, and then applies its threshold to its column only |
| CtdRaw.PassedStep | processing_ctd_raw.py:304-377 | one more pass changes only its own column |
| CtdRaw.CtdFlag | processing_ctd_raw.py:380-385 | the final flag of a missing value is missing; every other flag is 2, 3 or 4 |
| CtdRaw.CtdQualityControl | processing_ctd_raw.py:196-385 | the flagging succeeds iff the script runs, and every cell then holds CtdFlag |
| CtdRaw.CtdPairFlag | processing_ctd_raw.py:314-377 | a present value of a paired bottle gets the threshold flag of its pair's ratio (after the manual statements) |
| CtdRaw.CtdUncheckedFlag | processing_ctd_raw.py:297-377 | a bottle whose group has no nitrite value keeps flag 2 |
| CtdRaw.PhosphateFlags | processing_ctd_raw.py:209-250 | the phosphate statements write only 3 or 4 |
| CtdRaw.NitrateFlags | processing_ctd_raw.py:254-293 | the nitrate statements write only 3 or 4 |
| SubsamplesRaw.SampleRows | processing_subsamples_raw.py:79-82 | only ids of length ≤ 3 are kept, and they are lower-cased |
| SubsamplesRaw.SampleRowsOrigin | processing_subsamples_raw.py:79-82 | every kept row is a short-id row of the sheet with its id lower-cased |
| SubsamplesRaw.AllShortKept | processing_subsamples_raw.py:79-82 | a sheet of short ids loses no row |
| SubsamplesRaw.Converted | processing_subsamples_raw.py:100-111 | converted nitrate = converted NO3+NO2 - converted NO2, present iff density and both inputs are |
| SubsamplesRaw.PairRows | processing_subsamples_raw.py:135-137 | the pair statistics see only rows with phosphate, taken from the table |
| SubsamplesRaw.PairRowsExactly | processing_subsamples_raw.py:135-137 | every row with a phosphate value is kept, as often as in the table and in table order, and no other row |
| SubsamplesRaw.PairCodes | processing_subsamples_raw.py:127-132 | each pair row's code is DupCode of its id |
| SubsamplesRaw.Block | processing_subsamples_raw.py:259-270 | one manual block is twelve statements, one flag for ids a and b on all six columns |
| SubsamplesRaw.BlockApplies | processing_subsamples_raw.py:259-270 | a block sets a cell of its two ids to its flag and leaves other ids alone |
| SubsamplesRaw.ManualStatements | processing_subsamples_raw.py:259-314 | 36a/b and 4a/b end at 3, 37a/b and 14a/b end at 9 on all six flags; any other id keeps its flag |
| SubsamplesRaw.ManualFlags | processing_subsamples_raw.py:259-314 | the manual statements write only flags 3 and 9 |
| SubsamplesRaw.ManualStaysIn | processing_subsamples_raw.py:259-314 | a flag that starts missing, 2, 3 or 9 stays among those |
| SubsamplesRaw.FlagWith | processing_subsamples_raw.py:119-314 | every final flag is missing, 2, 3 or 9 |
| SubsamplesRaw.Pass | processing_subsamples_raw.py:141-156 | one pass succeeds iff the script runs, and then flags its column only |
| SubsamplesRaw.PairPasses | processing_subsamples_raw.py:139-248 | the six passes succeed iff the script runs, and give every cell its threshold flag |
| SubsamplesRaw.SubsampleQualityControl | processing_subsamples_raw.py:116-314 | the flagging succeeds iff the script runs, and every cell then holds SubsampleFlag |
| SubsamplesRaw.MissingValueFlag | processing_subsamples_raw.py:251-256 | a missing value's flag is missing, except that 36a/b and 4a/b end at 3 and 37a/b and 14a/b at 9 |
| SubsamplesRaw.PairedFlag | processing_subsamples_raw.py:150-248 | a paired row's flag is the threshold flag of its pass's ratio, under the manual statements |
| SubsamplesRaw.AmmoniumFlagFollowsNitrateNitrite | processing_subsamples_raw.py:233-248 | the ammonium flag is the threshold flag of the NO3+NO2 ratio against the ammonium threshold |
| SubsamplesRaw.IntendedSubsampleFlag | processing_subsamples_raw.py:233-248 | the intended flagging agrees with the script on every column except ammonium |
| SubsamplesRaw.IntendedAmmoniumFlag | processing_subsamples_raw.py:233-248 | the intended ammonium flag is the threshold flag of the ammonium ratio |
| SubsamplesRaw.AmmoniumFlagDiverges | processing_subsamples_raw.py:237-239 | a pair whose NO3+NO2 ratio exceeds the threshold while its ammonium ratio does not is flagged 3 instead of 2 |
| SubsamplesRaw.AmmoniumCounterexample | processing_subsamples_raw.py:237-239 | a concrete two-row sheet that the script runs on, where ammonium is flagged 3 but should be 2 |
| Coordinates.RemoveSpaces | processing_stations_coordinates.py:8-9 | `''.join(filter(None, x.split(' ')))` keeps exactly the non-space characters, in order |
| Coordinates.RemoveSpacesKeepsOthers | processing_stations_coordinates.py:8-9 | no space is left, and every other character keeps its count |
| Coordinates.Decimal | processing_stations_coordinates.py:15-17 | the magnitude is deg + min/60 + sec/3600, and a positive magnitude is negative iff W or S |
| Coordinates.Convert | data_processing/dms_to_dd.py:4-12 | conversion succeeds iff there are four parts and the first three parse; otherwise ValueError |
| Coordinates.DmsToDd | processing_stations_coordinates.py:12-20 | `dms_to_dd` succeeds iff its split gives four parts whose first three are integers |
| Coordinates.Converter | data_processing/dms_to_dd.py:4-12 | `converter` succeeds iff its split gives four parts whose first three are integers |
| Coordinates.SplitFormatDms | processing_stations_coordinates.py:14 | a string written as deg "Â°" min "." sec "'" dir splits into exactly those four parts |
| Coordinates.DmsRoundTrip | processing_stations_coordinates.py:14-17 | formatting a position and parsing it gives back its decimal degrees |
| Coordinates.WholeDegrees | processing_stations_coordinates.py:15-17 | a position with no minutes or seconds converts to ±degrees |
| Coordinates.SplitFormatSeconds | data_processing/dms_to_dd.py:6 | deg "°" min "'" sec '"' dir splits into exactly those four parts |
| Coordinates.ConverterRoundTrip | data_processing/dms_to_dd.py:6-9 | `converter` gives back the decimal degrees of a position it formats |
| Coordinates.ConverterRejectsMisdecodedDegree | data_processing/dms_to_dd.py:6 | a "Â°" position that `dms_to_dd` accepts makes `converter` raise ValueError, because it splits into five parts |
| Coordinates.ConvertRow | processing_stations_coordinates.py:23-26 | a row converts iff both columns do without spaces, and keeps its key |
| Coordinates.ConvertStations | processing_stations_coordinates.py:23-30 | the table converts iff every row does, row for row; otherwise ValueError |
| Coordinates.SpacesIgnored | processing_stations_coordinates.py:8-14 | a space anywhere in the cell does not change the converted value |
| TempRestriction.TempDiff | data_processing/temp_restriction.py:4 | abs(cell temperature - water temperature) ≥ 0, present iff both are |
| TempRestriction.Restricted | data_processing/temp_restriction.py:5 | every kept row is strictly within one degree |
| TempRestriction.RestrictTemperature | data_processing/temp_restriction.py:1-6 | writes the temp_diff column and returns exactly the restricted rows |
| TempRestriction.RestrictedExactly | data_processing/temp_restriction.py:5 | the kept rows are a subsequence holding exactly the rows within one degree; a difference of exactly 1.0 and a missing difference are dropped |
| Alkalinity.TaNaoReference | data_processing/alkalinity.py:8-14 | the polynomial gives 2305 at salinity 35 and 20 °C |
| Alkalinity.TaNaoSeparates | data_processing/alkalinity.py:8-14 | the polynomial is a salinity part plus a temperature part about the reference |
| Alkalinity.TaNaoRisesWithSalinity | data_processing/alkalinity.py:8-14 | for salinity ≥ 26 the estimate rises strictly with salinity |
| Alkalinity.TaEstimate | data_processing/alkalinity.py:17 | the TA estimate is present iff salinity and temperature are, and then equals the polynomial |
| Alkalinity.AlkalinityOf | data_processing/alkalinity.py:3-34 | the result has the input rows unchanged, each with the Lee et al. TA estimate of its own salinity and water temperature (missing iff either is) and the solver's in-situ pH |
| Alkalinity.ReferenceRow | data_processing/alkalinity.py:17 | a row at salinity 35 and 20 °C gets TA estimate 2305 |

## Left out

- The carbonate-system solver (PyCO2SYS) is the `solve` parameter of `Alkalinity.AlkalinityOf`. The pH values it yields in data_processing/pH.py:26-50 and processing_uws_pH_correction.py:47-73 are taken as input columns of the subsample records.
- Seawater density (calkulate) is the `density` parameter. Where the source divides by it, the model requires it to be positive.
- Nutrients.PerKilogram: requires a positive density; a zero or negative density (impossible for seawater) is not modelled.
- SubsamplesRaw.Converted: requires a positive density, for the same reason.
- The PCHIP interpolator is a function parameter (`pchip`, `interpolate`). Its shape preservation and its domain (extrapolate=False outside the subsample span, extrapolate=True in the bootstrapping main path) are not modelled.
- The nearest-time reindex is given as input: the optode value matched to each subsample. This covers processing_uws_pH_correction.py:36-43, processing_uws_pH_correction_bootstrapping.py:40-41 and the lookup in data_processing/pH.py:75.
- The random draws of the bootstrap (processing_uws_pH_correction_bootstrapping.py:97) are a parameter, one draw per iteration.
- The bootstrap's standard deviation (122-125), the moving average of the uncertainty (130), the printed summary (136) and the plots (138-162) are not modelled; they are floating-point statistics and output.
- Sorting.SortByTime: a stable insertion sort; pandas' default sort is not stable, so for rows of equal time the model fixes one of the orders pandas may produce.
- Sorting.DropDuplicateTimes: the contract says no time repeats and no time is lost, not that the row kept for a time is its first row (the body keeps the first).
- Text.Lower: ids are assumed to be ASCII; Python's `str.lower` also lowers non-ASCII letters (`"Ä".lower()` is `"ä"`), which the model leaves unchanged.
- Text.ParseInteger: Python's `int()` also accepts surrounding whitespace and `_` between digits; neither is modelled, so such strings are rejected here.
- PhCorrection.CorrectBySubsamples: the interpolator's values between and beyond the points are the parameter's; the model states only that it is refused on fewer than two points or on times that do not strictly increase, and (`PhCorrection.CorrectedAtSubsampleTime`) what it gives at the points when it passes through them.
- The bootstrapping main path (processing_uws_pH_correction_bootstrapping.py:80-88) builds the same points as processing_uws_pH_correction.py:84-96 and corrects by them as `PhCorrection.CorrectBySubsamples` does, with an extrapolating interpolator; it is not modelled separately.
- PhFunction.CorrectedSma: the interpolator is given as the `pchip` function; the ValueError that data_processing/pH.py:88 raises on fewer than two points or times that do not strictly increase is not modelled there (it is in `PhCorrection.CorrectBySubsamples`).
- Python's `float()` on coordinate parts and `astype(int)` on dupcodes are modelled as integer parsing. Fractional seconds and exponents in coordinate strings are not modelled.
- Coordinates.ConvertRow: a cell that is not a string (a float NaN) is not modelled; every cell is text.
- All file I/O and the merges with other tables are not modelled: Excel, CSV and `.dbs` reading, `to_csv`, and `merge`/`concat`. Neither are missing file names or ids (NaN in an id column).
- TempRestriction.RestrictTemperature: the `temp_diff` column is written to an array beside the rows rather than added to the returned frame.
- processing_subsamples_raw.py:35-51 (reading `raw_uws_data.csv` and the nearest-time reindex of each subsample against that continuous underway record, which fills its salinity, temperature and position) and 55-97 (reading and joining the nutrient sheets) are not modelled; the model starts from the joined table.
- processing_vindta.py:8-200 (reading, metadata and titration calibration) is not modelled, except the CRM predicates (33-35), the bottle-name splitting and station codes (63-89) and the analysis batch (128-131). Also left out are the spelling fixes at 248-250 and the CTD alkalinity/DIC processing and final merges (555-714).
- The DIC copy of the duplicate processing (processing_vindta.py:396-498) runs the same members as the alkalinity copy with the DIC good/bad lists (`Vindta.ListsArePartners` states both). Its publishing uses day 16.
- Vindta.RemainingTalkThreeIsLoneMember: the comment at processing_vindta.py:483-484 promises the same for DIC, but the code does not keep that promise, so the lemma is stated for TA only. Several bottles are given DIC flag 3 by name, whatever their analysis day (24a, 15b, 3a and others, 258-267). A pair with both members kept can therefore still publish a 3, and the 2.5 -> 3 merge at 497-498 then publishes the pair as 3 (`Vindta.DicRemainingThreeKeepsPair`).
- processing_ctd_raw.py:6-30 (reading the bottle files), the name fix at 101 and the merges 174-177 are not modelled.
- Vindta.PrecisionNumber: √π/2 is the decimal constant `HalfSqrtPi` (0.8862269254527580); no claim is made about its last digits.
- data_processing/alkalinity.py: only the TA polynomial and the shape of the returned frame are modelled. The solver call (20-29) is the `solve` parameter.

## Findings

| source | as written | input that shows it | evidently intended | confidence | as-written member | corrected member |
|---|---|---|---|---|---|---|
| processing_subsamples_raw.py:237-239 | the ammonium pass computes its difference, mean and diff/mean from `total_nitrate_nitrite`, so `Ammonium_flag` follows the NO3+NO2 ratio | one pair 1a/1b with phosphate present, NO3+NO2 0 and 2 (diff/mean 2) and ammonium 1 and 1 (diff/mean 0): the ammonium flag becomes 3 | the ammonium pass reads `total_ammonium`, so the pair gets flag 2 | not executed | SubsamplesRaw.AmmoniumCounterexample | SubsamplesRaw.IntendedAmmoniumFlag |

The flagging method `SubsamplesRaw.SubsampleQualityControl` reproduces the script as written.
The corrected flagging is `SubsamplesRaw.IntendedSubsampleFlag`. It agrees with the script on
every other column, and `SubsamplesRaw.IntendedAmmoniumFlag` proves that its ammonium flag
follows the ammonium ratio.
