# Air-quality analysis core, modelled in Dafny

This project models the analysis core of a small air-quality toolkit. The toolkit works
on hourly measurements of carbon monoxide (`co_gt`), nitrogen dioxide (`no2_gt`),
temperature and relative humidity. The model covers:

- **`DataProcessor` (`data_processing.py`).** Cleaning: the `-200` sentinel becomes a
  missing value, sparse rows are dropped, gaps are filled by linear interpolation and then
  by the median. Also the centred moving average, the row threshold filter, and IQR and
  z-score outlier removal.
- **`CorrelationAnalyzer` (`correlation_analysis.py`).** Loading the complete rows of the
  tracked variables, the pair query, the strongest-N ranking, storing a correlation matrix
  and the verbal strength scale.
- **`SpectralAnalyzer` (`spectral_analysis.py`).** The FFT bin layout and amplitude
  scaling, the dominant-frequency report, the choice of power-spectrum estimator, storing
  a spectral result and reading a frequency as a cycle.
- **Desktop application decisions (`gui_application.py`).** The comparison filter view, the
  guards of the spectral view and its Welch segment and peak report, and the blur-kernel
  slider.

Modules, one per concern:

| module | file | concern |
|---|---|---|
| `Types` | `types.dfy` | `Option` (a missing value is pandas' NaN), `Result` and the error kinds the classes raise |
| `Seqs`, `Sorting` | `seqs.dfy`, `sorting.dfy` | order-preserving filtering (boolean masks), sums, Python slice semantics, a stable sort by a real key |
| `Tables` | `tables.dfy` | a data frame as named columns over rows of optional reals |
| `Stats` | `stats.dfy` | pandas' linear quantile, the median, the sample variance |
| `Interpolation` | `interpolation.dfy` | `interpolate(method='linear')`, `bfill`, `ffill` |
| `Cleaner` | `cleaner.dfy` | `clean_data` and the processor state it updates |
| `Filters` | `filters.dfy` | moving average, threshold filter, outlier removal, clipping |
| `Correlation` | `correlation.dfy` | the correlation analyser |
| `Spectral` | `spectral.dfy` | the spectral analyser |
| `Gui` | `gui.dfy` | the application's decision logic |

Numerical library routines are not computed by the model:

- **Inputs.** The correlation matrix, the periodogram or Welch output, and the magnitude
  of each FFT bin are passed in. The FFT magnitudes come from a function parameter.
- **Computed in the model.** Everything the toolkit does with those values: bin layout,
  scaling, masks, ranking, storing and interpretation.
- **Exceptions.** Every exception the classes raise becomes an `Err`.
- **The application's GUI views.** These are pure functions from the view's inputs to
  what it stores or decides.

## Model

| member | source | states |
|---|---|---|
| Cleaner.ReplaceSentinel | data_processing.py:64-69 | In a tracked column a cell holding -200 becomes missing. Every other cell is unchanged, and the table keeps its shape. |
| Cleaner.SurvivesIffAtMostTwoMissing | data_processing.py:74-76 | A row passes `dropna(thresh=width - 0.5 * 4)` exactly when at most two of its cells are missing. |
| Cleaner.DropSparseRows | data_processing.py:74-76 | The kept rows are an order-preserving subsequence. Each has at least width - 2 present cells, and every input row with that many is kept. Their number is the count of such input rows, so duplicates survive as often as they occur. The rows are exactly the row mask's survivors. |
| Interpolation.InterpolateKeepsKnown | data_processing.py:78-81 | Linear interpolation never changes a present value. |
| Interpolation.InterpolateInteriorGap | data_processing.py:78-81 | A gap between two present values gets the position-weighted linear value between them. That value lies between the two. |
| Interpolation.InterpolateTrailingGap | data_processing.py:78-81 | Gaps after the last present value take that value (pandas' forward limit direction). |
| Interpolation.InterpolateLeadingGap | data_processing.py:78-81 | Gaps before the first present value stay missing. |
| Interpolation.InterpolateFillsFromFirstKnown | data_processing.py:78-81 | Every position at or after some present value is filled. |
| Interpolation.InterpolateIdempotent | data_processing.py:78-81 | Interpolating an interpolated column changes nothing. |
| Interpolation.InterpolateExample | data_processing.py:78-81 | `[20, NaN, NaN, 26]` interpolates to `[20, 22, 24, 26]`. |
| Cleaner.FillWithMedian | data_processing.py:84-87 | Present values are kept. With at least one present value every gap gets the median of the present values. With none, the column is unchanged (the median is NaN). |
| Cleaner.FillWithMedianSpec | data_processing.py:84-87 | Given one present value, no gap remains and present values are unchanged. Each filled gap lies between two present values. |
| Stats.Quantile | data_processing.py:146-147 | A linear quantile of an ascending series lies between its first and last values. |
| Stats.QuantileBracket | data_processing.py:146-147 | At a whole rank the quantile is that order statistic. Otherwise it is the linear blend of the two order statistics around the rank. |
| Stats.QuantileMonotone | data_processing.py:146-148 | Quantiles grow with the requested fraction, so Q1 <= Q3 and the IQR is non-negative. |
| Stats.MedianBetween | data_processing.py:86 | The median lies between a present value below it and one above it. |
| Stats.MedianOfAscending | data_processing.py:86 | The median of an odd-length series is its middle value. For even length it is the mean of the two middle values. |
| Cleaner.MapColumnsSpec | data_processing.py:79-87 | The per-column loops rewrite exactly the named columns. Every other column is untouched. |
| Cleaner.AbsentEmpty | data_processing.py:72 | The list of tracked columns absent from the table is empty exactly when all four are present. |
| Cleaner.CleanTable | data_processing.py:62-87 | It fails with the absent tracked columns exactly when one is missing (the `[numeric_cols]` lookup raises). Otherwise the columns are kept and there is one row per surviving row. |
| Cleaner.CleanTableColumns | data_processing.py:78-87 | A tracked column of the cleaned table is the surviving rows' column, interpolated and then median-filled. Other columns are the surviving rows' cells unchanged. |
| Cleaner.CleanColumnNoGaps | data_processing.py:78-87 | A column with at least one present value ends without gaps, and its present values are unchanged. |
| Cleaner.CellsOfCleanedColumn | data_processing.py:78-87 | A table whose column is the interpolate-then-median result of a column with a present value has no missing cell there, and it keeps that column's present cells. |
| Cleaner.CleanLeavesNoGaps | data_processing.py:57-96 | If the surviving rows hold any value in a tracked column, that column has no missing cell after cleaning, and its surviving values are kept. |
| Cleaner.CleanData | data_processing.py:57-96 | With no data it fails with NoDataLoaded and leaves the state alone. When a tracked column is missing it stores the sentinel-replaced copy before the lookup raises, and fails with MissingColumns. Otherwise it stores and returns the cleaned table. |
| Cleaner.EnsureCleaned | data_processing.py:100-101 | An existing cleaned table is reused as is. Without one, the outcome is that of `clean_data`, including its NoDataLoaded and MissingColumns errors. Whatever it returns is the stored cleaned table and is well formed. |
| Filters.FullWindowRange | data_processing.py:106 | The centred windows of width `w` that fit inside the series are those of a contiguous range of positions, and each covers exactly `w` values. |
| Filters.RollingMeanOfFull | data_processing.py:106 | The centred rolling mean at a position is present exactly when its window fits, and it is then the mean of that window. |
| Filters.RollingPresence | data_processing.py:106 | For a window no longer than the series, the present rolling means are exactly one block of positions. |
| Filters.MovingAverageSpec | data_processing.py:106-109 | After back-fill and forward-fill no position is missing. Fitted positions hold their window mean. The edges copy the first and last window means. |
| Interpolation.BackThenForwardFillsAll | data_processing.py:109 | If any value is present, back-filling then forward-filling leaves no gap and keeps present values. |
| Interpolation.FillAroundBlock | data_processing.py:109 | For a single block of present values, the leading edge copies its first value and the trailing edge its last. |
| Filters.ApplyMovingAverage | data_processing.py:98-112 | It cleans first when needed, keeps the cleaned table and passes on a cleaning error. It fails with ColumnNotFound for an absent column. Otherwise it returns one value per cleaned row: the back- and forward-filled centred rolling mean of the cleaned column. |
| Filters.ApplyMovingAverageOfFull | data_processing.py:98-112 | On a gap-free cleaned column at least as long as the window, the result has no gap. Every position whose window fits holds the mean of the cleaned values in that window. |
| Filters.ThresholdRows | data_processing.py:119-129 | It fails exactly when the column is absent. Otherwise it keeps, in order, exactly the rows whose value is at least `lo` and at most `hi`, with an absent bound imposing nothing and a missing cell failing. |
| Filters.ApplyThresholdFilter | data_processing.py:114-135 | It is the threshold filter on the cleaned table, or the cleaning error. The processor keeps the cleaned table that cleaning stored. |
| Filters.IqrBoundsContainQuartiles | data_processing.py:145-150 | For a non-negative factor the IQR fences enclose both quartiles and the median. |
| Filters.QuartilesOfSix | data_processing.py:146-147 | For six sorted values Q1 is a quarter of the way from the second value to the third, and Q3 three quarters of the way from the fourth to the fifth. |
| Filters.IqrExampleBounds | data_processing.py:145-150 | The values 1, 2, 3, 4, 5, 100 with factor 1.5 give the fences [-1.5, 8.5]. |
| Filters.IqrExample | data_processing.py:145-151 | The IQR rule removes exactly the row holding 100 from that column. |
| Filters.WithinVariance | data_processing.py:154-155 | Some value's squared deviation from the mean is at most the sample variance. |
| Filters.ZScoreKeepsSome | data_processing.py:153-156 | With k >= 1 and a positive variance, at least one value passes the z-score rule. |
| Filters.RemoveOutliers | data_processing.py:137-163 | An unknown method name returns the table unchanged. "iqr" and "zscore" fail exactly when the column is absent. Otherwise they return an order-preserving subsequence of rows with the same columns. |
| Filters.IqrKeepsExactlyInside | data_processing.py:145-151 | The IQR rule keeps, in order, exactly the rows whose value lies within the fences. A column with no present value loses every row. |
| Filters.ZScoreKeepsExactlyPassing | data_processing.py:153-156 | The z-score rule keeps exactly the rows passing `abs((x - mean) / std) <= k`. With fewer than two values or zero spread it keeps no row. |
| Filters.ApplyRemoveOutliers | data_processing.py:137-142 | It is outlier removal on the cleaned table, or the cleaning error. The processor keeps the cleaned table that cleaning stored. |
| Correlation.Present | correlation_analysis.py:49 | The available columns are the tracked names present in the table, in tracked order, without repetition. |
| Correlation.Project | correlation_analysis.py:50 | A projected row holds the input row's cells under the available names. |
| Correlation.LoadForCorrelation | correlation_analysis.py:43-54 | The loaded table has the available columns and only complete rows, and it is no longer than the input. |
| Correlation.LoadKeepsCompleteRows | correlation_analysis.py:49-50 | The loaded rows are, in order, exactly the complete projections of the input rows. |
| Correlation.PairVectors | correlation_analysis.py:82-86 | It fails with the available column list exactly when a variable is absent. Otherwise it returns the two named columns. |
| Correlation.PairVectorsOfLoaded | correlation_analysis.py:79-86 | On the loaded table both series handed to the coefficient are gap-free. |
| Correlation.KindOf | correlation_analysis.py:88-91 | "pearson" selects Pearson; every other name selects Spearman. |
| Correlation.UpperIndices | correlation_analysis.py:109-110 | The double loop visits exactly the index pairs i < j. |
| Correlation.UpperIndicesSpec | correlation_analysis.py:108-119 | It yields k(k-1)/2 pairs, each i < j < k. Every such pair occurs, and none is repeated. |
| Correlation.Pairs | correlation_analysis.py:108-119 | The n-th pair names the columns of the n-th upper-triangle index pair and carries that matrix entry. |
| Correlation.TopN | correlation_analysis.py:121-122 | `head(n)` after sorting: the length follows Python slicing. Absolute coefficients are non-increasing, and the entries come from the input. |
| Correlation.TopNIsTop | correlation_analysis.py:121-122 | Listed and dropped pairs together are the input. No dropped pair has a larger absolute coefficient than a listed one. |
| Correlation.TopTenOfFour | correlation_analysis.py:99-122 | With the four tracked variables the default top ten lists all six pairs. |
| Correlation.NewRows | correlation_analysis.py:143-155 | One row per upper-triangle pair (i, j), in loop order. Each holds column i's name, column j's name and matrix entry (i, j), tagged with the method. |
| Correlation.StoreCorrelations | correlation_analysis.py:139-155 | Rows of other methods are untouched. The method's rows are exactly the new matrix's pairs. |
| Correlation.StoreCorrelationsSpec | correlation_analysis.py:139-155 | A k-variable matrix stores k(k-1)/2 rows for its method. Storing the same matrix twice changes nothing. |
| Correlation.StrengthOf | correlation_analysis.py:278-288 | Each strength label holds exactly on its band of absolute coefficients. |
| Correlation.StrengthMonotone | correlation_analysis.py:278-288 | Strength grows with the absolute coefficient and ignores the sign. |
| Correlation.DirectionOf | correlation_analysis.py:290 | "positive" exactly when the coefficient is above zero. |
| Correlation.InterpretCorrelation | correlation_analysis.py:275-291 | The text is the band's label, " correlation ", then the eight-letter direction word. Its length is the label's plus 21. |
| Correlation.InterpretCorrelationDistinguishes | correlation_analysis.py:278-291 | Two coefficients read the same exactly when they share the strength band and the side of zero. |
| Correlation.InterpretZero | correlation_analysis.py:290-291 | A zero coefficient reads "Very Weak correlation negative". |
| Spectral.NonNegativeMaskKeepsLeadingBins | spectral_analysis.py:59-63 | The `frequencies >= 0` mask over `fftfreq(n)` keeps exactly the leading (n - 1) div 2 + 1 bins: 2 of 4, 3 of 5. |
| Spectral.TrailingBinsNegative | spectral_analysis.py:61-63 | Every bin after those is negative. |
| Spectral.FftFrequenciesSpec | spectral_analysis.py:59-63 | The kept frequencies start at 0, increase strictly and stay below the Nyquist frequency 0.5. |
| Spectral.Demean | spectral_analysis.py:53 | Each value is shifted by the series mean. |
| Spectral.DemeanSumsToZero | spectral_analysis.py:53 | The de-meaned signal sums to zero. |
| Spectral.ApplyFft | spectral_analysis.py:40-74 | It fails exactly when the column is absent or holds no value. Otherwise bin k has frequency k/n and amplitude 2 times magnitude k over n, with (n - 1) div 2 + 1 bins. |
| Spectral.FftBins | spectral_analysis.py:59-67 | One bin per kept frequency, at that frequency, with amplitude 2·mag[k]/n for the k-th magnitude of an n-sample signal. |
| Spectral.PeakOf | spectral_analysis.py:105-116 | A positive bin's peak keeps its frequency and amplitude. Its period in hours is 1/frequency and in days that over 24. |
| Spectral.TopBinsOrdered | spectral_analysis.py:102 | `argsort(...)[-p:][::-1]` lists the bins from the largest amplitude down. |
| Spectral.TopBinsPartition | spectral_analysis.py:102 | Picked and left-out bins together are the input. |
| Spectral.TopBinsAreTop | spectral_analysis.py:102 | No left-out bin is larger than a picked one. |
| Spectral.TopBinsMembers | spectral_analysis.py:102 | Every picked bin is an input bin. |
| Spectral.PeaksOf | spectral_analysis.py:105-116 | Each positive bin becomes its peak with consistent periods. |
| Spectral.FindDominantCount | spectral_analysis.py:96-102 | At most the number of positive bins are reported, and exactly min(p, that number) for p >= 1. |
| Spectral.FindDominantPeriods | spectral_analysis.py:96-116 | Every reported peak is at a positive frequency and carries matching periods. |
| Spectral.FindDominantMembers | spectral_analysis.py:96-107 | Every reported peak is an input bin. |
| Spectral.FindDominantOrdered | spectral_analysis.py:102-105 | Peaks come from the largest amplitude down. |
| Spectral.FindDominantIsTop | spectral_analysis.py:96-102 | No unreported positive bin is larger than a reported peak. |
| Spectral.WelchSegment | spectral_analysis.py:87 | The segment is min(256, n div 4). It is refused exactly when that is zero (fewer than 4 samples). |
| Spectral.PsdMethodOf | spectral_analysis.py:84-87 | "periodogram" selects the periodogram; any other name selects Welch with that segment. |
| Spectral.StoreSpectral | spectral_analysis.py:125-155 | It fails exactly when no bin is positive. Otherwise other variables' rows are untouched and the variable has exactly one row: the top dominant frequency and the first 100 frequencies and powers. |
| Spectral.InterpretFrequency | spectral_analysis.py:254-271 | Each reading holds exactly on its band of periods, checked in order. Long-term trends carry their length in days, and other cycles their period in hours. |
| Spectral.InterpretFrequencyExamples | spectral_analysis.py:257-267 | 1/24, 1/12 and 1/168 read as daily, semi-daily and weekly; 0 reads as constant. |
| Gui.ApplyFilter | gui_application.py:988-1033 | Without data, with a bad window, with unordered thresholds or with an unknown filter, the view is unchanged. Otherwise it stores the present values and a filtered series of the same length. |
| Gui.ThresholdView | gui_application.py:1012-1033 | The thresholded series has no gaps and lies in [lo, hi]. In-range values are kept, and out-of-range values move to the nearer bound. |
| Gui.MovingAverageView | gui_application.py:1001-1009 | The view's moving average has no gaps, and fitted positions hold their window mean. |
| Filters.Clip | gui_application.py:1024 | `np.clip`: every value lands in [lo, hi]. Values inside are unchanged; values outside move to the nearer bound. |
| Filters.ClipIdempotentMonotone | gui_application.py:1024 | Clipping twice equals clipping once, and clipping preserves order. |
| Gui.PlanSpectral | gui_application.py:1241-1318 | The refusal is no data, fewer than 10 points or a cut-off outside (0, 0.5), exactly in those situations and in that order. Otherwise it passes on the de-meaned signal, with `compared` set exactly for the four Butterworth filters. With `compared` that signal is the filter's input and the spectrum is taken of the filter's output. Without it the de-meaned signal itself is analysed. |
| Gui.PlannedSignalCentred | gui_application.py:1256-1258 | The de-meaned signal handed to the filter sums to zero. It is analysed directly only when no filter runs. |
| Gui.GuiSegment | gui_application.py:1368-1370 | From 16 samples the segment is between 4 and 256 and at most a quarter of the series. Below that it is the whole series. |
| Gui.GuiSegmentAgrees | gui_application.py:1366-1372 | From 16 samples the view and the analyser pick the same Welch segment. Below that the analyser's is shorter or refused. |
| Gui.ReportedPeaks | gui_application.py:1355-1364 | At most five peaks, never more than the candidates. |
| Gui.FftPeaks | gui_application.py:1336-1364 | FFT mode reports at most five peaks from the first half of the non-negative bins. |
| Gui.PsdPeaks | gui_application.py:1384-1393 | PSD mode reports at most five peaks from all Welch bins. |
| Gui.ReportedPeaksSpec | gui_application.py:1355-1364 | Reported peaks are positive-frequency candidates, listed from the largest amplitude down. No candidate outside the top five is larger. |
| Gui.ReportedPeaksAllPositive | gui_application.py:1355-1364 | When the top five are all at positive frequencies, exactly min(5, candidates) peaks are reported. |
| Gui.RoundHalfEven | gui_application.py:1707 | Python's `round`: the nearest integer, with ties going to the even one. |
| Gui.RoundWhole | gui_application.py:1707 | Rounding a whole number returns it. |
| Gui.KernelOf | gui_application.py:1709-1712 | The kernel is odd and within [3, 21]. An odd in-range size is kept, an even one is raised by one, and sizes outside the range clamp to 3 or 21. |
| Gui.UpdateBlurKernel | gui_application.py:1706-1716 | The slider always yields an odd kernel in [3, 21], and keeps a value that rounds to one. |
| Gui.KernelOfSettles | gui_application.py:1706-1712 | Normalising a kernel twice equals normalising it once, and normalisation is monotone. |

## Left out

- File and database I/O (`load_data_from_csv`, `load_data_from_database`, SQLite, the
  JSON string of the stored spectrum), console output, plots, `tkinter` widgets and
  dialogs, and the image-processing module. These are outside the analysis logic.
- Floating point. Values are exact reals, so rounding in means, quantiles, `1/f` and
  the band checks is not modelled.
- Spectral.ApplyFft: the FFT itself and the phases it returns are not computed. The
  magnitude of each bin is a function parameter.
- The Pearson and Spearman coefficients (`pearsonr`, `spearmanr`, `DataFrame.corr`) and
  the periodogram and Welch estimates are not computed. The matrix and the spectra are
  inputs.
- The Butterworth design and filtering (`butter`, `sosfilt`) are not computed. Gui.PlanSpectral
  models which filter runs and on what, not the filtered values.
- Gui.PlanSpectral: when `compared` holds, the analysed signal is the `sosfilt` output, which
  is not computed. The plan's `signal` is the filter's input in that case.
- Correlation.TopN, Spectral.TopBinsOrdered, Gui.ReportedPeaks: equal keys are kept in
  input order. pandas' `sort_values` and numpy's `argsort` use a non-stable default sort,
  so the model fixes one order among equals.
- Text parsing in the GUI (`float(...)` raising `ValueError`) is left out. Gui.ApplyFilter
  and Gui.PlanSpectral take already-parsed numbers.
- Gui.ApplyFilter: a moving-average window below 1 is treated as a refused filter. What
  pandas does with such a window is not modelled.
- Filters.ApplyMovingAverage: requires a window of at least 1, for the same reason.
- Spectral.StoreSpectral: `compute_power_spectrum` indexes the column without checking it,
  so an absent column raises `KeyError`. The model takes the spectra and bins as inputs
  and does not model that lookup.
- Correlation.Pairs: NaN entries of a correlation matrix (a constant column) are not
  represented. Matrix entries are reals.
- Correlation.TopN: with fewer than two variables there is no pair. pandas then raises
  `KeyError` on `'Abs Coefficient'`, because `DataFrame([])` has no such column; the model
  returns an empty list. The four tracked columns always give six pairs.
- Filters.ApplyMovingAverage, Filters.ThresholdRows, Filters.RemoveOutliers: every cell is
  an optional real, so a filter on the text columns `date` or `time` returns a result. In
  pandas it raises: `rolling().mean()` gives a `DataError`, and comparison with a float or
  `quantile` give a `TypeError`. Text content is not modelled.
- The result-text formatting of the analysers and the GUI (digits, units, French/English
  labels) is left out. Spectral.InterpretFrequency returns the reading as a datatype.
- `get_summary_statistics`, the plotting methods and the database wrapper are not part of
  this model.
- Cleaner.CleanTable: no idempotence property is stated. Cleaning twice is not the
  identity: a value interpolated to exactly -200 becomes missing again on the second pass.
