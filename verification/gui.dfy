/** The decisions the desktop application takes around its analyses: the comparison
    filter on one variable (`apply_filter`), the guards, Welch segment length and peak
    report of the spectral view (`run_spectral_analysis`), and the blur-kernel slider
    (`update_blur_kernel`). Widgets, dialogs, plots and the numerical library calls are
    not modelled: a refused action is one that leaves the view as it was. */
module Gui {
  import opened Types
  import opened Seqs
  import opened Sorting
  import opened Tables
  import opened Filters
  import opened Spectral

  // ================================================================ apply_filter

  /** The filter view's stored series: the present values of the variable and the
      filtered series shown beside them. Both are absent until a filter first runs. */
  datatype FilterView = FilterView(original: Option<seq<real>>, filtered: Option<seq<Option<real>>>)

  /** The filter chosen in the view, with its parameters already parsed. */
  datatype FilterChoice =
    | MovingAverageChoice(window: int)
    | ThresholdChoice(lo: real, hi: real)
    | Unrecognised

  /** Whether `apply_filter` gets as far as storing a result: data is loaded, the moving
      average has a usable window and the thresholds are ordered. */
  predicate FilterAccepted(data: Option<seq<Option<real>>>, choice: FilterChoice)
  {
    data.Some? &&
    match choice
    case MovingAverageChoice(w) => w >= 1
    case ThresholdChoice(lo, hi) => lo < hi
    case Unrecognised => false
  }

  /** `apply_filter` on the selected variable's column (`None` when no data is loaded).
      The missing values are dropped first; the moving average is the centred rolling mean
      with both edges filled, and the threshold filter clips every value to `[lo, hi]`. */
  function ApplyFilter(view: FilterView, data: Option<seq<Option<real>>>, choice: FilterChoice): (r: FilterView)
    ensures !FilterAccepted(data, choice) ==> r == view
    ensures FilterAccepted(data, choice) ==>
      && r.original == Some(Known(data.value))
      && r.filtered.Some?
      && |r.filtered.value| == |Known(data.value)|
  {
    if data.None? then view
    else
      var original := Known(data.value);
      match choice
      case MovingAverageChoice(w) =>
        if w < 1 then view else FilterView(Some(original), Some(MovingAverage(Lift(original), w)))
      case ThresholdChoice(lo, hi) =>
        if lo >= hi then view else FilterView(Some(original), Some(Lift(Clip(original, lo, hi))))
      case Unrecognised => view
  }

  /** The threshold filter's series has no gaps, lies in `[lo, hi]`, keeps in-range values
      and moves each out-of-range value to the nearer bound. */
  lemma ThresholdView(view: FilterView, column: seq<Option<real>>, lo: real, hi: real)
    requires lo < hi
    ensures var r := ApplyFilter(view, Some(column), ThresholdChoice(lo, hi));
      var s := Known(column);
      && r.original == Some(s)
      && |r.filtered.value| == |s|
      && (forall i :: 0 <= i < |s| ==> r.filtered.value[i].Some?)
      && (forall i :: 0 <= i < |s| ==> lo <= r.filtered.value[i].value <= hi)
      && (forall i :: 0 <= i < |s| && lo <= s[i] <= hi ==> r.filtered.value[i].value == s[i])
      && (forall i :: 0 <= i < |s| && s[i] < lo ==> r.filtered.value[i].value == lo)
      && (forall i :: 0 <= i < |s| && s[i] > hi ==> r.filtered.value[i].value == hi)
  {
    var s := Known(column);
    assert ApplyFilter(view, Some(column), ThresholdChoice(lo, hi)).filtered.value == Lift(Clip(s, lo, hi));
  }

  /** With a window no longer than the series, the moving-average series has no gaps and
      each position whose window fits holds the mean of that window. */
  lemma MovingAverageView(view: FilterView, column: seq<Option<real>>, w: nat)
    requires 1 <= w <= |Known(column)|
    ensures var r := ApplyFilter(view, Some(column), MovingAverageChoice(w));
      var s := Known(column);
      && (forall i :: 0 <= i < |s| ==> r.filtered.value[i].Some?)
      && (forall i :: 0 <= i < |s| && FullWindow(|s|, i, w) ==>
            r.filtered.value[i] == Some(Sum(s[WindowStart(i, w)..WindowEnd(i, w) + 1]) / (w as real)))
  {
    var s := Known(column);
    MovingAverageSpec(s, w);
    assert ApplyFilter(view, Some(column), MovingAverageChoice(w)).filtered.value == MovingAverage(Lift(s), w);
  }

  // ================================================================ run_spectral_analysis

  /** The filter applied before the spectrum is taken, with its cut-off frequencies. */
  datatype SpectralFilter =
    | NoFilter
    | LowPass(cutoff: real)
    | HighPass(cutoff: real)
    | BandPass(low: real, high: real)
    | BandStop(low: real, high: real)
    | OtherFilter

  datatype SpectralRefusal = NoData | NotEnoughPoints | InvalidCutoff

  /** A refusal, or the de-meaned signal handed to the filter and whether a Butterworth
      filter runs on it (`compared`). When it does, the spectrum is taken of the filter's
      output, which is not computed here; otherwise of `signal` itself. */
  datatype SpectralPlan =
    | Refused(reason: SpectralRefusal)
    | Proceed(signal: seq<real>, compared: bool)

  /** Nyquist frequency of the hourly series. */
  const Nyquist: real := 0.5

  /** Shortest series the spectral view analyses. */
  const MinPoints: nat := 10

  /** The Butterworth filters are designed only for cut-offs strictly inside
      `(0, Nyquist)`, with the low edge of a band below its high edge. */
  predicate CutoffsValid(f: SpectralFilter)
  {
    match f
    case LowPass(c) => 0.0 < c < Nyquist
    case HighPass(c) => 0.0 < c < Nyquist
    case BandPass(lo, hi) => 0.0 < lo < hi < Nyquist
    case BandStop(lo, hi) => 0.0 < lo < hi < Nyquist
    case _ => true
  }

  /** The guards of `run_spectral_analysis`, in order, and the de-meaned signal that
      reaches the filter stage when they all pass. */
  function PlanSpectral(column: Option<seq<Option<real>>>, f: SpectralFilter): (r: SpectralPlan)
    ensures r == Refused(NoData) <==> column.None?
    ensures r == Refused(NotEnoughPoints) <==> column.Some? && |Known(column.value)| < MinPoints
    ensures r == Refused(InvalidCutoff) <==>
      column.Some? && |Known(column.value)| >= MinPoints && !CutoffsValid(f)
    ensures r.Proceed? ==>
      && |r.signal| == |Known(column.value)| >= MinPoints
      && (forall i :: 0 <= i < |r.signal| ==> r.signal[i] == Known(column.value)[i] - Mean(Known(column.value)))
      && (r.compared <==> !(f.NoFilter? || f.OtherFilter?))
  {
    if column.None? then Refused(NoData)
    else
      var s := Known(column.value);
      if |s| < MinPoints then Refused(NotEnoughPoints)
      else if !CutoffsValid(f) then Refused(InvalidCutoff)
      else Proceed(Demean(s), !(f.NoFilter? || f.OtherFilter?))
  }

  /** The de-meaned signal handed to the filter stage is centred: its values sum to zero.
      It is the analysed signal only when no Butterworth filter runs. */
  lemma PlannedSignalCentred(column: Option<seq<Option<real>>>, f: SpectralFilter)
    requires PlanSpectral(column, f).Proceed?
    ensures Sum(PlanSpectral(column, f).signal) == 0.0
  {
    DemeanSumsToZero(Known(column.value));
  }

  /** The view's Welch segment length: a quarter of the series capped at 256, or the
      whole series when that quarter is shorter than 4 samples. */
  function GuiSegment(n: nat): (r: nat)
    ensures n >= 16 ==> 4 <= r <= 256 && 4 * r <= n
    ensures n < 16 ==> r == n
  {
    var seg := Min(256, n / 4);
    if seg < 4 then n else seg
  }

  /** From 16 samples on the view and the analysis module choose the same segment;
      below that the module's segment is shorter than the view's, or refused. */
  lemma GuiSegmentAgrees(n: nat)
    ensures n >= 16 ==> WelchSegment(n) == Ok(GuiSegment(n))
    ensures 4 <= n < 16 ==> WelchSegment(n).Ok? && WelchSegment(n).value < GuiSegment(n)
    ensures n < 4 ==> WelchSegment(n).Err?
  {
  }

  /** How many peaks the view reports at most. */
  const PeakCount: int := 5

  /** The peaks listed by the view among the candidate bins: the five largest, largest
      first, of which those at a non-positive frequency are skipped. */
  function ReportedPeaks(candidates: seq<Bin>): (r: seq<Bin>)
    ensures |r| <= |candidates| && |r| <= PeakCount
  {
    Filter(TopBins(candidates, PeakCount), Positive)
  }

  /** FFT mode: candidates are the first half of the non-negative-frequency bins. */
  function FftPeaks(bins: seq<Bin>): (r: seq<Bin>)
    ensures |r| <= |bins| / 2 && |r| <= PeakCount
  {
    ReportedPeaks(bins[..|bins| / 2])
  }

  /** PSD mode: every Welch bin is a candidate. */
  function PsdPeaks(bins: seq<Bin>): (r: seq<Bin>)
    ensures |r| <= |bins| && |r| <= PeakCount
  {
    ReportedPeaks(bins)
  }

  function NegAmp(b: Bin): real
  {
    -b.amp
  }

  /** Each reported peak is a positive-frequency candidate, the list runs from the largest
      amplitude down, and no candidate outside the top five is larger than a reported one. */
  lemma ReportedPeaksSpec(candidates: seq<Bin>)
    ensures var r := ReportedPeaks(candidates);
      && (forall a :: 0 <= a < |r| ==> r[a].freq > 0.0 && r[a] in candidates)
      && (forall a, b :: 0 <= a < b < |r| ==> r[a].amp >= r[b].amp)
      && (forall a, b :: 0 <= a < |r| && 0 <= b < |LeftOutBins(candidates, PeakCount)| ==>
            LeftOutBins(candidates, PeakCount)[b].amp <= r[a].amp)
  {
    var top := TopBins(candidates, PeakCount);
    var r := ReportedPeaks(candidates);
    TopBinsMembers(candidates, PeakCount);
    TopBinsOrdered(candidates, PeakCount);
    TopBinsAreTop(candidates, PeakCount);
    FilterSatisfies(top, Positive);
    assert SortedBy(top, NegAmp);
    FilterKeepsSorted(top, Positive, NegAmp);
    forall a | 0 <= a < |r|
      ensures r[a] in top
    {
    }
  }

  /** When none of the five largest candidates sits at a non-positive frequency, the view
      reports exactly the top five (or every candidate, if there are fewer). */
  lemma ReportedPeaksAllPositive(candidates: seq<Bin>)
    requires forall a :: 0 <= a < |TopBins(candidates, PeakCount)| ==> TopBins(candidates, PeakCount)[a].freq > 0.0
    ensures ReportedPeaks(candidates) == TopBins(candidates, PeakCount)
    ensures |ReportedPeaks(candidates)| == Min(PeakCount, |candidates|)
  {
    FilterKeepsAll(TopBins(candidates, PeakCount), Positive);
  }

  // ================================================================ update_blur_kernel

  /** Python's `round` on a float: to the nearest integer, ties to the even one. */
  function RoundHalfEven(x: real): (n: int)
    ensures (n as real) - 0.5 <= x <= (n as real) + 0.5
    ensures (x - (n as real) == 0.5 || (n as real) - x == 0.5) ==> n % 2 == 0
  {
    var f := x.Floor;
    var d := x - f as real;
    if d < 0.5 then f
    else if d > 0.5 then f + 1
    else if f % 2 == 0 then f
    else f + 1
  }

  /** Whole numbers round to themselves. */
  lemma RoundWhole(k: int)
    ensures RoundHalfEven(k as real) == k
  {
    assert (k as real).Floor == k;
  }

  /** The kernel size the slider settles on: an even size becomes the next odd one, and the
      result is clamped to `[3, 21]`. */
  function KernelOf(k: int): (r: int)
    ensures r % 2 == 1 && 3 <= r <= 21
    ensures k % 2 == 1 && 3 <= k <= 21 ==> r == k
    ensures k % 2 == 0 && 3 <= k < 21 ==> r == k + 1
    ensures k < 3 ==> r == 3
    ensures k >= 21 ==> r == 21
  {
    var odd := if k % 2 == 0 then k + 1 else k;
    var capped := if odd < 21 then odd else 21;
    if capped > 3 then capped else 3
  }

  /** `update_blur_kernel` on the slider's value. */
  function UpdateBlurKernel(value: real): (r: int)
    ensures r % 2 == 1 && 3 <= r <= 21
    ensures RoundHalfEven(value) % 2 == 1 && 3 <= RoundHalfEven(value) <= 21 ==> r == RoundHalfEven(value)
  {
    KernelOf(RoundHalfEven(value))
  }

  /** Settling twice is settling once, and a larger slider value never gives a smaller
      kernel. */
  lemma KernelOfSettles(k: int, k2: int)
    ensures KernelOf(KernelOf(k)) == KernelOf(k)
    ensures UpdateBlurKernel(UpdateBlurKernel(k as real) as real) == UpdateBlurKernel(k as real)
    ensures k <= k2 ==> KernelOf(k) <= KernelOf(k2)
  {
    RoundWhole(k);
    RoundWhole(KernelOf(k));
  }
}
