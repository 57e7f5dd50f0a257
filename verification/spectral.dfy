/** The bookkeeping of `SpectralAnalyzer` around the FFT and the power spectrum: which
    bins are kept and how they are scaled, the choice of dominant frequencies, the Welch
    segment rule, the capped replace-on-store, and the reading of a frequency as a cycle.
    Transform magnitudes and power values are inputs. */
module Spectral {
  import opened Types
  import opened Seqs
  import opened Sorting
  import opened Tables

  // ================================================================ frequency bins

  /** How many of numpy's `fftfreq(n)` bins are non-negative: `(n - 1) div 2 + 1`. */
  function NonNegativeBins(n: nat): nat
  {
    (n - 1) / 2 + 1
  }

  /** numpy `fftfreq(n, d=1)`: `0, 1/n, ..., ((n-1) div 2)/n` followed by
      `-(n div 2)/n, ..., -1/n`. */
  function FullFreqs(n: nat): (f: seq<real>)
    requires n > 0
    ensures |f| == n
  {
    seq(n, k requires 0 <= k < n =>
      if k < NonNegativeBins(n) then k as real / n as real else (k - n) as real / n as real)
  }

  /** The frequencies `k/n` for `k = 0 .. (n-1) div 2`. */
  function FftFrequencies(n: nat): (f: seq<real>)
    requires n > 0
    ensures |f| == NonNegativeBins(n)
  {
    seq(NonNegativeBins(n), k requires 0 <= k < NonNegativeBins(n) => k as real / n as real)
  }

  predicate NonNegative(x: real)
  {
    x >= 0.0
  }

  /** The `frequencies >= 0` mask keeps exactly the leading `(n-1) div 2 + 1` bins. */
  lemma NonNegativeMaskKeepsLeadingBins(n: nat)
    requires n > 0
    ensures Filter(FullFreqs(n), NonNegative) == FftFrequencies(n)
  {
    var f := FullFreqs(n);
    var m := NonNegativeBins(n);
    var lead, tail := f[..m], f[m..];
    assert f == lead + tail;
    LeadingBins(n);
    TrailingBinsNegative(n);
    FilterConcat(lead, tail, NonNegative);
    FilterKeepsAll(lead, NonNegative);
    NothingPasses(tail, NonNegative);
  }

  lemma LeadingBins(n: nat)
    requires n > 0
    ensures FullFreqs(n)[..NonNegativeBins(n)] == FftFrequencies(n)
    ensures forall k :: 0 <= k < NonNegativeBins(n) ==> NonNegative(FftFrequencies(n)[k])
  {
  }

  lemma TrailingBinsNegative(n: nat)
    requires n > 0
    ensures forall k :: 0 <= k < |FullFreqs(n)[NonNegativeBins(n)..]| ==> !NonNegative(FullFreqs(n)[NonNegativeBins(n)..][k])
  {
    var f := FullFreqs(n);
    var m := NonNegativeBins(n);
    forall k | 0 <= k < |f[m..]|
      ensures !NonNegative(f[m..][k])
    {
      assert f[m..][k] == f[m + k] == (m + k - n) as real / n as real;
      NegativeOverPositive(m + k - n, n);
    }
  }

  lemma NegativeOverPositive(a: int, n: nat)
    requires a < 0 && n > 0
    ensures a as real / n as real < 0.0
  {
  }

  /** The kept frequencies start at zero, rise strictly and stay below one half. */
  lemma FftFrequenciesSpec(n: nat)
    requires n > 0
    ensures FftFrequencies(n)[0] == 0.0
    ensures forall a, b :: 0 <= a < b < |FftFrequencies(n)| ==> FftFrequencies(n)[a] < FftFrequencies(n)[b]
    ensures forall a :: 0 <= a < |FftFrequencies(n)| ==> 0.0 <= FftFrequencies(n)[a] < 0.5
  {
    var f := FftFrequencies(n);
    forall a | 0 <= a < |f|
      ensures f[a] < 0.5
    {
      assert 2 * a < n;
      BelowHalf(a, n);
    }
    forall a, b | 0 <= a < b < |f|
      ensures f[a] < f[b]
    {
      DivStrict(a, b, n);
    }
  }

  lemma BelowHalf(a: nat, n: nat)
    requires 2 * a < n
    ensures a as real / n as real < 0.5
  {
    var x, y := a as real, n as real;
    var q := x / y;
    assert q * y == x;
    PositiveFactor(0.5 - q, y);
  }

  lemma PositiveFactor(a: real, y: real)
    requires y > 0.0 && a * y > 0.0
    ensures a > 0.0
  {
  }

  lemma DivStrict(a: nat, b: nat, n: nat)
    requires a < b && n > 0
    ensures a as real / n as real < b as real / n as real
  {
  }

  // ================================================================ apply_fft

  /** One retained bin: its frequency and its amplitude. */
  datatype Bin = Bin(freq: real, amp: real)

  /** The signal minus its mean. */
  function Demean(s: seq<real>): (r: seq<real>)
    requires |s| > 0
    ensures |r| == |s|
    ensures forall i :: 0 <= i < |s| ==> r[i] == s[i] - Mean(s)
  {
    Shift(s, Mean(s))
  }

  function Shift(s: seq<real>, c: real): (r: seq<real>)
    ensures |r| == |s|
    ensures forall i :: 0 <= i < |s| ==> r[i] == s[i] - c
  {
    seq(|s|, i requires 0 <= i < |s| => s[i] - c)
  }

  lemma {:induction false} SumShift(s: seq<real>, c: real)
    ensures Sum(Shift(s, c)) == Sum(s) - (|s| as real) * c
  {
    if |s| > 0 {
      SumShift(s[1..], c);
      assert Shift(s, c)[1..] == Shift(s[1..], c);
    }
  }

  /** De-meaning leaves a signal that sums to zero: the zero-frequency bin carries no
      energy. */
  lemma DemeanSumsToZero(s: seq<real>)
    requires |s| > 0
    ensures Sum(Demean(s)) == 0.0
  {
    SumShift(s, Mean(s));
    var n := |s| as real;
    assert n * (Sum(s) / n) == Sum(s);
  }

  /** `apply_fft`: the column must exist and hold at least one value (an empty transform
      raises). The present values are de-meaned and transformed; `magnitudes` gives
      `|X[k]|` for every bin of the transform. The non-negative bins are kept, each with
      amplitude `2 |X[k]| / n`. */
  function ApplyFft(t: Table, column: string, magnitudes: seq<real> -> seq<real>): (r: Result<seq<Bin>>)
    requires WellFormed(t)
    requires forall s: seq<real> :: |magnitudes(s)| == |s|
    ensures r.Err? <==> column !in t.columns || |Known(Column(t, IndexOf(t.columns, column).value))| == 0
    ensures column !in t.columns ==> r == Err(ColumnNotFound(column))
    ensures r.Ok? ==>
      var signal := Known(Column(t, IndexOf(t.columns, column).value));
      var n := |signal|;
      var mag := magnitudes(Demean(signal));
      && |r.value| == NonNegativeBins(n)
      && forall k :: 0 <= k < |r.value| ==>
        r.value[k] == Bin(k as real / n as real, 2.0 * mag[k] / n as real)
  {
    match IndexOf(t.columns, column)
    case None => Err(ColumnNotFound(column))
    case Some(j) =>
      var signal := Known(Column(t, j));
      if |signal| == 0 then Err(EmptySignal)
      else Ok(FftBins(signal, magnitudes(Demean(signal))))
  }

  /** The retained bins of a transform of `|signal|` points with magnitudes `mag`. */
  function FftBins(signal: seq<real>, mag: seq<real>): (r: seq<Bin>)
    requires |signal| > 0 && |mag| == |signal|
    ensures |r| == NonNegativeBins(|signal|)
    ensures forall k :: 0 <= k < |r| ==> r[k].freq == FftFrequencies(|signal|)[k]
    ensures forall k :: 0 <= k < |r| ==> r[k].amp == 2.0 * mag[k] / |signal| as real
  {
    var n := |signal|;
    seq(NonNegativeBins(n), k requires 0 <= k < NonNegativeBins(n) =>
      Bin(k as real / n as real, 2.0 * mag[k] / n as real))
  }

  // ================================================================ dominant frequencies

  predicate Positive(b: Bin)
  {
    b.freq > 0.0
  }

  function Amp(b: Bin): real
  {
    b.amp
  }

  /** A reported peak: frequency, amplitude and the period in hours and in days. */
  datatype Peak = Peak(freq: real, amp: real, hours: real, days: real)

  /** A peak's period in hours is the reciprocal of its frequency (one sample per hour),
      and its period in days a 24th of that. */
  predicate HasPeriod(pk: Peak)
  {
    pk.hours * pk.freq == 1.0 && pk.days * 24.0 == pk.hours
  }

  /** The period of a positive frequency, sampled once per hour. */
  function PeakOf(b: Bin): (p: Peak)
    requires b.freq > 0.0
    ensures p.freq == b.freq && p.amp == b.amp
    ensures p.hours * p.freq == 1.0 && p.days * 24.0 == p.hours
  {
    Peak(b.freq, b.amp, 1.0 / b.freq, (1.0 / b.freq) / 24.0)
  }

  /** The bins `argsort(amplitudes)[-p:][::-1]` picks among the positive bins: the top `p`
      by amplitude, largest first. numpy's slice rules make `p = 0` pick every bin and a
      negative `p` drop the `|p|` smallest. */
  function TopBins(bins: seq<Bin>, p: int): (r: seq<Bin>)
    ensures |r| == |bins| - SliceBound(|bins|, -p)
  {
    Reverse(SliceFrom(SortBy(bins, Amp), -p))
  }

  /** The bins `TopBins` leaves out. */
  function LeftOutBins(bins: seq<Bin>, p: int): seq<Bin>
  {
    var s := SortBy(bins, Amp);
    s[..SliceBound(|s|, -p)]
  }

  /** The picked bins come largest first. */
  lemma TopBinsOrdered(bins: seq<Bin>, p: int)
    ensures forall a, b :: 0 <= a < b < |TopBins(bins, p)| ==> TopBins(bins, p)[a].amp >= TopBins(bins, p)[b].amp
  {
    var s := SortBy(bins, Amp);
    var m := SliceBound(|s|, -p);
    assert TopBins(bins, p) == Reverse(s[m..]);
    SortedSuffixReversed(s, m, Amp);
  }

  /** Together with the bins left out, the picked bins rearrange the input. */
  lemma TopBinsPartition(bins: seq<Bin>, p: int)
    ensures multiset(bins) == multiset(TopBins(bins, p)) + multiset(LeftOutBins(bins, p))
  {
    var s := SortBy(bins, Amp);
    var m := SliceBound(|s|, -p);
    assert s == s[..m] + s[m..];
    ReverseMultiset(s[m..]);
  }

  /** Every bin left out has an amplitude no larger than any picked one. */
  lemma TopBinsAreTop(bins: seq<Bin>, p: int)
    ensures forall a, b :: 0 <= a < |TopBins(bins, p)| && 0 <= b < |LeftOutBins(bins, p)| ==>
      LeftOutBins(bins, p)[b].amp <= TopBins(bins, p)[a].amp
  {
    var s := SortBy(bins, Amp);
    var m := SliceBound(|s|, -p);
    var r, rest := TopBins(bins, p), LeftOutBins(bins, p);
    forall a, b | 0 <= a < |r| && 0 <= b < |rest|
      ensures rest[b].amp <= r[a].amp
    {
      var i := |s| - 1 - a;
      assert r[a] == s[i] && rest[b] == s[b];
      assert Amp(s[b]) <= Amp(s[i]);
    }
  }

  /** Every picked bin is one of the input bins. */
  lemma TopBinsMembers(bins: seq<Bin>, p: int)
    ensures forall a :: 0 <= a < |TopBins(bins, p)| ==> TopBins(bins, p)[a] in bins
  {
    TopBinsPartition(bins, p);
    var r := TopBins(bins, p);
    forall a | 0 <= a < |r|
      ensures r[a] in bins
    {
      assert r[a] in multiset(r);
      assert r[a] in multiset(bins);
    }
  }

  /** The picked positive bins are positive input bins. */
  lemma TopPositive(bins: seq<Bin>, p: int)
    ensures forall a :: 0 <= a < |TopBins(Filter(bins, Positive), p)| ==>
      TopBins(Filter(bins, Positive), p)[a].freq > 0.0 && TopBins(Filter(bins, Positive), p)[a] in bins
  {
    var pos := Filter(bins, Positive);
    TopBinsMembers(pos, p);
    var top := TopBins(pos, p);
    forall a | 0 <= a < |top|
      ensures top[a].freq > 0.0 && top[a] in bins
    {
      assert top[a] in pos;
      assert Positive(top[a]);
    }
  }

  /** `find_dominant_frequencies` on the retained bins: the zero bin (and any other
      non-positive one) is excluded, then the top `p` are reported with their periods. */
  function FindDominant(bins: seq<Bin>, p: int): (r: seq<Peak>)
    ensures |r| == |TopBins(Filter(bins, Positive), p)|
  {
    TopPositive(bins, p);
    PeaksOf(TopBins(Filter(bins, Positive), p))
  }

  /** Each of the given positive bins with its period. */
  function PeaksOf(top: seq<Bin>): (r: seq<Peak>)
    requires forall a :: 0 <= a < |top| ==> top[a].freq > 0.0
    ensures |r| == |top|
    ensures forall a :: 0 <= a < |r| ==> r[a].freq == top[a].freq && r[a].amp == top[a].amp && HasPeriod(r[a])
  {
    seq(|top|, a requires 0 <= a < |top| => PeakOf(top[a]))
  }

  /** At most `p` peaks: all positive bins when `p` is at least their number, and
      exactly `p` otherwise (for `p >= 1`). */
  lemma FindDominantCount(bins: seq<Bin>, p: int)
    ensures var r := FindDominant(bins, p);
      && |r| <= |Filter(bins, Positive)|
      && (p >= 1 ==> |r| == Min(p, |Filter(bins, Positive)|))
  {
  }

  /** Each peak is at a positive frequency and carries its period in hours and days. */
  lemma FindDominantPeriods(bins: seq<Bin>, p: int)
    ensures var r := FindDominant(bins, p);
      forall a :: 0 <= a < |r| ==> r[a].freq > 0.0 && HasPeriod(r[a])
  {
    var top := TopBins(Filter(bins, Positive), p);
    TopPositive(bins, p);
    assert FindDominant(bins, p) == PeaksOf(top);
  }

  /** Each peak is one of the input bins. */
  lemma FindDominantMembers(bins: seq<Bin>, p: int)
    ensures var r := FindDominant(bins, p);
      forall a :: 0 <= a < |r| ==> Bin(r[a].freq, r[a].amp) in bins
  {
    var top := TopBins(Filter(bins, Positive), p);
    TopPositive(bins, p);
    PeaksOfMembers(top, bins);
    assert FindDominant(bins, p) == PeaksOf(top);
  }

  lemma PeaksOfMembers(top: seq<Bin>, bins: seq<Bin>)
    requires forall a :: 0 <= a < |top| ==> top[a].freq > 0.0 && top[a] in bins
    ensures forall a :: 0 <= a < |PeaksOf(top)| ==> Bin(PeaksOf(top)[a].freq, PeaksOf(top)[a].amp) in bins
  {
    var r := PeaksOf(top);
    forall a | 0 <= a < |r|
      ensures Bin(r[a].freq, r[a].amp) in bins
    {
      assert Bin(r[a].freq, r[a].amp) == top[a];
    }
  }

  /** The peaks come largest amplitude first. */
  lemma FindDominantOrdered(bins: seq<Bin>, p: int)
    ensures var r := FindDominant(bins, p);
      forall a, b :: 0 <= a < b < |r| ==> r[a].amp >= r[b].amp
  {
    var pos := Filter(bins, Positive);
    var top := TopBins(pos, p);
    var r := FindDominant(bins, p);
    TopPositive(bins, p);
    TopBinsOrdered(pos, p);
    assert r == PeaksOf(top);
  }

  /** Every positive bin not reported is no larger than every reported one. */
  lemma FindDominantIsTop(bins: seq<Bin>, p: int)
    ensures var r := FindDominant(bins, p);
      var rest := LeftOutBins(Filter(bins, Positive), p);
      forall a, b :: 0 <= a < |r| && 0 <= b < |rest| ==> rest[b].amp <= r[a].amp
  {
    var pos := Filter(bins, Positive);
    TopPositive(bins, p);
    TopBinsAreTop(pos, p);
    var r := FindDominant(bins, p);
    var top := TopBins(pos, p);
    assert r == PeaksOf(top);
    forall a | 0 <= a < |r|
      ensures r[a].amp == top[a].amp
    {
    }
  }

  // ================================================================ power spectrum

  /** The PSD estimator `compute_power_spectrum` selects. */
  datatype PsdMethod = Periodogram | Welch(segment: nat)

  /** `min(256, n div 4)`; scipy refuses a zero segment length. */
  function WelchSegment(n: nat): (r: Result<nat>)
    ensures r.Ok? <==> n >= 4
    ensures r.Ok? ==> r.value == Min(256, n / 4) && 1 <= r.value <= 256 && 4 * r.value <= n
    ensures r.Err? ==> r.error == InvalidSegmentLength
  {
    var seg := Min(256, n / 4);
    if seg == 0 then Err(InvalidSegmentLength) else Ok(seg)
  }

  /** "periodogram" selects the periodogram; any other name Welch's method. */
  function PsdMethodOf(name: string, n: nat): (r: Result<PsdMethod>)
    ensures name == "periodogram" ==> r == Ok(Periodogram)
    ensures name != "periodogram" ==> (r.Ok? <==> n >= 4)
    ensures name != "periodogram" && r.Ok? ==> r.value == Welch(Min(256, n / 4))
  {
    if name == "periodogram" then Ok(Periodogram)
    else match WelchSegment(n)
      case Err(e) => Err(e)
      case Ok(seg) => Ok(Welch(seg))
  }

  // ================================================================ storing

  /** One stored spectral result: the variable, its dominant frequency and the first
      frequencies and power values of its spectrum. */
  datatype SpectralRow = SpectralRow(variable: string, dominant: real, freqs: seq<real>, power: seq<real>)

  function AboutVariable(column: string): SpectralRow -> bool
  {
    (row: SpectralRow) => row.variable == column
  }

  function NotAboutVariable(column: string): SpectralRow -> bool
  {
    (row: SpectralRow) => row.variable != column
  }

  /** The stored spectrum is capped at 100 values. */
  const SpectrumCap: nat := 100

  /** `store_spectral_results` on the results table: the dominant frequency is the top
      peak (none when no bin is positive, where the lookup of the first peak raises);
      the variable's rows are replaced by one row holding the first 100 frequencies and
      power values. */
  function StoreSpectral(rows: seq<SpectralRow>, column: string, freqs: seq<real>, power: seq<real>, bins: seq<Bin>): (r: Result<seq<SpectralRow>>)
    ensures r.Err? <==> |Filter(bins, Positive)| == 0
    ensures r.Err? ==> r.error == NoPositiveFrequency
    ensures r.Ok? ==> Filter(r.value, NotAboutVariable(column)) == Filter(rows, NotAboutVariable(column))
    ensures r.Ok? ==> |Filter(r.value, AboutVariable(column))| == 1
    ensures r.Ok? ==> var row := Filter(r.value, AboutVariable(column))[0];
      && row.dominant == FindDominant(bins, 1)[0].freq
      && |row.freqs| == Min(SpectrumCap, |freqs|) && row.freqs == freqs[..|row.freqs|]
      && |row.power| == Min(SpectrumCap, |power|) && row.power == power[..|row.power|]
  {
    var dominant := FindDominant(bins, 1);
    if |dominant| == 0 then Err(NoPositiveFrequency)
    else
      var added := [SpectralRow(column, dominant[0].freq, SliceTo(freqs, SpectrumCap), SliceTo(power, SpectrumCap))];
      ReplaceSelected(rows, added, NotAboutVariable(column), AboutVariable(column));
      Ok(Filter(rows, NotAboutVariable(column)) + added)
  }

  // ================================================================ interpretation

  /** How `interpret_frequency` reads a frequency. */
  datatype Cycle = Constant | Daily | SemiDaily | Weekly | LongTerm(days: real) | Other(hours: real)

  function AbsReal(x: real): real
  {
    if x < 0.0 then -x else x
  }

  /** Non-positive frequencies are the constant component; otherwise the period
      `p = 1/f` hours is tested against the daily (24 ± 2), semi-daily (12 ± 1) and weekly
      (168 ± 10) bands, then against the long-term threshold of 500 hours. */
  function InterpretFrequency(f: real): (c: Cycle)
    ensures c == Constant <==> f <= 0.0
    ensures c == Daily <==> f > 0.0 && AbsReal(1.0 / f - 24.0) < 2.0
    ensures c == SemiDaily <==> f > 0.0 && AbsReal(1.0 / f - 12.0) < 1.0
    ensures c == Weekly <==> f > 0.0 && AbsReal(1.0 / f - 168.0) < 10.0
    ensures c.LongTerm? <==> f > 0.0 && 1.0 / f > 500.0
    ensures c.LongTerm? ==> c.days == (1.0 / f) / 24.0
    ensures c.Other? ==> f > 0.0 && c.hours == 1.0 / f
  {
    if f <= 0.0 then Constant
    else
      var p := 1.0 / f;
      if AbsReal(p - 24.0) < 2.0 then Daily
      else if AbsReal(p - 12.0) < 1.0 then SemiDaily
      else if AbsReal(p - 168.0) < 10.0 then Weekly
      else if p > 500.0 then LongTerm(p / 24.0)
      else Other(p)
  }

  /** The daily, half-daily and weekly cycles are recognised. */
  lemma InterpretFrequencyExamples()
    ensures InterpretFrequency(1.0 / 24.0) == Daily
    ensures InterpretFrequency(1.0 / 12.0) == SemiDaily
    ensures InterpretFrequency(1.0 / 168.0) == Weekly
    ensures InterpretFrequency(0.0) == Constant
  {
  }
}
