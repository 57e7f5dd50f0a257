/** The filter bank of `DataProcessor` and the GUI: centred moving average, row-level
    threshold filtering, IQR and z-score outlier removal, and value clipping. */
module Filters {
  import opened Types
  import opened Seqs
  import opened Sorting
  import opened Stats
  import opened Tables
  import opened Interpolation
  import opened Cleaner

  // ================================================================ moving average

  /** pandas' centred window of width `w` at position `i` covers the positions
      `i + o + 1 - w .. i + o` with `o = (w - 1) div 2`. */
  function WindowStart(i: nat, w: nat): int
  {
    i + (w - 1) / 2 + 1 - w
  }

  function WindowEnd(i: nat, w: nat): int
  {
    i + (w - 1) / 2
  }

  /** The whole window lies inside a series of length `n`. */
  predicate FullWindow(n: nat, i: nat, w: nat)
  {
    WindowStart(i, w) >= 0 && WindowEnd(i, w) < n
  }

  /** `rolling(window=w, center=True).mean()` at one position: the mean of the window
      when it lies inside the series and holds no gap, NaN otherwise. */
  function RollingMeanAt(c: seq<Option<real>>, i: nat, w: nat): Option<real>
    requires w >= 1
  {
    if !FullWindow(|c|, i, w) then None
    else
      var win := c[WindowStart(i, w)..WindowEnd(i, w) + 1];
      if forall k :: 0 <= k < |win| ==> win[k].Some? then Some(Sum(Known(win)) / (w as real)) else None
  }

  function RollingMean(c: seq<Option<real>>, w: nat): (r: seq<Option<real>>)
    requires w >= 1
    ensures |r| == |c|
  {
    seq(|c|, i requires 0 <= i < |c| => RollingMeanAt(c, i, w))
  }

  /** `apply_moving_average`: the centred rolling mean, then back-filled and forward-filled
      so that the edges copy the nearest computed mean. */
  function MovingAverage(c: seq<Option<real>>, w: nat): (r: seq<Option<real>>)
    requires w >= 1
    ensures |r| == |c|
  {
    ForwardFill(BackFill(RollingMean(c, w)))
  }

  /** The first and last positions whose window is full. */
  function FirstFull(w: nat): nat
    requires w >= 1
  {
    w - 1 - (w - 1) / 2
  }

  function LastFull(n: nat, w: nat): int
    requires w >= 1
  {
    n - 1 - (w - 1) / 2
  }

  lemma FullWindowRange(n: nat, i: nat, w: nat)
    requires w >= 1
    ensures FullWindow(n, i, w) <==> FirstFull(w) <= i && i <= LastFull(n, w)
    ensures FullWindow(n, i, w) ==> WindowEnd(i, w) + 1 - WindowStart(i, w) == w
  {
  }

  /** On a gap-free series the rolling mean is present exactly at the full-window positions. */
  lemma RollingMeanOfFull(s: seq<real>, w: nat, i: nat)
    requires w >= 1 && i < |s|
    ensures RollingMean(Lift(s), w)[i].Some? <==> FullWindow(|s|, i, w)
    ensures FullWindow(|s|, i, w) ==>
      RollingMean(Lift(s), w)[i] == Some(Sum(s[WindowStart(i, w)..WindowEnd(i, w) + 1]) / (w as real))
  {
    FullWindowRange(|s|, i, w);
    if FullWindow(|s|, i, w) {
      var lo, hi := WindowStart(i, w), WindowEnd(i, w) + 1;
      var win := Lift(s)[lo..hi];
      assert win == Lift(s[lo..hi]);
      KnownOfFull(win);
      assert Known(win) == s[lo..hi];
    }
  }

  /** On a gap-free series with a window no wider than it, the rolling mean is present on
      exactly one block of positions. */
  lemma RollingPresence(s: seq<real>, w: nat)
    requires 1 <= w <= |s|
    ensures forall i :: 0 <= i < |s| ==>
      (RollingMean(Lift(s), w)[i].Some? <==> FirstFull(w) <= i <= LastFull(|s|, w))
  {
    forall i | 0 <= i < |s|
      ensures RollingMean(Lift(s), w)[i].Some? <==> FirstFull(w) <= i <= LastFull(|s|, w)
    {
      RollingMeanOfFull(s, w, i);
      FullWindowRange(|s|, i, w);
    }
  }

  /** For a gap-free series and a window no wider than it, the moving average has a value
      at every position; a position with a full window holds the mean of that window, and
      the positions before the first and after the last full window copy those means. */
  lemma MovingAverageSpec(s: seq<real>, w: nat)
    requires 1 <= w <= |s|
    ensures forall i :: 0 <= i < |s| ==> MovingAverage(Lift(s), w)[i].Some?
    ensures forall i :: 0 <= i < |s| && FullWindow(|s|, i, w) ==>
      MovingAverage(Lift(s), w)[i] == Some(Sum(s[WindowStart(i, w)..WindowEnd(i, w) + 1]) / (w as real))
    ensures forall i :: 0 <= i < FirstFull(w) ==>
      MovingAverage(Lift(s), w)[i] == MovingAverage(Lift(s), w)[FirstFull(w)]
    ensures forall i :: LastFull(|s|, w) < i < |s| ==>
      MovingAverage(Lift(s), w)[i] == MovingAverage(Lift(s), w)[LastFull(|s|, w)]
  {
    var n := |s|;
    var rm := RollingMean(Lift(s), w);
    var f, l := FirstFull(w), LastFull(n, w);
    RollingPresence(s, w);
    FillAroundBlock(rm, f, l);
    var r := MovingAverage(Lift(s), w);
    assert r[f] == rm[f] && r[l] == rm[l];
    forall i | 0 <= i < n
      ensures r[i].Some?
    {
      if i < f {
        assert r[i] == rm[f];
      } else if i > l {
        assert r[i] == rm[l];
      } else {
        assert r[i] == rm[i];
      }
    }
    forall i | 0 <= i < n && FullWindow(n, i, w)
      ensures r[i] == Some(Sum(s[WindowStart(i, w)..WindowEnd(i, w) + 1]) / (w as real))
    {
      FullWindowRange(n, i, w);
      RollingMeanOfFull(s, w, i);
    }
  }

  /** `DataProcessor.apply_moving_average`: works on the cleaned table (cleaning first if
      needed, and keeping that cleaned table) and raises when the column is absent. The
      result is the centred rolling mean of the cleaned column with both edges filled. */
  function ApplyMovingAverage(p: Processor, column: string, w: nat): (o: Outcome<seq<Option<real>>>)
    requires ValidProcessor(p) && w >= 1
    ensures ValidProcessor(o.state) && o.state == EnsureCleaned(p).state
    ensures o.result.Ok? ==>
      o.state.cleaned.Some? && column in o.state.cleaned.value.columns
      && |o.result.value| == |o.state.cleaned.value.rows|
      && o.result.value == MovingAverage(Column(o.state.cleaned.value, IndexOf(o.state.cleaned.value.columns, column).value), w)
    ensures EnsureCleaned(p).result.Ok? && column !in EnsureCleaned(p).result.value.columns ==>
      o.result == Err(ColumnNotFound(column))
    ensures EnsureCleaned(p).result.Err? ==> o.result == Err(EnsureCleaned(p).result.error)
  {
    var c := EnsureCleaned(p);
    match c.result
    case Err(e) => Outcome(c.state, Err(e))
    case Ok(t) =>
      match IndexOf(t.columns, column)
      case None => Outcome(c.state, Err(ColumnNotFound(column)))
      case Some(j) => Outcome(c.state, Ok(MovingAverage(Column(t, j), w)))
  }

  /** On a gap-free cleaned column at least as long as the window (the usual case for a
      tracked column after cleaning), `apply_moving_average` leaves no gap, and every
      position whose window fits holds the mean of the cleaned values in that window. */
  lemma ApplyMovingAverageOfFull(p: Processor, column: string, w: nat)
    requires ValidProcessor(p) && w >= 1
    requires ApplyMovingAverage(p, column, w).result.Ok?
    requires var t := ApplyMovingAverage(p, column, w).state.cleaned.value;
      var c := Column(t, IndexOf(t.columns, column).value);
      w <= |c| && forall i :: 0 <= i < |c| ==> c[i].Some?
    ensures var o := ApplyMovingAverage(p, column, w);
      var t := o.state.cleaned.value;
      var s := Known(Column(t, IndexOf(t.columns, column).value));
      && |s| == |o.result.value|
      && (forall i :: 0 <= i < |s| ==> o.result.value[i].Some?)
      && (forall i :: 0 <= i < |s| && FullWindow(|s|, i, w) ==>
            o.result.value[i] == Some(Sum(s[WindowStart(i, w)..WindowEnd(i, w) + 1]) / (w as real)))
  {
    var o := ApplyMovingAverage(p, column, w);
    var t := o.state.cleaned.value;
    var c := Column(t, IndexOf(t.columns, column).value);
    KnownOfFull(c);
    var s := Known(c);
    assert c == Lift(s);
    MovingAverageSpec(s, w);
  }

  // ================================================================ threshold rows

  /** `series >= bound` as a row mask: an absent bound keeps everything, a missing cell
      (NaN) fails any comparison. */
  predicate AtLeast(c: Option<real>, bound: Option<real>)
  {
    bound.None? || (c.Some? && c.value >= bound.value)
  }

  predicate AtMost(c: Option<real>, bound: Option<real>)
  {
    bound.None? || (c.Some? && c.value <= bound.value)
  }

  function MinMask(j: nat, lo: Option<real>): Row -> bool
  {
    row => AtLeast(Cell(row, j), lo)
  }

  function MaxMask(j: nat, hi: Option<real>): Row -> bool
  {
    row => AtMost(Cell(row, j), hi)
  }

  function WithinMask(j: nat, lo: Option<real>, hi: Option<real>): Row -> bool
  {
    row => AtLeast(Cell(row, j), lo) && AtMost(Cell(row, j), hi)
  }

  /** `apply_threshold_filter` on a table: the rows whose cell in `column` is at least `lo`
      and at most `hi` (an absent bound imposes nothing), in their original order. */
  function ThresholdRows(t: Table, column: string, lo: Option<real>, hi: Option<real>): (r: Result<Table>)
    requires WellFormed(t)
    ensures r.Err? <==> column !in t.columns
    ensures r.Err? ==> r.error == ColumnNotFound(column)
    ensures r.Ok? ==> var j := IndexOf(t.columns, column).value;
      && WellFormed(r.value) && r.value.columns == t.columns
      && r.value.rows == Filter(t.rows, WithinMask(j, lo, hi))
      && IsSubsequence(r.value.rows, t.rows)
      && (forall row :: row in r.value.rows ==> AtLeast(Cell(row, j), lo) && AtMost(Cell(row, j), hi))
      && (forall row :: row in t.rows && AtLeast(Cell(row, j), lo) && AtMost(Cell(row, j), hi) ==> row in r.value.rows)
  {
    match IndexOf(t.columns, column)
    case None => Err(ColumnNotFound(column))
    case Some(j) =>
      var rows := Filter(Filter(t.rows, MinMask(j, lo)), MaxMask(j, hi));
      FilterFusion(t.rows, MinMask(j, lo), MaxMask(j, hi), WithinMask(j, lo, hi));
      FilterIsSubsequence(t.rows, WithinMask(j, lo, hi));
      assert forall row :: row in t.rows ==> |row| == |t.columns|;
      assert forall row :: row in rows ==> row in t.rows;
      Ok(Table(t.columns, rows))
  }

  /** `DataProcessor.apply_threshold_filter`. */
  function ApplyThresholdFilter(p: Processor, column: string, lo: Option<real>, hi: Option<real>): (o: Outcome<Table>)
    requires ValidProcessor(p)
    ensures ValidProcessor(o.state) && o.state == EnsureCleaned(p).state
    ensures EnsureCleaned(p).result.Ok? ==> o.result == ThresholdRows(EnsureCleaned(p).result.value, column, lo, hi)
    ensures EnsureCleaned(p).result.Err? ==> o.result == EnsureCleaned(p).result
  {
    var c := EnsureCleaned(p);
    match c.result
    case Err(e) => Outcome(c.state, Err(e))
    case Ok(t) => Outcome(c.state, ThresholdRows(t, column, lo, hi))
  }

  // ================================================================ outliers

  datatype Bounds = Bounds(lower: real, upper: real)

  /** `[Q1 - k * IQR, Q3 + k * IQR]` over the present values; NaN (none) without any. */
  function IqrBounds(values: seq<real>, k: real): Option<Bounds>
  {
    if |values| == 0 then None
    else
      var s := SortBy(values, Identity);
      Some(Widened(Quantile(s, 1, 4), Quantile(s, 3, 4), k))
  }

  /** `[q1 - k * (q3 - q1), q3 + k * (q3 - q1)]`. */
  function Widened(q1: real, q3: real, k: real): Bounds
  {
    Bounds(q1 - k * (q3 - q1), q3 + k * (q3 - q1))
  }

  lemma Widen(q1: real, q3: real, k: real)
    requires q1 <= q3 && k >= 0.0
    ensures Widened(q1, q3, k).lower <= q1 && q3 <= Widened(q1, q3, k).upper
  {
    MulNonNegative(k, q3 - q1);
  }

  /** With a non-negative factor the IQR bounds contain the quartiles, and therefore the
      median and every value between the quartiles. */
  lemma IqrBoundsContainQuartiles(values: seq<real>, k: real)
    requires |values| > 0 && k >= 0.0
    ensures var b := IqrBounds(values, k).value;
      var s := SortBy(values, Identity);
      b.lower <= Quantile(s, 1, 4) <= Quantile(s, 3, 4) <= b.upper
      && b.lower <= Median(values) <= b.upper
  {
    var s := SortBy(values, Identity);
    var q1, q2, q3 := Quantile(s, 1, 4), Quantile(s, 2, 4), Quantile(s, 3, 4);
    QuantileMonotone(s, 1, 2, 4);
    QuantileMonotone(s, 2, 3, 4);
    Widen(q1, q3, k);
    HalfRankSame(s);
    assert Median(values) == q2;
  }

  /** The median, at rank 1/2, is the quantile at rank 2/4. */
  lemma HalfRankSame(s: seq<real>)
    requires |s| > 0 && Ascending(s)
    ensures Quantile(s, 1, 2) == Quantile(s, 2, 4)
  {
    var h := |s| - 1;
    assert Rank(|s|, 1) == h;
    assert Rank(|s|, 2) == 2 * h;
    assert (2 * h) / 4 == h / 2 && (2 * h) % 4 == 2 * (h % 2);
    if h % 2 == 1 {
      assert Frac(1, 2) == Frac(2, 4);
    }
  }

  /** The z-score rule `|x - mean| / std <= k` without the square root: the sample
      variance must be positive (0/0 and n < 2 give NaN, which fails), the factor must be
      non-negative, and the squared deviation at most k^2 times the variance. */
  predicate ZScoreKeeps(values: seq<real>, k: real, x: real)
  {
    && |values| >= 2
    && SampleVariance(values) > 0.0
    && k >= 0.0
    && (x - Mean(values)) * (x - Mean(values)) <= k * k * SampleVariance(values)
  }

  function ZMask(j: nat, values: seq<real>, k: real): Row -> bool
  {
    row => Cell(row, j).Some? && ZScoreKeeps(values, k, Cell(row, j).value)
  }

  /** With a factor of at least one, a column with spread keeps at least one value: the
      squared deviations average below the variance. */
  lemma ZScoreKeepsSome(values: seq<real>, k: real)
    requires |values| >= 2 && SampleVariance(values) > 0.0 && k >= 1.0
    ensures exists i :: 0 <= i < |values| && ZScoreKeeps(values, k, values[i])
  {
    var i := WithinVariance(values);
    ScaleBySquare(k, SampleVariance(values));
    assert ZScoreKeeps(values, k, values[i]);
  }

  /** Some value deviates from the mean by at most one standard deviation. */
  lemma WithinVariance(values: seq<real>) returns (i: nat)
    requires |values| >= 2
    ensures i < |values|
    ensures (values[i] - Mean(values)) * (values[i] - Mean(values)) <= SampleVariance(values)
  {
    var n := |values|;
    assert (n as real) - 1.0 == (n - 1) as real;
    DeviationBound(SquaredDeviation(values, Mean(values)), SampleVariance(values), n as real);
    i := FindWithin(values, Mean(values), SampleVariance(values));
  }

  /** When the squared deviations sum to at most `|s| * v`, one of them is at most `v`. */
  lemma {:induction false} FindWithin(s: seq<real>, m: real, v: real) returns (i: nat)
    requires |s| > 0 && SquaredDeviation(s, m) <= v * (|s| as real)
    ensures i < |s| && (s[i] - m) * (s[i] - m) <= v
  {
    if (s[0] - m) * (s[0] - m) <= v {
      i := 0;
    } else {
      var n := |s| as real;
      assert v * n == v * (n - 1.0) + v;
      assert |s| > 1;
      var j := FindWithin(s[1..], m, v);
      i := j + 1;
    }
  }

  /** The sum of squared deviations is at most n times the sample variance. */
  lemma DeviationBound(d: real, v: real, n: real)
    requires n > 1.0 && v >= 0.0 && v == d / (n - 1.0)
    ensures d <= v * n
  {
    assert v * (n - 1.0) == d;
    assert v * n == v * (n - 1.0) + v;
  }

  lemma ScaleBySquare(k: real, v: real)
    requires k >= 1.0 && v >= 0.0
    ensures v <= k * k * v
  {
    MulNonNegative(k - 1.0, k + 1.0);
    MulNonNegative(k * k - 1.0, v);
  }

  /** The rows the outlier rule keeps: inside the IQR bounds, passing the z-score rule,
      or none at all when the column holds no value for the IQR rule. */
  function OutlierMask(j: nat, values: seq<real>, strategy: string, k: real): Row -> bool
  {
    if strategy == "zscore" then ZMask(j, values, k)
    else match IqrBounds(values, k)
      case None => (row: Row) => false
      case Some(b) => WithinMask(j, Some(b.lower), Some(b.upper))
  }

  /** `remove_outliers`: "iqr" keeps the rows inside the IQR bounds of the present values,
      "zscore" the rows passing the z-score rule; either raises when the column is absent.
      Any other strategy name removes nothing and does not look at the column. The absent
      column is an unguarded `data[column]` lookup here (a `KeyError`), reported with the
      same `ColumnNotFound` kind as the guarded checks of the other filters. */
  function RemoveOutliers(t: Table, column: string, strategy: string, k: real): (r: Result<Table>)
    requires WellFormed(t)
    ensures strategy != "iqr" && strategy != "zscore" ==> r == Ok(t)
    ensures (strategy == "iqr" || strategy == "zscore") ==> (r.Err? <==> column !in t.columns)
    ensures r.Err? ==> r.error == ColumnNotFound(column)
    ensures r.Ok? ==> WellFormed(r.value) && r.value.columns == t.columns && IsSubsequence(r.value.rows, t.rows)
  {
    if strategy != "iqr" && strategy != "zscore" then
      SubsequenceRefl(t.rows);
      Ok(t)
    else
      match IndexOf(t.columns, column)
      case None => Err(ColumnNotFound(column))
      case Some(j) =>
        Ok(KeepRows(t, OutlierMask(j, Known(Column(t, j)), strategy, k)))
  }

  /** The table restricted to the rows a mask selects (`df[mask]`). */
  function KeepRows(t: Table, mask: Row -> bool): (r: Table)
    requires WellFormed(t)
    ensures WellFormed(r) && r.columns == t.columns && IsSubsequence(r.rows, t.rows)
    ensures r.rows == Filter(t.rows, mask)
  {
    FilterIsSubsequence(t.rows, mask);
    assert forall row :: row in t.rows ==> |row| == |t.columns|;
    Table(t.columns, Filter(t.rows, mask))
  }

  /** The rows IQR removal keeps are exactly those whose value lies inside the bounds,
      inclusive, in order; the number removed is the number outside. A column with no
      present value loses every row. */
  lemma IqrKeepsExactlyInside(t: Table, column: string, k: real)
    requires WellFormed(t) && column in t.columns
    ensures var j := IndexOf(t.columns, column).value;
      var values := Known(Column(t, j));
      var r := RemoveOutliers(t, column, "iqr", k).value;
      && (|values| == 0 ==> r.rows == [])
      && (|values| > 0 ==>
        var inside := WithinMask(j, Some(IqrBounds(values, k).value.lower), Some(IqrBounds(values, k).value.upper));
        && r.rows == Filter(t.rows, inside)
        && |t.rows| - |r.rows| == |Filter(t.rows, Not(inside))|)
  {
    var j := IndexOf(t.columns, column).value;
    var values := Known(Column(t, j));
    if |values| > 0 {
      var b := IqrBounds(values, k).value;
      FilterPartition(t.rows, WithinMask(j, Some(b.lower), Some(b.upper)));
    } else {
      NothingPasses(t.rows, OutlierMask(j, values, "iqr", k));
    }
  }

  /** The z-score rule keeps exactly the rows whose value passes it; a column with fewer
      than two values or no spread loses every row. */
  lemma ZScoreKeepsExactlyPassing(t: Table, column: string, k: real)
    requires WellFormed(t) && column in t.columns
    ensures var j := IndexOf(t.columns, column).value;
      var values := Known(Column(t, j));
      var r := RemoveOutliers(t, column, "zscore", k).value;
      && r.rows == Filter(t.rows, ZMask(j, values, k))
      && (forall row :: row in r.rows ==> Cell(row, j).Some? && ZScoreKeeps(values, k, Cell(row, j).value))
      && (|values| < 2 || SampleVariance(values) == 0.0 ==> r.rows == [])
  {
    var j := IndexOf(t.columns, column).value;
    var values := Known(Column(t, j));
    if |values| < 2 || SampleVariance(values) == 0.0 {
      NothingPasses(t.rows, ZMask(j, values, k));
    }
  }

  /** The quartiles of six ascending values: Q1 a quarter of the way from the second to
      the third, Q3 three quarters of the way from the fourth to the fifth. */
  lemma QuartilesOfSix(s: seq<real>)
    requires |s| == 6 && Ascending(s)
    ensures Quantile(s, 1, 4) == Lerp(s[1], s[2], 0.25)
    ensures Quantile(s, 3, 4) == Lerp(s[3], s[4], 0.75)
  {
    assert Rank(6, 1) == 5 && 5 / 4 == 1 && 5 % 4 == 1;
    assert Rank(6, 3) == 15 && 15 / 4 == 3 && 15 % 4 == 3;
    assert Frac(1, 4) == 0.25 && Frac(3, 4) == 0.75;
  }

  /** The bounds of the scenario `[1, 2, 3, 4, 5, 100]` with k = 1.5: Q1 = 2.25 and
      Q3 = 4.75, so the bounds are [-1.5, 8.5]. */
  lemma IqrExampleBounds(values: seq<real>)
    requires |values| == 6
    requires values[0] == 1.0 && values[1] == 2.0 && values[2] == 3.0
    requires values[3] == 4.0 && values[4] == 5.0 && values[5] == 100.0
    ensures IqrBounds(values, 1.5) == Some(Bounds(-1.5, 8.5))
  {
    assert Ascending(values);
    SortSortedIsIdentity(values, Identity);
    QuartilesOfSix(values);
    assert Lerp(2.0, 3.0, 0.25) == 2.25;
    assert Lerp(4.0, 5.0, 0.75) == 4.75;
  }

  /** A single-column table holding 1, 2, 3, 4, 5 and 100. */
  predicate ExampleTable(t: Table)
  {
    && t.columns == ["co_gt"] && |t.rows| == 6
    && t.rows[0] == [Some(1.0)] && t.rows[1] == [Some(2.0)] && t.rows[2] == [Some(3.0)]
    && t.rows[3] == [Some(4.0)] && t.rows[4] == [Some(5.0)] && t.rows[5] == [Some(100.0)]
  }

  /** In that scenario only the row holding 100 is removed. */
  lemma IqrExample(t: Table)
    requires ExampleTable(t)
    ensures RemoveOutliers(t, "co_gt", "iqr", 1.5) == Ok(Table(t.columns, t.rows[..5]))
  {
    var mask := WithinMask(0, Some(-1.5), Some(8.5));
    IqrExampleMask(t);
    IqrExampleKeeps(t);
    assert KeepRows(t, mask).rows == t.rows[..5];
  }

  lemma IqrExampleMask(t: Table)
    requires ExampleTable(t)
    ensures WellFormed(t)
    ensures RemoveOutliers(t, "co_gt", "iqr", 1.5) == Ok(KeepRows(t, WithinMask(0, Some(-1.5), Some(8.5))))
  {
    assert IndexOf(t.columns, "co_gt") == Some(0);
    var c := Column(t, 0);
    KnownOfFull(c);
    IqrExampleBounds(Known(c));
  }

  lemma IqrExampleKeeps(t: Table)
    requires ExampleTable(t)
    ensures Filter(t.rows, WithinMask(0, Some(-1.5), Some(8.5))) == t.rows[..5]
  {
    var mask := WithinMask(0, Some(-1.5), Some(8.5));
    var kept := t.rows[..5];
    assert t.rows == kept + [t.rows[5]];
    forall i | 0 <= i < |kept|
      ensures mask(kept[i])
    {
      assert kept[i] == t.rows[i];
    }
    FilterKeepsAll(kept, mask);
    var last := [t.rows[5]];
    assert !mask(last[0]);
    assert Filter(last[1..], mask) == [];
    FilterConcat(kept, last, mask);
  }

  /** `DataProcessor.remove_outliers`. */
  function ApplyRemoveOutliers(p: Processor, column: string, strategy: string, k: real): (o: Outcome<Table>)
    requires ValidProcessor(p)
    ensures ValidProcessor(o.state) && o.state == EnsureCleaned(p).state
    ensures EnsureCleaned(p).result.Ok? ==>
      o.result == RemoveOutliers(EnsureCleaned(p).result.value, column, strategy, k)
    ensures EnsureCleaned(p).result.Err? ==> o.result == EnsureCleaned(p).result
  {
    var c := EnsureCleaned(p);
    match c.result
    case Err(e) => Outcome(c.state, Err(e))
    case Ok(t) => Outcome(c.state, RemoveOutliers(t, column, strategy, k))
  }

  // ================================================================ clip

  /** numpy `clip(x, lo, hi)`: `min(max(x, lo), hi)`. */
  function ClipValue(x: real, lo: real, hi: real): real
  {
    var y := if x < lo then lo else x;
    if y > hi then hi else y
  }

  /** Element-wise clipping of a series to `[lo, hi]`. */
  function Clip(s: seq<real>, lo: real, hi: real): (r: seq<real>)
    requires lo <= hi
    ensures |r| == |s|
    ensures forall i :: 0 <= i < |s| ==> lo <= r[i] <= hi
    ensures forall i :: 0 <= i < |s| && lo <= s[i] <= hi ==> r[i] == s[i]
    ensures forall i :: 0 <= i < |s| && s[i] < lo ==> r[i] == lo
    ensures forall i :: 0 <= i < |s| && s[i] > hi ==> r[i] == hi
  {
    seq(|s|, i requires 0 <= i < |s| => ClipValue(s[i], lo, hi))
  }

  /** Clipping twice is clipping once, and clipping keeps the order of values. */
  lemma ClipIdempotentMonotone(s: seq<real>, lo: real, hi: real)
    requires lo <= hi
    ensures Clip(Clip(s, lo, hi), lo, hi) == Clip(s, lo, hi)
    ensures forall i, j :: 0 <= i < |s| && 0 <= j < |s| && s[i] <= s[j] ==>
      Clip(s, lo, hi)[i] <= Clip(s, lo, hi)[j]
  {
  }
}
