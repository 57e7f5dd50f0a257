/** Order statistics and moments as pandas computes them over the present values of a
    column: linear-interpolated quantiles, the median, the mean and the sample variance. */
module Stats {
  import opened Seqs
  import opened Sorting

  /** Ascending order of plain reals. */
  predicate Ascending(s: seq<real>)
  {
    SortedBy(s, Identity)
  }

  lemma AscendingAt(s: seq<real>, i: nat, j: nat)
    requires Ascending(s) && i <= j < |s|
    ensures s[i] <= s[j]
  {
    if i < j {
      assert Identity(s[i]) <= Identity(s[j]);
    }
  }

  /** The point a fraction `t` of the way from `x` to `y`. */
  function Lerp(x: real, y: real, t: real): real
  {
    x + t * (y - x)
  }

  lemma LerpBetween(x: real, y: real, t: real)
    requires 0.0 <= t <= 1.0
    ensures x <= y ==> x <= Lerp(x, y, t) <= y
    ensures y <= x ==> y <= Lerp(x, y, t) <= x
  {
    if x <= y {
      MulNonNegative(1.0 - t, y - x);
      MulNonNegative(t, y - x);
    } else {
      MulNonNegative(1.0 - t, x - y);
      MulNonNegative(t, x - y);
    }
  }

  lemma LerpMonotone(x: real, y: real, t1: real, t2: real)
    requires x <= y && t1 <= t2
    ensures Lerp(x, y, t1) <= Lerp(x, y, t2)
  {
    MulNonNegative(t2 - t1, y - x);
  }

  lemma MulNonNegative(a: real, b: real)
    requires a >= 0.0 && b >= 0.0
    ensures a * b >= 0.0
  {
  }

  /** The fractional rank of the `num/den` quantile in a series of `n` values, scaled by
      `den`: its floor is `Rank / den` and its fraction `(Rank % den) / den`. */
  function Rank(n: nat, num: nat): nat
    requires n > 0
  {
    (n - 1) * num
  }

  /** The `num/den` quantile of an ascending series with pandas' default linear rule. */
  function Quantile(s: seq<real>, num: nat, den: nat): (q: real)
    requires |s| > 0 && den > 0 && num <= den
    requires Ascending(s)
    ensures s[0] <= q <= s[|s| - 1]
  {
    assert (|s| - 1) * num <= (|s| - 1) * den;
    QuantileAtRank(s, Rank(|s|, num), den)
  }

  /** The value at scaled rank `h`: the result lies the fraction `(h % den) / den` of the
      way from the order statistic at `h / den` to the next one. */
  function QuantileAtRank(s: seq<real>, h: nat, den: nat): (q: real)
    requires |s| > 0 && den > 0 && h <= (|s| - 1) * den
    requires Ascending(s)
    ensures s[0] <= q <= s[|s| - 1]
  {
    var n := |s|;
    var lo := h / den;
    DivLeq(h, n - 1, den);
    AscendingAt(s, 0, lo);
    AscendingAt(s, lo, n - 1);
    if h % den == 0 then s[lo]
    else
      AscendingAt(s, lo, lo + 1);
      AscendingAt(s, lo + 1, n - 1);
      LerpBetween(s[lo], s[lo + 1], Frac(h % den, den));
      Lerp(s[lo], s[lo + 1], Frac(h % den, den))
  }

  /** The fraction `r / den` of a remainder, between 0 and 1. */
  function Frac(r: nat, den: nat): (f: real)
    requires r < den
    ensures 0.0 <= f <= 1.0
  {
    r as real / den as real
  }

  lemma PosMulNonPos(x: int, d: int)
    requires d > 0 && x * d <= 0
    ensures x <= 0
  {
  }

  lemma PosMulNeg(x: int, d: int)
    requires d > 0 && x * d < 0
    ensures x < 0
  {
  }

  lemma DivLeq(h: nat, m: nat, den: nat)
    requires den > 0 && h <= m * den
    ensures h / den <= m
    ensures h % den != 0 ==> h / den < m
  {
    var q := h / den;
    var r := h % den;
    assert h == q * den + r;
    assert (q - m) * den <= -r;
    PosMulNonPos(q - m, den);
    if r != 0 {
      PosMulNeg(q - m, den);
    }
  }

  lemma DivMonotone(x: nat, y: nat, den: nat)
    requires den > 0 && x <= y
    ensures x / den <= y / den
    ensures x / den == y / den ==> x % den <= y % den
  {
    var qx, rx := x / den, x % den;
    var qy, ry := y / den, y % den;
    assert x == qx * den + rx && y == qy * den + ry;
    assert (qx - qy - 1) * den < 0;
    PosMulNeg(qx - qy - 1, den);
  }

  lemma FracMonotone(r1: nat, r2: nat, den: nat)
    requires r1 <= r2 < den
    ensures Frac(r1, den) <= Frac(r2, den)
  {
  }

  /** The quantile sits between the two order statistics around its rank, and equals the
      lower one when the rank is whole. */
  lemma QuantileBracket(s: seq<real>, h: nat, den: nat)
    requires |s| > 0 && den > 0 && h <= (|s| - 1) * den && Ascending(s)
    ensures h / den < |s|
    ensures h % den == 0 ==> QuantileAtRank(s, h, den) == s[h / den]
    ensures h % den != 0 ==>
      h / den + 1 < |s| && QuantileAtRank(s, h, den) == Lerp(s[h / den], s[h / den + 1], Frac(h % den, den))
    ensures s[h / den] <= QuantileAtRank(s, h, den)
    ensures h / den + 1 < |s| ==> QuantileAtRank(s, h, den) <= s[h / den + 1]
  {
    var lo := h / den;
    DivLeq(h, |s| - 1, den);
    if lo + 1 < |s| {
      AscendingAt(s, lo, lo + 1);
    }
    if h % den != 0 {
      LerpBetween(s[lo], s[lo + 1], Frac(h % den, den));
    }
  }

  lemma QuantileAtRankMonotone(s: seq<real>, ha: nat, hb: nat, den: nat)
    requires |s| > 0 && den > 0 && ha <= hb <= (|s| - 1) * den && Ascending(s)
    ensures QuantileAtRank(s, ha, den) <= QuantileAtRank(s, hb, den)
  {
    DivMonotone(ha, hb, den);
    if ha / den < hb / den {
      QuantileAcrossRanks(s, ha, hb, den);
    } else {
      QuantileWithinRank(s, ha, hb, den);
    }
  }

  /** Ranks in different steps: the lower quantile is at most the next order statistic,
      which is at most the higher quantile. */
  lemma QuantileAcrossRanks(s: seq<real>, ha: nat, hb: nat, den: nat)
    requires |s| > 0 && den > 0 && ha <= hb <= (|s| - 1) * den && Ascending(s)
    requires ha / den < hb / den
    ensures QuantileAtRank(s, ha, den) <= QuantileAtRank(s, hb, den)
  {
    var la, lb := ha / den, hb / den;
    QuantileBracket(s, ha, den);
    QuantileBracket(s, hb, den);
    AscendingAt(s, la + 1, lb);
  }

  /** Ranks in the same step: both quantiles interpolate between the same two order
      statistics, the higher one further along. */
  lemma QuantileWithinRank(s: seq<real>, ha: nat, hb: nat, den: nat)
    requires |s| > 0 && den > 0 && ha <= hb <= (|s| - 1) * den && Ascending(s)
    requires ha / den == hb / den && ha % den <= hb % den
    ensures QuantileAtRank(s, ha, den) <= QuantileAtRank(s, hb, den)
  {
    var l, ra, rb := ha / den, ha % den, hb % den;
    QuantileBracket(s, ha, den);
    QuantileBracket(s, hb, den);
    if ra != 0 {
      FracMonotone(ra, rb, den);
      AscendingAt(s, l, l + 1);
      LerpMonotone(s[l], s[l + 1], Frac(ra, den), Frac(rb, den));
    }
  }

  /** Quantiles are monotone in the requested fraction; in particular Q1 <= Q3. */
  lemma QuantileMonotone(s: seq<real>, a: nat, b: nat, den: nat)
    requires |s| > 0 && den > 0 && a <= b <= den && Ascending(s)
    ensures Quantile(s, a, den) <= Quantile(s, b, den)
  {
    var n := |s|;
    assert (n - 1) * a <= (n - 1) * b <= (n - 1) * den;
    QuantileAtRankMonotone(s, Rank(n, a), Rank(n, b), den);
  }

  /** pandas `median()` over the present values: the linear quantile at one half; none
      for an empty series (NaN). */
  function Median(values: seq<real>): (m: real)
    requires |values| > 0
  {
    Quantile(SortBy(values, Identity), 1, 2)
  }

  /** The median lies between the smallest and the largest value. */
  lemma MedianBetween(values: seq<real>)
    requires |values| > 0
    ensures exists i :: 0 <= i < |values| && values[i] <= Median(values)
    ensures exists i :: 0 <= i < |values| && Median(values) <= values[i]
  {
    var s := SortBy(values, Identity);
    SortByMembers(values, Identity);
    assert s[0] in values;
    assert s[|s| - 1] in values;
  }

  /** The median of an odd-length ascending series is its middle value and that of an
      even-length one is the average of the two middle values. */
  lemma MedianOfAscending(s: seq<real>)
    requires |s| > 0 && Ascending(s)
    ensures |s| % 2 == 1 ==> Median(s) == s[|s| / 2]
    ensures |s| % 2 == 0 ==> Median(s) == (s[|s| / 2 - 1] + s[|s| / 2]) / 2.0
  {
    var m := |s| / 2;
    if |s| % 2 == 1 {
      MedianOdd(s, m);
    } else {
      MedianEven(s, m);
    }
  }

  lemma MedianOdd(s: seq<real>, m: nat)
    requires |s| == 2 * m + 1 && Ascending(s)
    ensures Median(s) == s[m]
  {
    SortSortedIsIdentity(s, Identity);
    var h := Rank(|s|, 1);
    assert h == 2 * m;
    assert h / 2 == m && h % 2 == 0;
    assert Median(s) == Quantile(s, 1, 2) == QuantileAtRank(s, h, 2);
    QuantileBracket(s, h, 2);
  }

  lemma MedianEven(s: seq<real>, m: nat)
    requires |s| == 2 * m && m > 0 && Ascending(s)
    ensures Median(s) == (s[m - 1] + s[m]) / 2.0
  {
    SortSortedIsIdentity(s, Identity);
    var h := Rank(|s|, 1);
    assert h == 2 * m - 1;
    assert h / 2 == m - 1 && h % 2 == 1;
    assert Median(s) == Quantile(s, 1, 2) == QuantileAtRank(s, h, 2);
    QuantileBracket(s, h, 2);
    assert QuantileAtRank(s, h, 2) == Lerp(s[m - 1], s[m], Frac(1, 2));
    LerpHalf(s[m - 1], s[m]);
  }

  lemma LerpHalf(x: real, y: real)
    ensures Lerp(x, y, Frac(1, 2)) == (x + y) / 2.0
  {
    assert Frac(1, 2) == 0.5;
  }

  /** Sum of squared deviations from `m`. */
  function SquaredDeviation(s: seq<real>, m: real): (d: real)
    ensures d >= 0.0
  {
    if |s| == 0 then 0.0
    else
      SquareNonNegative(s[0] - m);
      (s[0] - m) * (s[0] - m) + SquaredDeviation(s[1..], m)
  }

  lemma SquareNonNegative(x: real)
    ensures x * x >= 0.0
  {
    if x < 0.0 {
      assert x * x == (-x) * (-x);
    }
  }

  /** pandas `std()` squared: the sample variance with one degree of freedom removed. */
  function SampleVariance(s: seq<real>): (v: real)
    requires |s| >= 2
    ensures v >= 0.0
  {
    SquaredDeviation(s, Mean(s)) / ((|s| - 1) as real)
  }
}
