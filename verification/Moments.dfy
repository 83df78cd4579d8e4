/** Mean, sample deviation and the "+/- Stdev" share: what the reported numbers
say about the samples. Square roots are avoided by speaking of a non-negative
`sd` with `sd * sd` equal to the variance. */
module Moments {
  import opened Words
  import opened Samples
  import opened Histograms

  function Mean(s: seq<nat>): real
    requires s != []
  {
    SampleSum(s, Value) / |s| as real
  }

  /** Sample variance, with Bessel's correction. */
  function Variance(s: seq<nat>): real
    requires |s| >= 2
  {
    SampleSum(s, SquaredDev(Mean(s))) / (|s| - 1) as real
  }

  /** Number of samples in `lower..upper`. */
  function InBand(s: seq<nat>, lower: real, upper: real): nat {
    if s == [] then 0
    else InBand(Front(s), lower, upper) + (if lower <= Last(s) as real <= upper then 1 else 0)
  }

  function PercentInBand(s: seq<nat>, lower: real, upper: real): real
    requires s != []
  {
    InBand(s, lower, upper) as real / |s| as real * 100.0
  }

  // ---- the scans compute the statistics of the samples --------------------

  /** On a histogram holding `s`, the three scans over the window return the
      mean, the variance and the share of `s` itself. */
  lemma ScansAreStatistics(h: Histogram, s: seq<nat>, k: real, sd: real)
    requires Represents(h, s) && |s| < U64_SIZE && h.max < |h.data|
    ensures s != [] ==> MeanOf(h) == Mean(s)
    ensures |s| >= 2 ==> VarianceOf(h, MeanOf(h)) == Variance(s)
    ensures s != [] ==>
      WithinOf(h, MeanOf(h), sd, k) == PercentInBand(s, Mean(s) - sd * k, Mean(s) + sd * k)
  {
    ExactCounters(h, s);
    if s != [] {
      WindowSumIsSampleSum(h, s, Value);
      WindowSumIsSampleSum(h, s, SquaredDev(Mean(s)));
      WindowSumIsSampleSum(h, s, Band(Mean(s) - sd * k, Mean(s) + sd * k));
      BandCounts(s, Mean(s) - sd * k, Mean(s) + sd * k);
    }
  }

  lemma {:induction false} BandCounts(s: seq<nat>, lower: real, upper: real)
    ensures SampleSum(s, Band(lower, upper)) == InBand(s, lower, upper) as real
    ensures InBand(s, lower, upper) <= |s|
  {
    if s == [] {
    } else {
      BandCounts(Front(s), lower, upper);
    }
  }

  // ---- expanding the square ----------------------------------------------

  lemma {:induction false} DeviationsExpand(s: seq<nat>, c: real)
    ensures SampleSum(s, SquaredDev(c))
         == SampleSum(s, Square) - 2.0 * c * SampleSum(s, Value) + |s| as real * (c * c)
  {
    hide Weight.At;
    if s == [] {
    } else {
      DeviationsExpand(Front(s), c);
      DeviationAt(Last(s), c);
      Distribute(2.0 * c, SampleSum(Front(s), Value), Value.At(Last(s)));
      OneMore(|s| - 1, c * c);
    }
  }

  lemma DeviationAt(i: nat, c: real)
    ensures SquaredDev(c).At(i) == Square.At(i) - 2.0 * c * Value.At(i) + c * c
  {
  }

  lemma Distribute(c: real, a: real, b: real)
    ensures c * (a + b) == c * a + c * b
  {
  }

  lemma {:induction false} SpreadExpands(s: seq<nat>, low: real, high: real)
    ensures SampleSum(s, Spread(low, high))
         == (high + low) * SampleSum(s, Value) - SampleSum(s, Square) - |s| as real * (low * high)
  {
    hide Weight.At;
    if s == [] {
    } else {
      SpreadExpands(Front(s), low, high);
      SpreadAt(Last(s), low, high);
      Distribute(high + low, SampleSum(Front(s), Value), Value.At(Last(s)));
      OneMore(|s| - 1, low * high);
    }
  }

  lemma SpreadAt(i: nat, low: real, high: real)
    ensures Spread(low, high).At(i) == (high + low) * Value.At(i) - Square.At(i) - low * high
    ensures low <= i as real <= high ==> Spread(low, high).At(i) >= 0.0
  {
    if low <= i as real <= high {
      ProductNonNegative(high - i as real, i as real - low);
    }
  }

  lemma ProductNonNegative(a: real, b: real)
    requires a >= 0.0 && b >= 0.0
    ensures a * b >= 0.0
  {
  }

  lemma MeanTimesCount(s: seq<nat>)
    requires s != []
    ensures Mean(s) * |s| as real == SampleSum(s, Value)
  {
  }

  lemma VarianceTimesCount(s: seq<nat>)
    requires |s| >= 2
    ensures (|s| - 1) as real * Variance(s) == SampleSum(s, SquaredDev(Mean(s)))
  {
  }

  lemma DivideThrough(a: real, b: real, n: real)
    requires n > 0.0 && n * a <= b
    ensures a <= b / n
  {
  }

  lemma DivideThroughBelow(a: real, b: real, n: real)
    requires n > 0.0 && b <= n * a
    ensures b / n <= a
  {
  }

  // ---- the theorems -------------------------------------------------------

  lemma SumAtLeast(s: seq<nat>, w: Weight, c: real)
    requires forall x :: x in s ==> c <= w.At(x)
    ensures |s| as real * c <= SampleSum(s, w)
  {
    assert forall x :: x in s ==> Const(c).At(x) <= w.At(x);
    hide *;
    SumMonotone(s, Const(c), w);
    ConstSum(s, c);
  }

  lemma SumAtMost(s: seq<nat>, w: Weight, c: real)
    requires forall x :: x in s ==> w.At(x) <= c
    ensures SampleSum(s, w) <= |s| as real * c
  {
    assert forall x :: x in s ==> w.At(x) <= Const(c).At(x);
    hide *;
    SumMonotone(s, w, Const(c));
    ConstSum(s, c);
  }

  /** The mean lies between the smallest and the largest sample. */
  lemma MeanInRange(s: seq<nat>)
    requires s != []
    ensures MinOf(s) as real <= Mean(s) <= MaxOf(s) as real
  {
    hide MinOf, MaxOf, SampleSum;
    MinOfBounds(s);
    MaxOfBounds(s);
    SumAtLeast(s, Value, MinOf(s) as real);
    SumAtMost(s, Value, MaxOf(s) as real);
    DivideThrough(MinOf(s) as real, SampleSum(s, Value), |s| as real);
    DivideThroughBelow(MaxOf(s) as real, SampleSum(s, Value), |s| as real);
  }

  /** `(count - 1) * variance + count * mean^2` is the sum of the squares. */
  lemma VarianceIdentity(s: seq<nat>)
    requires |s| >= 2
    ensures (|s| - 1) as real * Variance(s) + |s| as real * (Mean(s) * Mean(s)) == SampleSum(s, Square)
  {
    hide *;
    var m, n := Mean(s), |s| as real;
    DeviationsExpand(s, m);
    MeanTimesCount(s);
    VarianceTimesCount(s);
    Regroup(m, n, SampleSum(s, Value));
  }

  lemma Regroup(m: real, n: real, total: real)
    requires m * n == total
    ensures 2.0 * m * total == 2.0 * (n * (m * m))
  {
    assert m * (m * n) == n * (m * m);
  }

  /** The variance is at most `count / (count - 1) * (max - mean) * (mean - min)`. */
  lemma VarianceBound(s: seq<nat>)
    requires |s| >= 2
    ensures (|s| - 1) as real * Variance(s)
         <= |s| as real * ((MaxOf(s) as real - Mean(s)) * (Mean(s) - MinOf(s) as real))
  {
    hide *;
    var m, n, low, high := Mean(s), |s| as real, MinOf(s) as real, MaxOf(s) as real;
    SpreadSum(s);
    SpreadExpands(s, low, high);
    VarianceIdentity(s);
    MeanTimesCount(s);
    SpreadOfMean(m, n, low, high);
    CombineSpread(SampleSum(s, Value), SampleSum(s, Square), m, n, low, high);
  }

  lemma CombineSpread(values: real, squares: real, m: real, n: real, low: real, high: real)
    requires (high + low) * values - squares - n * (low * high) >= 0.0
    requires m * n == values
    ensures squares - n * (m * m) <= n * ((high - m) * (m - low))
  {
    SpreadOfMean(m, n, low, high);
  }

  lemma SpreadSum(s: seq<nat>)
    requires s != []
    ensures SampleSum(s, Spread(MinOf(s) as real, MaxOf(s) as real)) >= 0.0
  {
    var low, high := MinOf(s), MaxOf(s);
    MinOfBounds(s);
    MaxOfBounds(s);
    var w := Spread(low as real, high as real);
    hide *;
    forall x | x in s ensures 0.0 <= w.At(x) {
      SpreadAt(x, low as real, high as real);
    }
    SumAtLeast(s, w, 0.0);
    assert |s| as real * 0.0 == 0.0;
  }

  lemma SpreadOfMean(m: real, n: real, low: real, high: real)
    ensures n * ((high - m) * (m - low)) == (high + low) * (m * n) - n * (low * high) - n * (m * m)
  {
    assert (high - m) * (m - low) == (high + low) * m - low * high - m * m;
  }

  /** Every sample outside a band of half-width `b` adds more than `bb`, its square. */
  lemma {:induction false} OutsideAddsMore(s: seq<nat>, m: real, b: real, bb: real)
    requires b >= 0.0 && bb == b * b
    ensures var out := |s| - InBand(s, m - b, m + b);
      && 0 <= out
      && SampleSum(s, SquaredDev(m)) >= out as real * bb
      && (0 < out ==> SampleSum(s, SquaredDev(m)) > out as real * bb)
  {
    if s == [] {
    } else {
      OutsideAddsMore(Front(s), m, b, bb);
      DeviationOutside(Last(s), m, b);
      var out := |s| - 1 - InBand(Front(s), m - b, m + b);
      assert |Front(s)| == |s| - 1;
      assert SampleSum(s, SquaredDev(m)) == SampleSum(Front(s), SquaredDev(m)) + SquaredDev(m).At(Last(s));
      assert |s| - InBand(s, m - b, m + b) == out + (if m - b <= Last(s) as real <= m + b then 0 else 1);
      hide *;
      OneMore(out, bb);
    }
  }

  lemma SquareMonotone(a: real, b: real)
    requires 0.0 <= a < b
    ensures a * a < b * b
  {
    var d := b - a;
    assert b * b == a * a + 2.0 * (a * d) + d * d;
    assert d * d > 0.0 && a * d >= 0.0;
  }

  lemma DeviationOutside(i: nat, m: real, b: real)
    requires b >= 0.0
    ensures SquaredDev(m).At(i) >= 0.0
    ensures !(m - b <= i as real <= m + b) ==> SquaredDev(m).At(i) > b * b
  {
    var x := i as real;
    if x > m + b {
      SquareMonotone(b, x - m);
    } else if x < m - b {
      SquareMonotone(b, m - x);
      assert (m - x) * (m - x) == (x - m) * (x - m);
    }
  }

  /** Chebyshev: at least `count - (count - 1) / k^2` samples lie within `k`
      standard deviations, and all of them when the deviation is 0. */
  lemma Chebyshev(s: seq<nat>, sd: real, k: real)
    requires |s| >= 2 && sd >= 0.0 && sd * sd == Variance(s) && k > 0.0
    ensures var inside := InBand(s, Mean(s) - sd * k, Mean(s) + sd * k);
      && inside <= |s|
      && (|s| - inside) as real * (k * k) <= (|s| - 1) as real
      && (sd == 0.0 ==> inside == |s|)
  {
    hide *;
    var m, b := Mean(s), sd * k;
    var out := |s| - InBand(s, m - b, m + b);
    ProductNonNegative(sd, k);
    OutsideAddsMore(s, m, b, b * b);
    VarianceTimesCount(s);
    BandSquare(sd, k);
    if sd == 0.0 {
      assert (k * k) * (sd * sd) == 0.0;
      assert out == 0;
    } else {
      assert sd * sd > 0.0;
      FewOutside(out as real, (|s| - 1) as real, SampleSum(s, SquaredDev(m)), sd * sd, k * k);
    }
  }

  lemma BandSquare(sd: real, k: real)
    ensures (sd * k) * (sd * k) == (k * k) * (sd * sd)
  {
  }

  lemma FewOutside(out: real, n: real, sum: real, v: real, kk: real)
    requires v > 0.0 && n * v == sum >= out * (kk * v)
    ensures out * kk <= n
  {
    if out * kk > n {
      ScaleLess(n, out * kk, v);
      Associate(out, kk, v);
    }
  }

  lemma Associate(a: real, b: real, c: real)
    ensures (a * b) * c == a * (b * c)
  {
  }

  /** The "+/- Stdev" column can never report fewer than two samples. */
  lemma TwoWithinOneDeviation(s: seq<nat>, sd: real)
    requires |s| >= 2 && sd >= 0.0 && sd * sd == Variance(s)
    ensures InBand(s, Mean(s) - sd * 1.0, Mean(s) + sd * 1.0) >= 2
  {
    var inside := InBand(s, Mean(s) - sd * 1.0, Mean(s) + sd * 1.0);
    assert sd * 1.0 == sd;
    OutsideAddsMore(s, Mean(s), sd, sd * sd);
    VarianceTimesCount(s);
    if inside < 2 {
      ScaleAtMost((|s| - 1) as real, (|s| - inside) as real, sd * sd);
      assert false;
    }
  }
}
