/** The scans over `min..=max` as the program computes them: in words that wrap around.
As long as the samples in the buckets can be counted in 64 bits, no accumulator wraps
and the scans compute the sums of `Histograms`. */
module Accumulators {

  import opened Words
  import opened Samples
  import opened Histograms

  function ValueTotal(data: seq<nat>, lo: nat, hi: nat): nat
    requires lo <= hi <= |data|
    decreases hi - lo
  {
    if lo == hi then 0 else ValueTotal(data, lo, hi - 1) + data[hi - 1] * (hi - 1)
  }

  function BandTotal(data: seq<nat>, lower: real, upper: real, lo: nat, hi: nat): nat
    requires lo <= hi <= |data|
    decreases hi - lo
  {
    if lo == hi then 0
    else
      BandTotal(data, lower, upper, lo, hi - 1)
      + (if lower <= (hi - 1) as real <= upper then data[hi - 1] else 0)
  }

  /** The mean, its sum kept in 128 bits. */
  function MeanAsComputed(h: Histogram): real
    requires h.max < |h.data|
  {
    if h.count == 0 then 0.0
    else
      (if h.min > h.max then 0 else ValueTotal(h.data, h.min, h.max + 1) % U128_SIZE) as real / h.count as real
  }

  /** The percentage in a band, its sum kept in 64 bits. */
  function WithinAsComputed(h: Histogram, mean: real, stdev: real, k: real): real
    requires h.max < |h.data|
  {
    if h.count == 0 then 0.0
    else
      (if h.min > h.max then 0
       else Wrap(BandTotal(h.data, mean - stdev * k, mean + stdev * k, h.min, h.max + 1))) as real
      / h.count as real * 100.0
  }

  /** The first bucket at which the running total, kept in 64 bits, is at least `rank`. */
  ghost predicate IsFirstReachingWrapped(h: Histogram, rank: nat, r: nat)
    requires h.max < |h.data|
  {
    || (&& h.min <= r <= h.max
        && Wrap(WindowTotal(h, r)) >= rank
        && forall i :: h.min <= i < r ==> Wrap(WindowTotal(h, i)) < rank)
    || (r == 0 && forall i :: h.min <= i <= h.max ==> Wrap(WindowTotal(h, i)) < rank)
  }

  /** The samples in the buckets can be counted in 64 bits. */
  predicate TotalFits(h: Histogram) {
    Held(h.data, 0, |h.data|) < U64_SIZE
  }

  /** A part of the buckets holds no more than all of them. */
  lemma HeldPart(data: seq<nat>, lo: nat, hi: nat)
    requires lo <= hi <= |data|
    ensures Held(data, lo, hi) <= Held(data, 0, |data|)
  {
    HeldSplit(data, 0, lo, |data|);
    HeldSplit(data, lo, hi, |data|);
  }

  lemma {:induction false} ValueTotalIs(data: seq<nat>, lo: nat, hi: nat)
    requires lo <= hi <= |data| <= MAX_BUCKETS
    ensures ValueTotal(data, lo, hi) as real == BucketSum(data, Value, lo, hi)
    ensures ValueTotal(data, lo, hi) <= Held(data, lo, hi) * MAX_BUCKETS
    decreases hi - lo
  {
    if lo == hi {
    } else {
      ValueTotalIs(data, lo, hi - 1);
      var c, i, held := data[hi - 1], hi - 1, Held(data, lo, hi - 1);
      assert BucketSum(data, Value, lo, hi) == BucketSum(data, Value, lo, hi - 1) + c as real * Value.At(i);
      assert ValueTotal(data, lo, hi) == ValueTotal(data, lo, hi - 1) + c * i;
      assert Held(data, lo, hi) == held + c;
      hide BucketSum, ValueTotal, Held;
      RealProduct(c, i);
      hide Weight.At;
      AtMostBuckets(held, c, i, MAX_BUCKETS);
    }
  }

  lemma RealProduct(c: nat, i: nat)
    ensures (c * i) as real == c as real * Value.At(i)
  {
  }

  lemma AtMostBuckets(held: nat, c: nat, i: nat, buckets: nat)
    requires i < buckets
    ensures held * buckets + c * i <= (held + c) * buckets
  {
    assert c * i <= c * buckets;
  }

  /** The 128-bit accumulator wraps at no bucket of the window. */
  lemma ValueTotalFits(data: seq<nat>, lo: nat, hi: nat)
    requires lo <= hi <= |data| <= MAX_BUCKETS && Held(data, 0, |data|) < U64_SIZE
    ensures ValueTotal(data, lo, hi) < U128_SIZE
  {
    ValueTotalIs(data, lo, hi);
    HeldPart(data, lo, hi);
    hide ValueTotal, Held;
    SmallerSquare(Held(data, lo, hi), MAX_BUCKETS, U64_SIZE);
  }

  lemma SmallerSquare(a: nat, b: nat, m: nat)
    requires a < m && b < m
    ensures a * b < m * m
  {
    assert (m - a) * m > 0;
    assert a * (m - b) >= 0;
    assert m * m - a * b == (m - a) * m + a * (m - b);
  }

  lemma {:induction false} BandTotalIs(data: seq<nat>, lower: real, upper: real, lo: nat, hi: nat)
    requires lo <= hi <= |data|
    ensures BandTotal(data, lower, upper, lo, hi) as real == BucketSum(data, Band(lower, upper), lo, hi)
    ensures BandTotal(data, lower, upper, lo, hi) <= Held(data, lo, hi)
    decreases hi - lo
  {
    if lo == hi {
    } else {
      BandTotalIs(data, lower, upper, lo, hi - 1);
    }
  }

  lemma MeanIsComputed(h: Histogram)
    requires h.Shaped() && TotalFits(h)
    ensures MeanAsComputed(h) == MeanOf(h)
  {
    if h.min <= h.max {
      ValueTotalIs(h.data, h.min, h.max + 1);
      ValueTotalFits(h.data, h.min, h.max + 1);
      hide ValueTotal, BucketSum, Held;
      SmallMod(ValueTotal(h.data, h.min, h.max + 1), U128_SIZE);
    }
  }

  lemma SmallMod(x: nat, size: nat)
    requires x < size
    ensures x % size == x
  {
  }

  lemma WithinIsComputed(h: Histogram, mean: real, stdev: real, k: real)
    requires h.Shaped() && TotalFits(h)
    ensures WithinAsComputed(h, mean, stdev, k) == WithinOf(h, mean, stdev, k)
  {
    var lower, upper := mean - stdev * k, mean + stdev * k;
    if h.min <= h.max {
      BandTotalIs(h.data, lower, upper, h.min, h.max + 1);
      HeldPart(h.data, h.min, h.max + 1);
      hide BandTotal, BucketSum, Held;
      WrapSmall(BandTotal(h.data, lower, upper, h.min, h.max + 1));
    }
  }

  lemma FirstReachingIsComputed(h: Histogram, rank: nat, r: nat)
    requires h.Shaped() && TotalFits(h)
    ensures IsFirstReachingWrapped(h, rank, r) <==> IsFirstReaching(h, rank, r)
  {
    hide Held, Wrap;
    forall i | h.min <= i <= h.max
      ensures Wrap(WindowTotal(h, i)) == WindowTotal(h, i)
    {
      HeldPart(h.data, h.min, i + 1);
      WrapSmall(WindowTotal(h, i));
    }
  }
}
