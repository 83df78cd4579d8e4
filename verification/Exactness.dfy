/** When the figures of a corrected histogram are those of the expanded samples. */
module Exactness {

  import opened Accumulators
  import opened Correction
  import opened Histograms
  import opened Moments
  import opened Samples
  import opened Words

  /** The condition on the buckets: the lowest echo of every non-empty one is in the window. */
  ghost predicate LowestEchoesInWindow(h: Histogram, e: nat)
    requires e > 0
  {
    forall v :: e < v < |h.data| && h.data[v] > 0 ==> h.min <= e + 1 + (v - 1) % e
  }

  lemma ConditionOnBuckets(h: Histogram, s: seq<nat>, e: nat)
    requires Represents(h, s) && |s| < U64_SIZE && e > 0
    ensures EchoesStayAbove(s, e, h.min) <==> LowestEchoesInWindow(h, e)
  {
    NothingWrapped(h, s);
    MinOfBounds(s);
    hide Wrap, LowestEcho;
    forall v | 0 <= v < |h.data|
      ensures v in s <==> h.data[v] > 0
      ensures v > e ==> LowestEcho(v, e) == e + 1 + (v - 1) % e
    {
      CountMember(s, v);
      if v > e {
        EchoesClosedForm(v, e);
      }
    }
    forall x | x in s && x <= e
      ensures h.min <= LowestEcho(x, e)
    {
      SmallIsItself(x, e);
    }
    if EchoesStayAbove(s, e, h.min) {
      forall v | e < v < |h.data| && h.data[v] > 0
        ensures h.min <= e + 1 + (v - 1) % e
      {
        assert v in s;
      }
    }
  }

  lemma SmallIsItself(x: nat, e: nat)
    requires e > 0
    ensures x <= e ==> LowestEcho(x, e) == x
  {
  }

  // ---- the mean -----------------------------------------------------------

  lemma {:induction false} ValuesNonNegative(data: seq<nat>, lo: nat, hi: nat)
    requires lo <= hi <= |data|
    ensures BucketSum(data, Value, lo, hi) >= 0.0
    decreases hi - lo
  {
    if lo == hi {
    } else {
      ValuesNonNegative(data, lo, hi - 1);
      ProductNonNegative(data[hi - 1] as real, Value.At(hi - 1));
    }
  }

  lemma BucketCounts(data: seq<nat>, lo: nat, hi: nat, v: nat)
    requires 0 < v && lo <= v < hi <= |data| && data[v] > 0
    ensures BucketSum(data, Value, lo, hi) > 0.0
  {
    BucketSumSplit(data, Value, lo, v, hi);
    BucketSumSplit(data, Value, v, v + 1, hi);
    ValuesNonNegative(data, lo, v);
    ValuesNonNegative(data, v + 1, hi);
    assert BucketSum(data, Value, v, v + 1) == BucketSum(data, Value, v, v) + data[v] as real * Value.At(v);
    hide BucketSum;
    ScaleLess(0.0, data[v] as real, Value.At(v));
  }

  /** The scan misses what a bucket below the window holds. */
  lemma WindowMisses(h: Histogram, t: seq<nat>, v: nat)
    requires Tallies(h.data, t) && h.min <= h.max < |h.data| && 0 < v < h.min && h.data[v] > 0
    ensures WindowSum(h, Value) < SampleSum(t, Value)
  {
    BucketSumIsSampleSum(h.data, t, Value);
    BucketSumSplit(h.data, Value, 0, h.min, |h.data|);
    BucketSumSplit(h.data, Value, h.min, h.max + 1, |h.data|);
    BucketCounts(h.data, 0, h.min, v);
    ValuesNonNegative(h.data, h.max + 1, |h.data|);
  }

  /** An echo below the window: it is a positive value, and its bucket is not empty. */
  lemma LostEcho(h: Histogram, s: seq<nat>, e: nat) returns (v: nat)
    requires Represents(h, s) && h.max < |h.data| && e > 0 && |EchoAll(s, e)| < U64_SIZE
    requires !EchoesStayAbove(s, e, h.min)
    ensures 0 < v < h.min && v in EchoAll(s, e) && v < |h.data| && Correct(h, e).data[v] > 0
  {
    var x :| x in s && LowestEcho(x, e) < h.min;
    MinOfBounds(s);
    v := LowestEcho(x, e);
    EchoRange(x, e);
    EchoAllHas(s, e, x);
    CorrectCountsEchoes(h, s, e);
    NothingWrapped(Correct(h, e), EchoAll(s, e));
    CountMember(EchoAll(s, e), v);
    SmallIsItself(x, e);
    hide Correct, EchoAll, Wrap;
  }

  lemma Divided(a: real, b: real, n: real)
    requires n > 0.0
    ensures a / n < b / n <==> a < b
    ensures a / n == b / n <==> a == b
  {
  }

  /** The mean of a corrected histogram is that of the expanded samples if and only if no
      echo falls below the recorded minimum; otherwise it is too low. */
  lemma MeanExactIff(h: Histogram, s: seq<nat>, e: nat)
    requires Represents(h, s) && h.max < |h.data| && e > 0
    requires EchoAll(s, e) != [] && |EchoAll(s, e)| < U64_SIZE
    ensures MeanOf(Correct(h, e)) == Mean(EchoAll(s, e)) <==> EchoesStayAbove(s, e, h.min)
    ensures MeanOf(Correct(h, e)) <= Mean(EchoAll(s, e))
  {
    var g, t := Correct(h, e), EchoAll(s, e);
    CorrectIsExactIff(h, s, e);
    CorrectCountsEchoes(h, s, e);
    NothingWrapped(g, t);
    if EchoesStayAbove(s, e, h.min) {
      ScansAreStatistics(g, t, 1.0, 0.0);
    } else {
      var v := LostEcho(h, s, e);
      SomeSample(h, s, e);
      hide Correct, EchoAll, Wrap;
      WindowMisses(g, t, v);
      hide WindowSum;
      Divided(WindowSum(g, Value), SampleSum(t, Value), |t| as real);
    }
  }

  lemma SomeSample(h: Histogram, s: seq<nat>, e: nat)
    requires Represents(h, s) && e > 0 && EchoAll(s, e) != []
    ensures h.min <= h.max && s != []
  {
    MinOfBounds(s);
    MaxOfBounds(s);
    assert Last(s) in s;
  }

  // ---- the percentiles ----------------------------------------------------

  /** What `percentile` returns on `g` is always the order statistic of `t`. */
  ghost predicate PercentilesExact(g: Histogram, t: seq<nat>, sorted: seq<nat>)
    requires g.max < |g.data| && 0 < |t| == |sorted|
  {
    forall p: real, r: nat :: 0.0 <= p < 100.0 && IsFirstReaching(g, Rank(p, g.count), r) ==>
      0 <= Share(p, |t|).Floor < |sorted| && r == sorted[Share(p, |t|).Floor]
  }

  /** A share of exactly `n - 1` of `n`. */
  lemma LastShare(n: nat) returns (p: real)
    requires n > 0
    ensures 0.0 <= p < 100.0 && Share(p, n) == (n - 1) as real
  {
    var q := (n - 1) as real / n as real;
    assert q * n as real == (n - 1) as real;
    BelowOne((n - 1) as real, n as real);
    p := 100.0 * q;
    assert p / 100.0 == q;
  }

  lemma BelowOne(a: real, b: real)
    requires 0.0 <= a < b
    ensures 0.0 <= a / b < 1.0
  {
  }

  lemma LargestIsLast(sorted: seq<nat>, t: seq<nat>, v: nat)
    requires IsSortedCopy(sorted, t) && v in t
    ensures sorted != [] && v <= sorted[|sorted| - 1]
  {
    SameMembers(sorted, t);
    assert v in sorted;
  }

  /** If an echo is lost, the last rank is never reached. */
  lemma LastRankIsLost(h: Histogram, s: seq<nat>, e: nat)
    requires Represents(h, s) && h.max < |h.data| && e > 0
    requires EchoAll(s, e) != [] && |EchoAll(s, e)| < U64_SIZE && !EchoesStayAbove(s, e, h.min)
    ensures Correct(h, e).count == |EchoAll(s, e)|
    ensures IsFirstReaching(Correct(h, e), |EchoAll(s, e)|, 0)
  {
    var g, t := Correct(h, e), EchoAll(s, e);
    CorrectCountsEchoes(h, s, e);
    NothingWrapped(g, t);
    hide *;
    SomeSample(h, s, e);
    ScanSeesAllIff(h, s, e);
    NeverReached(g, t);
  }

  lemma NeverReached(g: Histogram, t: seq<nat>)
    requires Tallies(g.data, t) && g.min <= g.max < |g.data| && WindowTotal(g, g.max) != |t|
    ensures IsFirstReaching(g, |t|, 0)
  {
    HeldAll(g.data, t);
    HeldPart(g.data, g.min, g.max + 1);
    hide Held, Tallies;
    forall i | g.min <= i <= g.max
      ensures WindowTotal(g, i) < |t|
    {
      HeldSplit(g.data, g.min, i + 1, g.max + 1);
    }
  }

  lemma OneRankWrong(g: Histogram, t: seq<nat>, sorted: seq<nat>, p: real)
    requires g.max < |g.data| && 0 < |t| == |sorted| < U64_SIZE && g.count == |t|
    requires 0.0 <= p < 100.0 && Share(p, |t|) == (|t| - 1) as real
    requires IsFirstReaching(g, |t|, 0) && sorted[|t| - 1] > 0
    ensures !PercentilesExact(g, t, sorted)
  {
    hide Share, IsFirstReaching;
    RankIsFloor(p, |t|);
    assert Share(p, |t|).Floor == |t| - 1;
    hide Rank;
    assert IsFirstReaching(g, Rank(p, g.count), 0);
  }

  /** All percentiles below 100 are order statistics of the expanded samples under the
      very same condition. */
  lemma PercentilesExactIff(h: Histogram, s: seq<nat>, e: nat, sorted: seq<nat>)
    requires Represents(h, s) && h.max < |h.data| && e > 0
    requires EchoAll(s, e) != [] && |EchoAll(s, e)| < U64_SIZE
    requires IsSortedCopy(sorted, EchoAll(s, e)) && |sorted| == |EchoAll(s, e)|
    ensures PercentilesExact(Correct(h, e), EchoAll(s, e), sorted) <==> EchoesStayAbove(s, e, h.min)
  {
    var g, t := Correct(h, e), EchoAll(s, e);
    if EchoesStayAbove(s, e, h.min) {
      CorrectIsExactIff(h, s, e);
      hide Represents, Share, Rank, IsFirstReaching, Correct, EchoAll, EchoesStayAbove, IsSortedCopy;
      forall p: real, r: nat | 0.0 <= p < 100.0 && IsFirstReaching(g, Rank(p, g.count), r)
        ensures 0 <= Share(p, |t|).Floor < |sorted| && r == sorted[Share(p, |t|).Floor]
      {
        PercentileIsOrderStatistic(g, t, sorted, p, r);
      }
    } else {
      hide *;
      LastRankIsLost(h, s, e);
      var v := LostEcho(h, s, e);
      LargestIsLast(sorted, t, v);
      var p := LastShare(|t|);
      OneRankWrong(g, t, sorted, p);
    }
  }
}
