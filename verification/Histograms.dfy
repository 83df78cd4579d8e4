/** The direct-addressed histogram as a value, and what it means for it to hold
a list of samples. Every operation of `Stats` is proved against the functions
here; the lemmas say what these functions mean for the samples. */
module Histograms {
  import opened Words
  import opened Samples

  datatype Histogram = Histogram(data: seq<nat>, count: nat, min: nat, max: nat) {

    /** Shape of an allocated histogram. The scans over `min..=max` stay inside
        the bucket array exactly because `max` is a bucket. */
    ghost predicate Shaped() {
      && 0 < |data| <= MAX_BUCKETS
      && (forall v :: 0 <= v < |data| ==> data[v] < U64_SIZE)
      && count < U64_SIZE
      && max < |data|
      && min <= U64_MAX
    }
  }

  function Empty(limit: nat): Histogram {
    Histogram(seq(limit, _ => 0), 0, U64_MAX, 0)
  }

  /** One sample, recorded with nobody else around. */
  function Record(h: Histogram, n: nat): Histogram {
    if n >= |h.data| then h
    else Histogram(h.data[n := Add64(h.data[n], 1)], Add64(h.count, 1), Min(h.min, n), Max(h.max, n))
  }

  function RecordAll(h: Histogram, ns: seq<nat>): Histogram {
    if ns == [] then h else Record(RecordAll(h, Front(ns)), Last(ns))
  }

  /** The samples a histogram of `limit` buckets does not refuse. */
  function Accepted(ns: seq<nat>, limit: nat): seq<nat> {
    if ns == [] then []
    else Accepted(Front(ns), limit) + (if Last(ns) < limit then [Last(ns)] else [])
  }

  /** All counters of `h` count the samples `s`, modulo 2^64. */
  ghost predicate CountsWrapped(h: Histogram, s: seq<nat>) {
    && (forall x :: x in s ==> x < |h.data|)
    && (forall v :: 0 <= v < |h.data| ==> h.data[v] == Wrap(Count(s, v)))
    && h.count == Wrap(|s|)
  }

  /** `h` holds exactly the samples `s`: all counters modulo 2^64, both bounds exact. */
  ghost predicate Represents(h: Histogram, s: seq<nat>) {
    && 0 < |h.data| <= MAX_BUCKETS
    && CountsWrapped(h, s)
    && h.min == MinOf(s)
    && h.max == MaxOf(s)
  }

  lemma EmptyRepresents(limit: nat)
    requires 0 < limit <= MAX_BUCKETS
    ensures Represents(Empty(limit), [])
  {
  }

  lemma RecordRepresents(h: Histogram, s: seq<nat>, n: nat)
    requires Represents(h, s) && n < |h.data|
    ensures Represents(Record(h, n), s + [n])
  {
    var h', t := Record(h, n), s + [n];
    assert Front(t) == s && Last(t) == n;
    forall v | 0 <= v < |h.data| ensures h'.data[v] == Wrap(Count(t, v)) {
      WrapSum(Count(s, v), 1);
    }
    WrapSum(|s|, 1);
  }

  /** Recording any calls in sequence leaves the histogram of the accepted ones. */
  lemma {:induction false} RecordAllRepresents(h: Histogram, s: seq<nat>, ns: seq<nat>)
    requires Represents(h, s)
    ensures |RecordAll(h, ns).data| == |h.data|
    ensures Represents(RecordAll(h, ns), s + Accepted(ns, |h.data|))
  {
    if ns == [] {
      assert s + [] == s;
    } else {
      RecordAllRepresents(h, s, Front(ns));
      var t := s + Accepted(Front(ns), |h.data|);
      if Last(ns) < |h.data| {
        RecordRepresents(RecordAll(h, Front(ns)), t, Last(ns));
        assert t + [Last(ns)] == s + Accepted(ns, |h.data|);
      } else {
        assert Accepted(ns, |h.data|) == Accepted(Front(ns), |h.data|);
      }
    }
  }

  lemma {:induction false} RecordAllConcat(h: Histogram, a: seq<nat>, b: seq<nat>)
    ensures RecordAll(RecordAll(h, a), b) == RecordAll(h, a + b)
  {
    hide Record;
    if b == [] {
      assert a + b == a;
    } else {
      assert Front(a + b) == a + Front(b) && Last(a + b) == Last(b);
      RecordAllConcat(h, a, Front(b));
    }
  }

  /** The samples determine the histogram, and their order does not matter. */
  lemma RepresentsUnique(h: Histogram, g: Histogram, s: seq<nat>, t: seq<nat>)
    requires Represents(h, s) && Represents(g, t)
    requires SameSamples(s, t) && |h.data| == |g.data|
    ensures h == g
  {
    BoundsOfSame(s, t);
    SameMembers(s, t);
    forall v | 0 <= v < |h.data| ensures h.data[v] == g.data[v] {
      CountIsMultiplicity(s, v);
      CountIsMultiplicity(t, v);
    }
  }

  lemma RepresentsReordered(h: Histogram, s: seq<nat>, t: seq<nat>)
    requires Represents(h, s) && SameSamples(s, t)
    ensures Represents(h, t)
  {
    BoundsOfSame(s, t);
    SameMembers(s, t);
    forall v | 0 <= v < |h.data| ensures h.data[v] == Wrap(Count(t, v)) {
      CountIsMultiplicity(s, v);
      CountIsMultiplicity(t, v);
    }
  }

  lemma {:induction false} CountAtMost(s: seq<nat>, v: nat)
    ensures Count(s, v) <= |s|
  {
    if s == [] {
    } else {
      CountAtMost(Front(s), v);
    }
  }

  /** Fewer than 2^64 samples: no counter has wrapped. */
  lemma NothingWrapped(h: Histogram, s: seq<nat>)
    requires CountsWrapped(h, s) && |s| < U64_SIZE
    ensures Tallies(h.data, s) && h.count == |s|
    ensures forall v :: 0 <= v < |h.data| ==> h.data[v] < U64_SIZE
  {
    forall v | 0 <= v < |h.data| ensures h.data[v] == Count(s, v) {
      CountAtMost(s, v);
    }
  }

  /** Then every non-empty bucket lies in the window `min..=max`. */
  lemma ExactCounters(h: Histogram, s: seq<nat>)
    requires Represents(h, s) && |s| < U64_SIZE
    ensures Tallies(h.data, s) && h.count == |s| && h.Shaped()
    ensures forall v :: 0 <= v < |h.data| && h.data[v] != 0 ==> h.min <= v <= h.max
    ensures s != [] ==> h.min <= h.max
  {
    NothingWrapped(h, s);
    hide Wrap;
    forall v | 0 <= v < |h.data| ensures v in s <==> h.data[v] != 0 {
      CountMember(s, v);
    }
    MinOfBounds(s);
    MaxOfBounds(s);
    if s != [] {
      assert Last(s) in s;
    }
  }

  // ---- what the scans over min..=max compute ------------------------------

  function WindowSum(h: Histogram, w: Weight): real
    requires h.max < |h.data|
  {
    if h.min > h.max then 0.0 else BucketSum(h.data, w, h.min, h.max + 1)
  }

  function MeanOf(h: Histogram): real
    requires h.max < |h.data|
  {
    if h.count == 0 then 0.0 else WindowSum(h, Value) / h.count as real
  }

  function VarianceOf(h: Histogram, mean: real): real
    requires h.max < |h.data|
  {
    if h.count < 2 then 0.0 else WindowSum(h, SquaredDev(mean)) / (h.count - 1) as real
  }

  /** Percentage of the samples at most `k` times `stdev` away from `mean`. */
  function WithinOf(h: Histogram, mean: real, stdev: real, k: real): real
    requires h.max < |h.data|
  {
    if h.count == 0 then 0.0
    else WindowSum(h, Band(mean - stdev * k, mean + stdev * k)) / h.count as real * 100.0
  }

  /** If the buckets tally the samples and no sample lies outside the window,
      scanning the window sums over all samples. */
  lemma WindowSumIsSampleSum(h: Histogram, s: seq<nat>, w: Weight)
    requires Tallies(h.data, s) && h.min <= h.max < |h.data|
    requires forall v :: 0 <= v < |h.data| && h.data[v] != 0 ==> h.min <= v <= h.max
    ensures WindowSum(h, w) == SampleSum(s, w)
  {
    BucketSumIsSampleSum(h.data, s, w);
    BucketSumSplit(h.data, w, 0, h.min, |h.data|);
    BucketSumSplit(h.data, w, h.min, h.max + 1, |h.data|);
    EmptyBuckets(h.data, w, 0, h.min);
    EmptyBuckets(h.data, w, h.max + 1, |h.data|);
  }

  /** `round_half_away`, for the arguments it is meant for. */
  function RoundHalfAway(x: real): nat {
    RealAsU64(x + 0.5)
  }

  /** The exact, fractional rank of the `p`-th percentile. */
  function Share(p: real, count: nat): real {
    p / 100.0 * count as real
  }

  function Rank(p: real, count: nat): nat {
    RoundHalfAway(Share(p, count) + 0.5)
  }

  /** Number of samples in the window's buckets up to `i`. */
  function WindowTotal(h: Histogram, i: nat): nat
    requires h.min <= i < |h.data|
  {
    Held(h.data, h.min, i + 1)
  }

  /** The contract of the percentile scan: the first bucket of the window at
      which the running total reaches `rank`, or 0 when none does. */
  ghost predicate IsFirstReaching(h: Histogram, rank: nat, r: nat)
    requires h.max < |h.data|
  {
    || (&& h.min <= r <= h.max
        && WindowTotal(h, r) >= rank
        && forall i :: h.min <= i < r ==> WindowTotal(h, i) < rank)
    || (r == 0 && forall i :: h.min <= i <= h.max ==> WindowTotal(h, i) < rank)
  }

  function NonEmpty(data: seq<nat>, lo: nat, hi: nat): nat
    requires lo <= hi <= |data|
    decreases hi - lo
  {
    if lo == hi then 0 else NonEmpty(data, lo, hi - 1) + (if data[hi - 1] > 0 then 1 else 0)
  }

  function PopcountOf(h: Histogram): nat
    requires h.max < |h.data|
  {
    if h.min > h.max then 0 else NonEmpty(h.data, h.min, h.max + 1)
  }

  // ---- percentiles are order statistics -----------------------------------

  lemma ScaleLess(a: real, b: real, c: real)
    requires a < b && c > 0.0
    ensures a * c < b * c
  {
  }

  lemma ScaleAtMost(a: real, b: real, c: real)
    requires a <= b && c >= 0.0
    ensures a * c <= b * c
  {
  }

  lemma ShareBounds(p: real, count: nat)
    requires count > 0
    ensures 0.0 <= p < 100.0 ==> 0.0 <= Share(p, count) < count as real
    ensures p >= 100.0 ==> Share(p, count) >= count as real
    ensures p < 0.0 ==> Share(p, count) < 0.0
  {
    var c := count as real;
    if p >= 100.0 {
      ScaleAtMost(1.0, p / 100.0, c);
    } else if p >= 0.0 {
      ScaleLess(p / 100.0, 1.0, c);
      ScaleAtMost(0.0, p / 100.0, c);
    } else {
      ScaleLess(p / 100.0, 0.0, c);
    }
  }

  /** The rank of a percentile below 100 is `floor(p * count / 100) + 1`; from
      100 on it exceeds the number of samples, unless that is the largest word. */
  lemma RankIsFloor(p: real, count: nat)
    requires 0 < count < U64_SIZE
    ensures 0.0 <= p < 100.0 ==>
      && Rank(p, count) == Share(p, count).Floor + 1
      && Rank(p, count) <= count
    ensures p >= 100.0 ==> Rank(p, count) == count == U64_MAX || Rank(p, count) > count
    ensures p < 0.0 ==> Rank(p, count) == 0
  {
    hide Share;
    ShareBounds(p, count);
    assert (Share(p, count) + 0.5 + 0.5).Floor == Share(p, count).Floor + 1;
  }

  /** `percentile(p)` for every `p`: below 0 the minimum, from 100 on 0 (the rank
      exceeds the total, unless it is saturated), and in between the sample of 0-based index
      `floor(p * count / 100)` in any sorted arrangement of the samples. */
  lemma PercentileIsOrderStatistic(h: Histogram, s: seq<nat>, t: seq<nat>, p: real, r: nat)
    requires Represents(h, s) && 0 < |s| < U64_SIZE && h.max < |h.data|
    requires IsSortedCopy(t, s)
    requires IsFirstReaching(h, Rank(p, h.count), r)
    ensures p < 0.0 ==> r == MinOf(s)
    ensures p >= 100.0 ==> r == if |s| < U64_MAX then 0 else MaxOf(s)
    ensures 0.0 <= p < 100.0 ==>
      && 0 <= Share(p, |s|).Floor < |t|
      && r == t[Share(p, |s|).Floor]
    ensures Share(p, |s|) == p / 100.0 * |s| as real
  {
    assert Share(p, |s|) == p / 100.0 * |s| as real;
    hide Share;
    ShareBounds(p, |s|);
    ExactCounters(h, s);
    SameMembers(t, s);
    WindowTotals(h, s);
    hide Wrap;
    RankIsFloor(p, h.count);
    if 0.0 <= p < 100.0 {
      assert h.min <= r <= h.max && WindowTotal(h, r) >= Rank(p, h.count);
      RankedSample(h, s, t, Rank(p, h.count), r);
    } else if p < 0.0 {
      assert WindowTotal(h, h.min) >= 0;
    } else if |s| == U64_MAX {
      WholeTotalReached(h, s, r);
    }
  }

  /** The whole total is only reached at `max`, whose bucket is not empty. */
  lemma WholeTotalReached(h: Histogram, s: seq<nat>, r: nat)
    requires Represents(h, s) && 0 < |s| < U64_SIZE && h.max < |h.data|
    requires IsFirstReaching(h, |s|, r)
    ensures r == MaxOf(s)
  {
    ExactCounters(h, s);
    WindowTotals(h, s);
    MaxOfBounds(s);
    assert Last(s) in s;
    CountMember(s, h.max);
    hide Wrap;
    hide Represents, Tallies, Count, MaxOf, MinOf;
    assert h.data[h.max] > 0;
    NotBefore(h, r);
  }

  lemma NotBefore(h: Histogram, r: nat)
    requires h.min <= h.max < |h.data| && h.data[h.max] > 0
    requires IsFirstReaching(h, WindowTotal(h, h.max), r)
    ensures r == h.max
  {
    forall i | h.min <= i < h.max
      ensures WindowTotal(h, i) < WindowTotal(h, h.max)
    {
      HeldSplit(h.data, h.min, i + 1, h.max);
    }
  }

  /** Running totals over the window count all samples up to `i`. */
  lemma WindowTotals(h: Histogram, s: seq<nat>)
    requires Represents(h, s) && 0 < |s| < U64_SIZE && h.max < |h.data|
    ensures forall i :: h.min <= i <= h.max ==> WindowTotal(h, i) == Held(h.data, 0, i + 1)
    ensures forall i :: h.min <= i <= h.max ==> WindowTotal(h, i) <= |s|
    ensures h.min <= h.max && WindowTotal(h, h.max) == |s|
    ensures Held(h.data, 0, h.min) == 0
  {
    ExactCounters(h, s);
    HeldAll(h.data, s);
    HeldNone(h.data, 0, h.min);
    HeldNone(h.data, h.max + 1, |h.data|);
    HeldSplit(h.data, 0, h.max + 1, |h.data|);
    forall i | h.min <= i <= h.max
      ensures WindowTotal(h, i) == Held(h.data, 0, i + 1) <= |s|
    {
      HeldSplit(h.data, 0, h.min, i + 1);
      HeldSplit(h.data, 0, i + 1, |h.data|);
    }
  }

  lemma RankedSample(h: Histogram, s: seq<nat>, t: seq<nat>, rank: nat, r: nat)
    requires Represents(h, s) && 0 < |s| < U64_SIZE && h.max < |h.data|
    requires IsSortedCopy(t, s)
    requires h.min <= r <= h.max && 0 < rank <= WindowTotal(h, r)
    requires forall i :: h.min <= i < r ==> WindowTotal(h, i) < rank
    ensures rank <= |t| && t[rank - 1] == r
  {
    ExactCounters(h, s);
    WindowTotals(h, s);
    SpelledIsSortedCopy(h.data, s);
    SortedUnique(t, Spelled(h.data, |h.data|));
    if r > h.min {
      assert WindowTotal(h, r - 1) < rank;
    }
    SpelledAt(h.data, |h.data|, r, rank - 1);
  }

  /** Percentiles grow with `p` and never leave the window. */
  lemma PercentileMonotone(h: Histogram, s: seq<nat>, p: real, q: real, r: nat, r': nat)
    requires Represents(h, s) && 0 < |s| < U64_SIZE && h.max < |h.data|
    requires 0.0 <= p <= q < 100.0
    requires IsFirstReaching(h, Rank(p, h.count), r) && IsFirstReaching(h, Rank(q, h.count), r')
    ensures h.min <= r <= r' <= h.max
  {
    hide Share;
    ExactCounters(h, s);
    SpelledIsSortedCopy(h.data, s);
    var t := Spelled(h.data, |h.data|);
    PercentileIsOrderStatistic(h, s, t, p, r);
    PercentileIsOrderStatistic(h, s, t, q, r');
    ShareMonotone(p, q, |s|);
    SameMembers(t, s);
    MinOfBounds(s);
    MaxOfBounds(s);
    assert r in s && r' in s;
  }

  lemma ShareMonotone(p: real, q: real, count: nat)
    requires p <= q
    ensures Share(p, count).Floor <= Share(q, count).Floor
  {
    ScaleAtMost(p / 100.0, q / 100.0, count as real);
  }

  // ---- popcount counts distinct values ------------------------------------

  lemma {:induction false} NonEmptyCounts(data: seq<nat>, lo: nat, hi: nat)
    requires lo <= hi <= |data|
    ensures NonEmpty(data, lo, hi) == |set v | lo <= v < hi && data[v] > 0|
    decreases hi - lo
  {
    var all := set v | lo <= v < hi && data[v] > 0;
    if lo < hi {
      NonEmptyCounts(data, lo, hi - 1);
      var fewer := set v | lo <= v < hi - 1 && data[v] > 0;
      assert all == fewer + (if data[hi - 1] > 0 then {hi - 1} else {});
    } else {
      assert all == {};
    }
  }

  lemma PopcountCountsDistinct(h: Histogram, s: seq<nat>)
    requires Represents(h, s) && |s| < U64_SIZE && h.max < |h.data|
    ensures PopcountOf(h) == |set x | x in s|
  {
    ExactCounters(h, s);
    var distinct := set x | x in s;
    if s == [] {
      assert distinct == {};
    } else {
      NonEmptyCounts(h.data, h.min, h.max + 1);
      forall v ensures v in distinct <==> h.min <= v < h.max + 1 && h.data[v] > 0 {
        if 0 <= v < |h.data| {
          CountMember(s, v);
        }
      }
      assert distinct == set v | h.min <= v < h.max + 1 && h.data[v] > 0;
    }
  }
}
