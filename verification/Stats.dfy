/** The histogram object: one array of buckets, updated in place. Each method is
proved against the functions of `Histograms` and `Correction`, whose lemmas say
what they mean for the samples. */
module Stats {
  import opened Words
  import opened Samples
  import opened Accumulators
  import opened Histograms
  import Correction

  class Stats {
    var count: nat
    const limit: nat
    var min: nat
    var max: nat
    const data: array<nat>

    ghost predicate Valid()
      reads this, data
    {
      data.Length == limit && View().Shaped()
    }

    ghost function View(): Histogram
      reads this, data
    {
      Histogram(data[..], count, min, max)
    }

    constructor (limit: nat)
      requires 0 < limit <= MAX_BUCKETS
      ensures Valid() && fresh(data) && this.limit == limit
      ensures View() == Empty(limit)
    {
      this.limit := limit;
      count, min, max := 0, U64_MAX, 0;
      data := new nat[limit](_ => 0);
    }

    /** `alloc`: `None` stands for the panics on `max + 1` overflowing and on a
        vector too large to exist. */
    static method Alloc(max: nat) returns (r: Option<Stats>)
      requires max <= U64_MAX
      ensures r.Some? <==> max < MAX_BUCKETS
      ensures r.Some? ==> fresh(r.value) && fresh(r.value.data) && r.value.Valid()
      ensures r.Some? ==> r.value.limit == max + 1 && r.value.View() == Empty(max + 1)
    {
      if max == U64_MAX {
        return None;
      }
      var limit := max + 1;
      if limit > MAX_BUCKETS {
        return None;
      }
      var stats := new Stats(limit);
      return Some(stats);
    }

    /** A weak compare-and-swap on `min`, with nobody else writing: it fails
        only spuriously, which the caller's `spurious` decides. */
    method CasMinWeak(expected: nat, n: nat, spurious: bool) returns (ok: bool, actual: nat)
      modifies this`min
      ensures ok <==> old(min) == expected && !spurious
      ensures actual == old(min)
      ensures min == if ok then n else old(min)
    {
      actual := min;
      ok := actual == expected && !spurious;
      if ok {
        min := n;
      }
    }

    method CasMaxWeak(expected: nat, n: nat, spurious: bool) returns (ok: bool, actual: nat)
      modifies this`max
      ensures ok <==> old(max) == expected && !spurious
      ensures actual == old(max)
      ensures max == if ok then n else old(max)
    {
      actual := max;
      ok := actual == expected && !spurious;
      if ok {
        max := n;
      }
    }

    /** `record` as one thread runs it alone, with `spurious` many failures of
        the weak compare-and-swap; `ConcurrentRecord` has the rest. */
    method Record(n: nat, spurious: nat) returns (accepted: bool)
      requires Valid()
      modifies this, data
      ensures Valid()
      ensures accepted <==> n < limit
      ensures View() == Histograms.Record(old(View()), n)
    {
      if n >= limit {
        return false;
      }
      data[n] := Add64(data[n], 1);
      count := Add64(count, 1);
      ghost var d := data[..];
      assert d == old(data[..])[n := Add64(old(data[n]), 1)];
      hide Wrap;
      var left := spurious;
      var curMin, curMax := min, max;
      if n >= curMin && n <= curMax {
        return true;
      }
      if n < curMin {
        var m := curMin;
        while n < m
          invariant m == min == old(min)
          invariant count == Add64(old(count), 1) && max == old(max) && data[..] == d
          decreases left
        {
          var ok, actual := CasMinWeak(m, n, left > 0);
          if ok {
            break;
          }
          m := actual;
          left := left - 1;
        }
      }
      if n > curMax {
        var m := curMax;
        while n > m
          invariant m == max == old(max)
          invariant count == Add64(old(count), 1) && min == Min(old(min), n) && data[..] == d
          decreases left
        {
          var ok, actual := CasMaxWeak(m, n, left > 0);
          if ok {
            break;
          }
          m := actual;
          left := left - 1;
        }
      }
      return true;
    }

    /** The inner loop of `correct`: bucket `n` hands its samples down. Every
        bucket from `n` up still holds what it held at the start, in `h`. */
    method HandDown(n: nat, expected: int, ghost h: Histogram)
      requires 0 < expected && 2 * expected <= n < |h.data| && h.Shaped()
      requires data.Length == limit && View() == Correction.Stage(h, expected, n)
      modifies this`count, data
      ensures View() == Correction.Stage(h, expected, n + 1)
    {
      hide Wrap, Add64, Correction.Redistributed, Correction.HandingDown,
        Correction.Growth, Correction.Chain, Correction.Reaches, Correction.Echoes, Shares;
      ghost var e: nat, orig, done := expected, h.data, 0;
      Correction.UntouchedYet(orig, e, n);
      var c := data[n];
      assert c == data[..][n] == orig[n];
      ghost var before := h.count + Correction.Growth(orig, e, n);
      SharesStart(before, c);
      if c > 0 {
        var m := n - expected;
        Correction.HandingDownStart(orig, e, n);
        while m > expected
          invariant 0 < m <= n - e && Correction.Reaches(m, e, n)
          invariant data[..] == Correction.HandingDown(orig, e, n, m)
          invariant done + Correction.Echoes(m + e, e) == Correction.Echoes(n, e)
          invariant count == Shares(before, c, done)
        {
          Correction.HandingDownStep(orig, e, n, m);
          Correction.EchoesStep(m, e);
          SharesStep(before, c, done);
          assert data[..][m] == data[m];
          data[m] := Add64(data[m], c);
          count := Add64(count, c);
          done := done + 1;
          m := m - expected;
        }
        Correction.EchoesStep(m, e);
        Correction.HandingDownEnd(orig, e, n, m);
      } else {
        Correction.RedistributedEmpty(orig, e, n);
      }
      SharesEnd(h.count, orig, e, n, count, done);
    }

    /** The outer loop of `correct`, over the buckets `start..=end`. */
    method HandAllDown(start: nat, end: nat, expected: int, ghost h: Histogram)
      requires 0 < expected && start == 2 * expected && end < |h.data| && h.Shaped()
      requires data.Length == limit
      requires View() == Correction.Stage(h, expected, Min(start, end + 1))
      modifies this`count, data
      ensures View() == Correction.Stage(h, expected, end + 1)
    {
      hide Wrap, Add64, Correction.Stage;
      var n := start;
      while n <= end
        invariant start <= n
        invariant View() == Correction.Stage(h, expected, Min(n, end + 1))
      {
        HandDown(n, expected, h);
        n := n + 1;
      }
    }

    /** `correct`: redistributes in place, reading the array it writes. */
    method Correct(expected: int)
      requires Valid() && -I64_SIZE <= expected < I64_SIZE
      modifies this, data
      ensures Valid()
      ensures View() == Correction.Correct(old(View()), expected)
    {
      if expected <= 0 {
        return;
      }
      var start, end := DoubledAsU64(expected), max;
      ghost var h := View();
      Correction.StageStart(h, expected, Min(start, end + 1));
      Correction.StageShaped(h, expected, end + 1);
      hide Wrap, Add64, Correction.Stage;
      HandAllDown(start, end, expected, h);
    }

    // ---- queries ----------------------------------------------------------

    /** `mean`. The sum is kept in 128 bits; it does not wrap around when the samples
        in the buckets can be counted in 64. */
    method Mean() returns (r: real)
      requires Valid()
      ensures r == MeanAsComputed(View())
      ensures TotalFits(View()) ==> r == MeanOf(View())
    {
      if TotalFits(View()) {
        MeanIsComputed(View());
      }
      hide MeanOf, TotalFits, ValueTotal;
      if count == 0 {
        return 0.0;
      }
      var sum := SumOfValues();
      return sum as real / count as real;
    }

    /** The scan of `mean`. */
    method SumOfValues() returns (sum: nat)
      requires Valid()
      ensures sum == if min > max then 0 else ValueTotal(View().data, min, max + 1) % U128_SIZE
    {
      ghost var d := data[..];
      sum := 0;
      if min <= max {
        for i := min to max + 1
          invariant sum == ValueTotal(d, min, i) % U128_SIZE
        {
          var term := data[i] * i;
          assert ValueTotal(d, min, i + 1) == ValueTotal(d, min, i) + term;
          hide ValueTotal;
          ModSum(ValueTotal(d, min, i), term, U128_SIZE);
          sum := (sum + term) % U128_SIZE;
        }
      }
    }

    /** `stdev`; `root` takes square roots. */
    method Stdev(mean: real, root: real -> real) returns (r: real)
      requires Valid()
      ensures r == StdevOf(View(), mean, root)
      ensures count < 2 ==> r == 0.0
      ensures count >= 2 && IsRoot(root, VarianceOf(View(), mean)) ==> r >= 0.0 && r * r == VarianceOf(View(), mean)
    {
      if count < 2 {
        return 0.0;
      }
      ghost var d := data[..];
      var sum := 0.0;
      if min <= max {
        for i := min to max + 1
          invariant sum == BucketSum(d, SquaredDev(mean), min, i)
        {
          var c := data[i];
          if c > 0 {
            var dev := i as real - mean;
            DeviationTerm(c, i, mean);
            hide Weight.At;
            sum := sum + dev * dev * c as real;
          } else {
            hide Weight.At;
          }
        }
      }
      hide RootOf;
      return RootOf(root, sum / (count - 1) as real);
    }

    /** `within_stdev` */
    method WithinStdev(mean: real, stdev: real, k: real) returns (r: real)
      requires Valid()
      ensures r == WithinAsComputed(View(), mean, stdev, k)
      ensures TotalFits(View()) ==> r == WithinOf(View(), mean, stdev, k)
    {
      if TotalFits(View()) {
        WithinIsComputed(View(), mean, stdev, k);
      }
      hide WithinOf, TotalFits, Wrap;
      if count == 0 {
        return 0.0;
      }
      var upper, lower := mean + stdev * k, mean - stdev * k;
      ghost var d := data[..];
      var sum: nat := 0;
      WrapSmall(0);
      if min <= max {
        for i := min to max + 1
          invariant sum == Wrap(BandTotal(d, lower, upper, min, i))
        {
          if i as real >= lower && i as real <= upper {
            WrapSum(BandTotal(d, lower, upper, min, i), d[i]);
            sum := Add64(sum, data[i]);
          }
        }
      }
      return sum as real / count as real * 100.0;
    }

    /** `percentile` */
    method Percentile(p: real) returns (r: nat)
      requires Valid()
      ensures count == 0 ==> r == 0
      ensures count > 0 ==> IsFirstReachingWrapped(View(), Rank(p, count), r)
      ensures count > 0 && TotalFits(View()) ==> IsFirstReaching(View(), Rank(p, count), r)
    {
      if count == 0 {
        return 0;
      }
      var rank := RoundHalfAway(p / 100.0 * count as real + 0.5);
      assert rank == Rank(p, count);
      r := FirstReaching(rank);
      if TotalFits(View()) {
        FirstReachingIsComputed(View(), rank, r);
      }
    }

    /** The scan of `percentile`. */
    method FirstReaching(rank: nat) returns (r: nat)
      requires Valid()
      ensures IsFirstReachingWrapped(View(), rank, r)
    {
      hide Wrap;
      ghost var d := data[..];
      var total: nat := 0;
      WrapSmall(0);
      if min <= max {
        for i := min to max + 1
          invariant total == Wrap(Held(d, min, i))
          invariant forall j :: min <= j < i ==> Wrap(WindowTotal(View(), j)) < rank
        {
          WrapSum(Held(d, min, i), d[i]);
          total := Add64(total, data[i]);
          if total >= rank {
            return i;
          }
        }
      }
      return 0;
    }

    /** `popcount` */
    method Popcount() returns (r: nat)
      requires Valid()
      ensures r == PopcountOf(View())
    {
      ghost var d := data[..];
      r := 0;
      if min <= max {
        for i := min to max + 1
          invariant r == NonEmpty(d, min, i)
        {
          if data[i] > 0 {
            r := r + 1;
          }
        }
      }
    }
  }

  /** The root of a number, wherever `root` has one. */
  function RootOf(root: real -> real, x: real): real {
    root(x)
  }

  /** `root` takes the square root of `x`. */
  predicate IsRoot(root: real -> real, x: real) {
    root(x) >= 0.0 && root(x) * root(x) == x
  }

  lemma RootOfIsRoot(root: real -> real, x: real)
    requires IsRoot(root, x)
    ensures RootOf(root, x) >= 0.0 && RootOf(root, x) * RootOf(root, x) == x
  {
  }

  function StdevOf(h: Histogram, mean: real, root: real -> real): real
    requires h.max < |h.data|
  {
    if h.count < 2 then 0.0 else RootOf(root, VarianceOf(h, mean))
  }

  lemma DeviationTerm(c: nat, i: nat, mean: real)
    ensures (i as real - mean) * (i as real - mean) * c as real == c as real * SquaredDev(mean).At(i)
  {
  }

  /** `(expected * 2) as u64` overflows `i64` from 2^62 on, but the cast back to
      `u64` undoes the wrap-around. */
  function DoubledAsU64(expected: int): (r: nat)
    requires 0 < expected < I64_SIZE
    ensures r == 2 * expected
  {
    AsU64(AsI64(expected * 2))
  }

  /** The total after `done` targets have received `c` samples each. */
  ghost function Shares(before: nat, c: nat, done: nat): nat {
    Wrap(before + c * done)
  }

  lemma SharesStart(before: nat, c: nat)
    ensures Shares(before, c, 0) == Wrap(before)
  {
  }

  lemma SharesStep(before: nat, c: nat, done: nat)
    ensures Add64(Shares(before, c, done), c) == Shares(before, c, done + 1)
  {
    assert c * (done + 1) == c * done + c;
    WrapSum(before + c * done, c);
  }

  lemma SharesEnd(total: nat, data: seq<nat>, e: nat, n: nat, count: nat, done: nat)
    requires e > 0 && n < |data|
    requires count == Shares(total + Correction.Growth(data, e, n), data[n], done)
    requires data[n] == 0 || done == Correction.Echoes(n, e)
    ensures count == Wrap(total + Correction.Growth(data, e, n + 1))
  {
    if data[n] == 0 {
      assert data[n] * done == 0 == data[n] * Correction.Echoes(n, e);
    }
  }
}
