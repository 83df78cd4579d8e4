/** From the command line to the printed figures: how `main` sizes the latency
histogram, corrects it and prints its figures, and when these are the statistics of
the expanded samples. */
module Report {

  import opened Accumulators
  import opened Histograms
  import opened Samples
  import opened Words
  import Correction
  import Exactness
  import Moments
  import Rates
  import St = Stats

  // ---- sizing the histogram -----------------------------------------------

  /** `timeout.saturating_mul(1000)`: the timeout in microseconds. */
  function LatencyMax(timeoutMs: nat): nat {
    Min(timeoutMs * 1000, U64_MAX)
  }

  /** Whenever the histogram can be allocated at all, the product was not saturated,
      so its size is the one that refuses no exchange in time. */
  method AllocLatency(timeoutMs: nat) returns (r: Option<St.Stats>)
    requires timeoutMs <= U64_MAX
    ensures r.Some? <==> timeoutMs * 1000 < MAX_BUCKETS
    ensures r.Some? ==> fresh(r.value) && fresh(r.value.data) && r.value.Valid()
    ensures r.Some? ==> r.value.limit == timeoutMs * 1000 + 1 && r.value.View() == Empty(timeoutMs * 1000 + 1)
  {
    r := St.Stats.Alloc(LatencyMax(timeoutMs));
  }

  /** The histogram of rates: rates up to ten million a second are kept. */
  method AllocRates() returns (r: Option<St.Stats>)
    ensures r.Some? && fresh(r.value) && fresh(r.value.data) && r.value.Valid()
    ensures r.value.limit == 10_000_001 && r.value.View() == Empty(10_000_001)
  {
    r := St.Stats.Alloc(MAX_THREAD_RATE_S);
  }

  const MAX_THREAD_RATE_S: nat := 10_000_000

  // ---- correction ---------------------------------------------------------

  /** The interval between two requests of a connection, if it can be told. */
  function Interval(complete: nat, connections: nat, runtimeUs: nat): Option<nat> {
    if connections == 0 then None
    else
      var perConnection := complete / connections;
      if perConnection == 0 then None else Some(runtimeUs / perConnection)
  }

  /** There is none unless every connection could have finished a request; and it is
      the longest one for which that many requests fit the run time. */
  lemma IntervalFits(complete: nat, connections: nat, runtimeUs: nat)
    ensures Interval(complete, connections, runtimeUs) == None <==> connections == 0 || complete < connections
    ensures match Interval(complete, connections, runtimeUs)
            case None => true
            case Some(i) =>
              var each := complete / connections;
              && each * connections <= complete < (each + 1) * connections
              && i * each <= runtimeUs < (i + 1) * each
  {
    if connections > 0 {
      Quotient(complete, connections);
      var each := complete / connections;
      if each > 0 {
        Quotient(runtimeUs, each);
      }
    }
  }

  lemma Quotient(a: nat, b: nat)
    requires b > 0
    ensures a / b * b <= a < (a / b + 1) * b
    ensures a / b == 0 <==> a < b
  {
    assert a == b * (a / b) + a % b;
  }

  /** The step of `main` after the workers have joined: the histogram is corrected with the
      run time divided by the requests of a connection, when there are any and the quotient
      is a positive number of the signed word; otherwise it is left as it is. */
  method CorrectLatency(latency: St.Stats, complete: nat, connections: nat, runtimeUs: nat)
    requires latency.Valid() && runtimeUs <= U64_MAX
    modifies latency, latency.data
    ensures latency.Valid()
    ensures connections == 0 || complete < connections ==> latency.View() == old(latency.View())
    ensures connections > 0 && complete >= connections ==>
      complete / connections > 0 &&
      var i := runtimeUs / (complete / connections);
      latency.View() == if 0 < i < 0x8000_0000_0000_0000 then Correction.Correct(old(latency.View()), i)
                        else old(latency.View())
    ensures latency.View() == Correction.Correct(old(latency.View()), Expected(complete, connections, runtimeUs))
  {
    IntervalFits(complete, connections, runtimeUs);
    hide Correction.Stage;
    var interval := Interval(complete, connections, runtimeUs);
    if interval.Some? {
      latency.Correct(AsI64(interval.value));
    }
  }

  /** The interval `correct` is called with; 0 stands for no call, which has the same effect. */
  function Expected(complete: nat, connections: nat, runtimeUs: nat): (e: int)
    requires runtimeUs <= U64_MAX
    ensures -I64_SIZE <= e < I64_SIZE
  {
    IntervalInRange(complete, connections, runtimeUs);
    match Interval(complete, connections, runtimeUs)
    case None => 0
    case Some(i) => AsI64(i)
  }

  lemma IntervalInRange(complete: nat, connections: nat, runtimeUs: nat)
    requires runtimeUs <= U64_MAX
    ensures Interval(complete, connections, runtimeUs).Some? ==>
      Interval(complete, connections, runtimeUs).value <= U64_MAX
  {
  }

  /** When it is positive: it is then the longest time for which as many requests as a
      connection has made on average, rounded down, fit the run. */
  lemma ExpectedFits(complete: nat, connections: nat, runtimeUs: nat)
    requires runtimeUs <= U64_MAX
    ensures var e, each := Expected(complete, connections, runtimeUs),
                           if connections == 0 then 0 else complete / connections;
      && (e > 0 <==> each > 0 && each <= runtimeUs && runtimeUs / each < 0x8000_0000_0000_0000)
      && (e > 0 ==> e * each <= runtimeUs < (e + 1) * each)
      && (connections > 0 ==> each * connections <= complete < (each + 1) * connections)
  {
    IntervalFits(complete, connections, runtimeUs);
    if connections > 0 && complete / connections > 0 {
      Quotient(runtimeUs, complete / connections);
    }
  }

  /** The samples the corrected histogram stands for. */
  function Expanded(s: seq<nat>, expected: int): seq<nat> {
    if expected <= 0 then s else Correction.EchoAll(s, expected)
  }

  ghost predicate StaysAbove(s: seq<nat>, expected: int) {
    expected > 0 ==> Correction.EchoesStayAbove(s, expected, MinOf(s))
  }

  // ---- the printed figures ------------------------------------------------

  datatype Figures = Figures(max: nat, mean: real, stdev: real, within: real, percentiles: seq<nat>)

  const PRINTED := [50.0, 75.0, 90.0, 99.0]

  /** What is computed from a histogram, whatever it holds. */
  ghost predicate ComputedFrom(f: Figures, h: Histogram, root: real -> real)
    requires h.max < |h.data|
  {
    && f.max == h.max
    && f.mean == MeanAsComputed(h)
    && f.stdev == St.StdevOf(h, f.mean, root)
    && f.within == WithinAsComputed(h, f.mean, f.stdev, 1.0)
    && |f.percentiles| == |PRINTED|
    && forall j :: 0 <= j < |PRINTED| ==>
         if h.count == 0 then f.percentiles[j] == 0
         else IsFirstReachingWrapped(h, Rank(PRINTED[j], h.count), f.percentiles[j])
  }

  /** The printed percentiles: half, three quarters, nine tenths and 99 hundredths of the
      samples come before them. */
  ghost predicate OrderStatistics(f: Figures, sorted: seq<nat>)
    requires sorted != []
  {
    var n := |sorted|;
    f.percentiles == [sorted[n / 2], sorted[3 * n / 4], sorted[9 * n / 10], sorted[99 * n / 100]]
  }

  /** The figures are the statistics of `s`, of which `sorted` is the sorted arrangement. */
  ghost predicate AreFiguresOf(f: Figures, s: seq<nat>, sorted: seq<nat>)
    requires s != [] && sorted != []
  {
    && f.max == MaxOf(s)
    && f.mean == Moments.Mean(s)
    && f.stdev >= 0.0 && f.stdev * f.stdev == (if |s| < 2 then 0.0 else Moments.Variance(s))
    && f.within == Moments.PercentInBand(s, f.mean - f.stdev * 1.0, f.mean + f.stdev * 1.0)
    && OrderStatistics(f, sorted)
  }

  /** `print_stats` and `print_stats_latency`, up to the layout. */
  method Summarize(stats: St.Stats, root: real -> real) returns (f: Figures)
    requires stats.Valid()
    ensures ComputedFrom(f, stats.View(), root)
  {
    hide MeanAsComputed, WithinAsComputed, IsFirstReachingWrapped, Rank, St.StdevOf, TotalFits;
    var max := stats.max;
    var mean := stats.Mean();
    var stdev := stats.Stdev(mean, root);
    var within := stats.WithinStdev(mean, stdev, 1.0);
    var percentiles := [];
    for j := 0 to |PRINTED|
      invariant |percentiles| == j
      invariant forall i :: 0 <= i < j ==>
        if stats.count == 0 then percentiles[i] == 0
        else IsFirstReachingWrapped(stats.View(), Rank(PRINTED[i], stats.count), percentiles[i])
    {
      var n := stats.Percentile(PRINTED[j]);
      percentiles := percentiles + [n];
    }
    f := Figures(max, mean, stdev, within, percentiles);
  }

  lemma TotalFitsOf(h: Histogram, s: seq<nat>)
    requires CountsWrapped(h, s) && |s| < U64_SIZE
    ensures TotalFits(h)
  {
    NothingWrapped(h, s);
    HeldAll(h.data, s);
  }

  /** On a histogram of `s`, the figures are the statistics of `s`. */
  lemma FiguresOfSamples(f: Figures, h: Histogram, root: real -> real, s: seq<nat>, sorted: seq<nat>)
    requires h.max < |h.data| && ComputedFrom(f, h, root)
    requires Represents(h, s) && 0 < |s| < U64_SIZE && IsSortedCopy(sorted, s)
    requires |s| >= 2 ==> St.IsRoot(root, Moments.Variance(s))
    ensures AreFiguresOf(f, s, sorted)
  {
    TotalFitsOf(h, s);
    ExactCounters(h, s);
    assert f.max == MaxOf(s);
    hide *;
    FiguresOfMoments(f, h, root, s);
    FiguresOfRanks(f, h, root, s, sorted);
    TheFigures(f, s, sorted);
  }

  lemma FiguresOfMoments(f: Figures, h: Histogram, root: real -> real, s: seq<nat>)
    requires h.Shaped() && TotalFits(h) && ComputedFrom(f, h, root)
    requires Represents(h, s) && 0 < |s| < U64_SIZE && h.count == |s|
    requires |s| >= 2 ==> St.IsRoot(root, Moments.Variance(s))
    ensures f.mean == Moments.Mean(s)
    ensures f.stdev >= 0.0 && f.stdev * f.stdev == (if |s| < 2 then 0.0 else Moments.Variance(s))
    ensures f.within == Moments.PercentInBand(s, f.mean - f.stdev * 1.0, f.mean + f.stdev * 1.0)
  {
    hide Represents, MeanAsComputed, MeanOf, VarianceOf, WithinAsComputed, WithinOf, TotalFits,
      IsFirstReachingWrapped, Rank, Moments.Mean, Moments.Variance, Moments.PercentInBand, St.RootOf;
    if |s| >= 2 {
      St.RootOfIsRoot(root, Moments.Variance(s));
    }
    MeanIsComputed(h);
    Moments.ScansAreStatistics(h, s, 1.0, f.stdev);
    WithinIsComputed(h, f.mean, f.stdev, 1.0);
  }

  lemma FiguresOfRanks(f: Figures, h: Histogram, root: real -> real, s: seq<nat>, sorted: seq<nat>)
    requires h.Shaped() && TotalFits(h) && ComputedFrom(f, h, root)
    requires Represents(h, s) && 0 < |s| < U64_SIZE && h.count == |s| && IsSortedCopy(sorted, s)
    ensures |sorted| == |s| && OrderStatistics(f, sorted)
  {
    SameMembers(sorted, s);
    hide Represents, MeanAsComputed, WithinAsComputed, TotalFits, IsFirstReaching, IsFirstReachingWrapped, Share,
      Rank, IsSortedCopy;
    forall j | 0 <= j < |PRINTED|
      ensures 0 <= Share(PRINTED[j], |s|).Floor < |sorted|
      ensures f.percentiles[j] == sorted[Share(PRINTED[j], |s|).Floor]
    {
      FirstReachingIsComputed(h, Rank(PRINTED[j], h.count), f.percentiles[j]);
      PercentileIsOrderStatistic(h, s, sorted, PRINTED[j], f.percentiles[j]);
    }
    ShareOfFraction(50.0, 1, 2, |s|);
    ShareOfFraction(75.0, 3, 4, |s|);
    ShareOfFraction(90.0, 9, 10, |s|);
    ShareOfFraction(99.0, 99, 100, |s|);
  }

  lemma ShareOfFraction(p: real, k: nat, d: nat, n: nat)
    requires d > 0 && p * d as real == 100.0 * k as real
    ensures Share(p, n).Floor == k * n / d
  {
    var x := Share(p, n);
    assert x * d as real == (p * d as real) / 100.0 * n as real;
    assert x * d as real == (k * n) as real;
    Rates.FloorTimes(x.Floor, x, d, k * n);
    RemainderUnique(k * n, x.Floor, k * n - d * x.Floor, d);
  }

  lemma TheFigures(f: Figures, s: seq<nat>, sorted: seq<nat>)
    requires s != [] && sorted != [] && f.max == MaxOf(s)
    requires f.mean == Moments.Mean(s)
    requires f.stdev >= 0.0 && f.stdev * f.stdev == (if |s| < 2 then 0.0 else Moments.Variance(s))
    requires f.within == Moments.PercentInBand(s, f.mean - f.stdev * 1.0, f.mean + f.stdev * 1.0)
    requires OrderStatistics(f, sorted)
    ensures AreFiguresOf(f, s, sorted)
  {
    hide Moments.Mean, Moments.Variance, Moments.PercentInBand, OrderStatistics, MaxOf;
  }

  /** At least two samples lie within the deviation that is printed. */
  lemma PrintedShareHoldsTwo(f: Figures, s: seq<nat>, sorted: seq<nat>)
    requires |s| >= 2 && sorted != [] && AreFiguresOf(f, s, sorted)
    ensures f.within * |s| as real >= 200.0
  {
    hide Moments.Variance, Moments.Mean, Moments.InBand, OrderStatistics, MaxOf;
    var inside := Moments.InBand(s, f.mean - f.stdev * 1.0, f.mean + f.stdev * 1.0);
    assert f.within == inside as real / |s| as real * 100.0;
    hide *;
    MeanAndRoot(f, s, sorted);
    Moments.TwoWithinOneDeviation(s, f.stdev);
    ShareTimesCount(inside, |s|);
  }

  lemma MeanAndRoot(f: Figures, s: seq<nat>, sorted: seq<nat>)
    requires |s| >= 2 && sorted != [] && AreFiguresOf(f, s, sorted)
    ensures f.mean == Moments.Mean(s) && f.stdev >= 0.0 && f.stdev * f.stdev == Moments.Variance(s)
  {
    hide Moments.Variance, Moments.Mean, Moments.PercentInBand, OrderStatistics, MaxOf;
  }

  lemma ShareTimesCount(inside: nat, n: nat)
    requires n > 0
    ensures inside as real / n as real * 100.0 * n as real == inside as real * 100.0
  {
    assert inside as real / n as real * n as real == inside as real;
  }

  /** Correction and report in one: the printed figures are the statistics of the expanded
      samples if and only if no echo falls below the recorded minimum; if one does, the
      mean at least is too low. */
  method ReportLatency(latency: St.Stats, complete: nat, connections: nat, runtimeUs: nat, root: real -> real,
                       ghost s: seq<nat>, ghost sorted: seq<nat>) returns (f: Figures)
    requires latency.Valid() && Represents(latency.View(), s) && runtimeUs <= U64_MAX
    requires var all := Expanded(s, Expected(complete, connections, runtimeUs));
      && 0 < |all| < U64_SIZE && IsSortedCopy(sorted, all)
      && (|all| >= 2 ==> St.IsRoot(root, Moments.Variance(all)))
    modifies latency, latency.data
    ensures latency.Valid()
    ensures var e := Expected(complete, connections, runtimeUs);
      && (AreFiguresOf(f, Expanded(s, e), sorted) <==> StaysAbove(s, e))
      && (f.mean == Moments.Mean(Expanded(s, e)) <==> StaysAbove(s, e))
      && f.mean <= Moments.Mean(Expanded(s, e))
    ensures var each := if connections == 0 then 0 else complete / connections;
      var i := if each == 0 then 0 else runtimeUs / each;
      if 0 < i < 0x8000_0000_0000_0000 then
        && |Correction.EchoAll(s, i)| > 0
        && (AreFiguresOf(f, Correction.EchoAll(s, i), sorted) <==> Correction.EchoesStayAbove(s, i, MinOf(s)))
      else s != [] && AreFiguresOf(f, s, sorted)
  {
    ExpectedIs(complete, connections, runtimeUs);
    hide *;
    ghost var e, before := Expected(complete, connections, runtimeUs), latency.View();
    StoredSamples(latency, s);
    CorrectLatency(latency, complete, connections, runtimeUs);
    f := Summarize(latency, root);
    FiguresDecided(f, before, s, e, root, sorted);
    ByCases(f, s, e, sorted);
  }

  lemma ExpectedIs(complete: nat, connections: nat, runtimeUs: nat)
    requires runtimeUs <= U64_MAX
    ensures var each := if connections == 0 then 0 else complete / connections;
      var i := if each == 0 then 0 else runtimeUs / each;
      var e := Expected(complete, connections, runtimeUs);
      if 0 < i < 0x8000_0000_0000_0000 then e == i else e <= 0
  {
    IntervalInRange(complete, connections, runtimeUs);
  }

  lemma ByCases(f: Figures, s: seq<nat>, e: int, sorted: seq<nat>)
    requires Expanded(s, e) != [] && sorted != [] && (AreFiguresOf(f, Expanded(s, e), sorted) <==> StaysAbove(s, e))
    ensures e > 0 ==>
      && Correction.EchoAll(s, e) != []
      && (AreFiguresOf(f, Correction.EchoAll(s, e), sorted) <==> Correction.EchoesStayAbove(s, e, MinOf(s)))
    ensures e <= 0 ==> s != [] && AreFiguresOf(f, s, sorted)
  {
    hide AreFiguresOf, Correction.EchoesStayAbove;
  }

  lemma StoredSamples(latency: St.Stats, s: seq<nat>)
    requires latency.Valid()
    ensures latency.View().max < |latency.View().data|
    ensures forall e :: Correction.Correct(latency.View(), e).max < |Correction.Correct(latency.View(), e).data|
  {
  }

  lemma FiguresDecided(f: Figures, h: Histogram, s: seq<nat>, e: int, root: real -> real, sorted: seq<nat>)
    requires h.max < |h.data| && Represents(h, s) && ComputedFrom(f, Correction.Correct(h, e), root)
    requires 0 < |Expanded(s, e)| < U64_SIZE && IsSortedCopy(sorted, Expanded(s, e))
    requires |Expanded(s, e)| >= 2 ==> St.IsRoot(root, Moments.Variance(Expanded(s, e)))
    ensures AreFiguresOf(f, Expanded(s, e), sorted) <==> StaysAbove(s, e)
    ensures f.mean == Moments.Mean(Expanded(s, e)) <==> StaysAbove(s, e)
    ensures f.mean <= Moments.Mean(Expanded(s, e))
  {
    var g, all := Correction.Correct(h, e), Expanded(s, e);
    hide ComputedFrom, AreFiguresOf, Represents, Moments.Mean, Moments.Variance, Correction.EchoesStayAbove;
    if StaysAbove(s, e) {
      ExpandedRepresented(h, s, e);
      FiguresOfSamples(f, g, root, all, sorted);
      SameMean(f, all, sorted);
    } else {
      MeanTooLow(f, h, s, e, root);
      if AreFiguresOf(f, all, sorted) {
        SameMean(f, all, sorted);
        assert false;
      }
    }
  }

  lemma SameMean(f: Figures, s: seq<nat>, sorted: seq<nat>)
    requires s != [] && sorted != [] && AreFiguresOf(f, s, sorted)
    ensures f.mean == Moments.Mean(s)
  {
  }

  lemma MeanTooLow(f: Figures, h: Histogram, s: seq<nat>, e: nat, root: real -> real)
    requires h.max < |h.data| && Represents(h, s) && e > 0 && ComputedFrom(f, Correction.Correct(h, e), root)
    requires Correction.EchoAll(s, e) != [] && |Correction.EchoAll(s, e)| < U64_SIZE
    requires !Correction.EchoesStayAbove(s, e, h.min)
    ensures f.mean < Moments.Mean(Correction.EchoAll(s, e))
  {
    var g, all := Correction.Correct(h, e), Correction.EchoAll(s, e);
    CorrectedShaped(h, s, e);
    Correction.CorrectCountsEchoes(h, s, e);
    TotalFitsOf(g, all);
    hide Correction.Correct, Represents, Moments.Mean, MeanOf, MeanAsComputed, TotalFits;
    MeanIsComputed(g);
    Exactness.MeanExactIff(h, s, e);
  }

  lemma CorrectedShaped(h: Histogram, s: seq<nat>, e: nat)
    requires h.max < |h.data| && Represents(h, s) && e > 0
    ensures Correction.Correct(h, e).Shaped()
  {
    MinOfBounds(s);
    hide Correction.Chain, Correction.Growth;
  }

  lemma ExpandedRepresented(h: Histogram, s: seq<nat>, e: int)
    requires Represents(h, s) && h.max < |h.data| && StaysAbove(s, e)
    ensures Represents(Correction.Correct(h, e), Expanded(s, e))
  {
    if e > 0 {
      Correction.CorrectIsExactIff(h, s, e);
    }
  }
}
