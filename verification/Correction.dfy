/** Coordinated-omission correction. The specification replaces every sample
`x` by its echoes `x, x - e, x - 2e, ...`; the closed form on buckets is what
the in-place loop of `Stats.Correct` is proved to compute. */
module Correction {
  import opened Words
  import opened Samples
  import opened Histograms

  // ---- on samples ---------------------------------------------------------

  /** The sample and the synthetic samples below it, all but the first above `e`. */
  function Echo(x: nat, e: nat): (r: seq<nat>)
    requires e > 0
    ensures r != []
  {
    if x > 2 * e then Echo(x - e, e) + [x] else [x]
  }

  function EchoAll(s: seq<nat>, e: nat): seq<nat>
    requires e > 0
  {
    if s == [] then [] else EchoAll(Front(s), e) + Echo(Last(s), e)
  }

  /** Number of synthetic samples made from one sample. */
  function Echoes(x: nat, e: nat): nat
    requires e > 0
  {
    if x > 2 * e then 1 + Echoes(x - e, e) else 0
  }

  function LowestEcho(x: nat, e: nat): nat
    requires e > 0
  {
    if x > 2 * e then LowestEcho(x - e, e) else x
  }

  // ---- on buckets ---------------------------------------------------------

  /** `data[m] + data[m + e] + data[m + 2e] + ...` up to bucket `top`. */
  function Chain(data: seq<nat>, m: nat, e: nat, top: nat): nat
    requires e > 0 && top < |data|
    decreases if m > top then 0 else top + 1 - m
  {
    if m > top then 0 else data[m] + Chain(data, m + e, e, top)
  }

  /** Synthetic samples made from the buckets below `hi`. */
  function Growth(data: seq<nat>, e: nat, hi: nat): nat
    requires e > 0 && hi <= |data|
  {
    if hi == 0 then 0 else Growth(data, e, hi - 1) + data[hi - 1] * Echoes(hi - 1, e)
  }

  /** The buckets after the outer loop has handled every bucket below `n`. */
  function Redistributed(data: seq<nat>, e: nat, n: nat): (r: seq<nat>)
    requires e > 0 && 0 < n <= |data|
    ensures |r| == |data|
  {
    seq(|data|, m requires 0 <= m < |data| =>
      if e < m < n then Wrap(Chain(data, m, e, n - 1)) else data[m])
  }

  /** The histogram once every bucket below `n` has handed its samples down. */
  function Stage(h: Histogram, e: nat, n: nat): (r: Histogram)
    requires e > 0 && 0 < n <= |h.data|
    ensures |r.data| == |h.data| && r.min == h.min && r.max == h.max
  {
    h.(data := Redistributed(h.data, e, n), count := Wrap(h.count + Growth(h.data, e, n)))
  }

  function Correct(h: Histogram, expected: int): (r: Histogram)
    requires h.max < |h.data|
    ensures |r.data| == |h.data| && r.min == h.min && r.max == h.max
  {
    if expected <= 0 then h else Stage(h, expected, h.max + 1)
  }

  // ---- echoes -------------------------------------------------------------

  ghost predicate Reaches(m: nat, e: nat, x: nat)
    requires e > 0
  {
    m <= x && (x - m) % e == 0
  }

  lemma StepDown(a: int, e: nat)
    requires e > 0
    ensures (a - e) % e == a % e
  {
    var q, r := a / e, a % e;
    assert a - e == e * (q - 1) + r;
    RemainderUnique(a - e, q - 1, r, e);
  }

  lemma ReachesStep(m: nat, e: nat, x: nat)
    requires e > 0
    ensures m < x ==> (Reaches(m, e, x) <==> Reaches(m + e, e, x))
    ensures m < x && x >= e ==> (Reaches(m, e, x) <==> Reaches(m, e, x - e))
    ensures m < x < m + e ==> !Reaches(m, e, x)
    ensures Reaches(m, e, m)
  {
    if m < x {
      StepDown(x - m, e);
      assert (x - m) - e == x - (m + e) == (x - e) - m;
      if x < m + e {
        RemainderUnique(x - m, 0, x - m, e);
      }
    }
    RemainderUnique(0, 0, 0, e);
  }

  lemma {:induction false} EchoCount(x: nat, e: nat, v: nat)
    requires e > 0
    ensures Count(Echo(x, e), v) ==
      if e < v then (if Reaches(v, e, x) then 1 else 0) else (if v == x then 1 else 0)
  {
    ReachesStep(v, e, x);
    if x <= 2 * e {
    } else {
      EchoCount(x - e, e, v);
      CountConcat(Echo(x - e, e), [x], v);
    }
  }

  lemma {:induction false} EchoLength(x: nat, e: nat)
    requires e > 0
    ensures |Echo(x, e)| == 1 + Echoes(x, e)
  {
    if x <= 2 * e {
    } else {
      EchoLength(x - e, e);
    }
  }

  /** Echoes lie between the lowest one and the sample; only the sample can be `<= e`. */
  lemma {:induction false} EchoRange(x: nat, e: nat)
    requires e > 0
    ensures forall y :: y in Echo(x, e) ==> LowestEcho(x, e) <= y <= x
    ensures LowestEcho(x, e) in Echo(x, e) && x in Echo(x, e)
    ensures x > e ==> e < LowestEcho(x, e) <= 2 * e
  {
    if x <= 2 * e {
    } else {
      EchoRange(x - e, e);
    }
  }

  /** The loop's bounds in closed form. */
  lemma {:induction false} EchoesClosedForm(x: nat, e: nat)
    requires e > 0 && x > e
    ensures Echoes(x, e) == (x - 1) / e - 1
    ensures LowestEcho(x, e) == e + 1 + (x - 1) % e
  {
    if x > 2 * e {
      EchoesClosedForm(x - e, e);
      var q, r := (x - e - 1) / e, (x - e - 1) % e;
      assert x - e - 1 == e * q + r;
      assert e * (q + 1) == e * q + e;
      RemainderUnique(x - 1, q + 1, r, e);
    } else {
      assert e * 1 == e;
      RemainderUnique(x - 1, 1, x - 1 - e, e);
    }
  }

  lemma {:induction false} EchoAllHas(s: seq<nat>, e: nat, x: nat)
    requires e > 0 && x in s
    ensures x in EchoAll(s, e) && LowestEcho(x, e) in EchoAll(s, e)
  {
    assert s == Front(s) + [Last(s)];
    if x == Last(s) {
      EchoRange(x, e);
    } else {
      EchoAllHas(Front(s), e, x);
    }
  }

  /** Every echo stems from a sample. */
  lemma {:induction false} EchoAllStems(s: seq<nat>, e: nat, y: nat) returns (x: nat)
    requires e > 0 && y in EchoAll(s, e)
    ensures x in s && LowestEcho(x, e) <= y <= x
  {
    assert s == Front(s) + [Last(s)];
    if y in Echo(Last(s), e) {
      x := Last(s);
      EchoRange(x, e);
    } else {
      x := EchoAllStems(Front(s), e, y);
    }
  }

  lemma {:induction false} EchoAllConcat(s: seq<nat>, t: seq<nat>, e: nat)
    requires e > 0
    ensures EchoAll(s + t, e) == EchoAll(s, e) + EchoAll(t, e)
  {
    if t == [] {
      assert s + t == s;
    } else {
      EchoAllConcat(s, Front(t), e);
      assert Front(s + t) == s + Front(t) && Last(s + t) == Last(t);
      hide Echo;
      var a, b, c := EchoAll(s, e), EchoAll(Front(t), e), Echo(Last(t), e);
      assert a + (b + c) == (a + b) + c;
    }
  }

  // ---- buckets against samples --------------------------------------------

  /** `Chain` over the counts of a list of samples. */
  ghost function CountChain(s: seq<nat>, m: nat, e: nat, top: nat): nat
    requires e > 0
    decreases if m > top then 0 else top + 1 - m
  {
    if m > top then 0 else Count(s, m) + CountChain(s, m + e, e, top)
  }

  lemma {:induction false} CountChainEmpty(m: nat, e: nat, top: nat)
    requires e > 0
    ensures CountChain([], m, e, top) == 0
    decreases if m > top then 0 else top + 1 - m
  {
    if m > top {
    } else {
      CountChainEmpty(m + e, e, top);
    }
  }

  lemma {:induction false} CountChainBump(s: seq<nat>, m: nat, e: nat, top: nat)
    requires e > 0 && s != [] && Last(s) <= top
    ensures CountChain(s, m, e, top)
         == CountChain(Front(s), m, e, top) + (if Reaches(m, e, Last(s)) then 1 else 0)
    decreases if m > top then 0 else top + 1 - m
  {
    ReachesStep(m, e, Last(s));
    if m > top {
    } else {
      CountChainBump(s, m + e, e, top);
    }
  }

  /** The chain above `m` counts the echoes that land on `m`. */
  lemma {:induction false} ChainCountsEchoes(s: seq<nat>, m: nat, e: nat, top: nat)
    requires 0 < e < m
    requires forall x :: x in s ==> x <= top
    ensures CountChain(s, m, e, top) == Count(EchoAll(s, e), m)
  {
    if s == [] {
      CountChainEmpty(m, e, top);
    } else {
      assert s == Front(s) + [Last(s)];
      assert Last(s) in s && forall x :: x in Front(s) ==> x in s;
      ChainCountsEchoes(Front(s), m, e, top);
      CountChainBump(s, m, e, top);
      EchoCount(Last(s), e, m);
      CountConcat(EchoAll(Front(s), e), Echo(Last(s), e), m);
    }
  }

  lemma {:induction false} LowBucketsUntouched(s: seq<nat>, m: nat, e: nat)
    requires 0 < e && m <= e
    ensures Count(EchoAll(s, e), m) == Count(s, m)
  {
    if s == [] {
    } else {
      LowBucketsUntouched(Front(s), m, e);
      EchoCount(Last(s), e, m);
      CountConcat(EchoAll(Front(s), e), Echo(Last(s), e), m);
    }
  }

  lemma {:induction false} ChainOfWrapped(data: seq<nat>, s: seq<nat>, m: nat, e: nat, top: nat)
    requires e > 0 && top < |data|
    requires forall v :: 0 <= v < |data| ==> data[v] == Wrap(Count(s, v))
    ensures Wrap(Chain(data, m, e, top)) == Wrap(CountChain(s, m, e, top))
    decreases if m > top then 0 else top + 1 - m
  {
    if m > top {
    } else {
      ChainOfWrapped(data, s, m + e, e, top);
      WrapSum(Count(s, m), Chain(data, m + e, e, top));
      WrapSum(Chain(data, m + e, e, top), Count(s, m));
      WrapSum(CountChain(s, m + e, e, top), Count(s, m));
    }
  }

  /** `Growth` over the counts of a list of samples. */
  ghost function CountGrowth(s: seq<nat>, e: nat, hi: nat): nat
    requires e > 0
  {
    if hi == 0 then 0 else CountGrowth(s, e, hi - 1) + Count(s, hi - 1) * Echoes(hi - 1, e)
  }

  lemma {:induction false} CountGrowthEmpty(e: nat, hi: nat)
    requires e > 0
    ensures CountGrowth([], e, hi) == 0
  {
    if hi == 0 {
    } else {
      CountGrowthEmpty(e, hi - 1);
    }
  }

  lemma OneMoreTime(a: nat, b: nat)
    ensures (a + 1) * b == a * b + b
  {
  }

  lemma {:induction false} CountGrowthBump(s: seq<nat>, e: nat, hi: nat)
    requires e > 0 && s != []
    ensures CountGrowth(s, e, hi)
         == CountGrowth(Front(s), e, hi) + (if Last(s) < hi then Echoes(Last(s), e) else 0)
  {
    if hi == 0 {
    } else {
      CountGrowthBump(s, e, hi - 1);
      OneMoreTime(Count(Front(s), hi - 1), Echoes(hi - 1, e));
    }
  }

  lemma {:induction false} EchoAllLength(s: seq<nat>, e: nat, hi: nat)
    requires e > 0
    requires forall x :: x in s ==> x < hi
    ensures |EchoAll(s, e)| == |s| + CountGrowth(s, e, hi)
  {
    if s == [] {
      CountGrowthEmpty(e, hi);
    } else {
      assert s == Front(s) + [Last(s)];
      assert Last(s) in s && forall x :: x in Front(s) ==> x in s;
      EchoAllLength(Front(s), e, hi);
      CountGrowthBump(s, e, hi);
      EchoLength(Last(s), e);
    }
  }

  lemma WrapProduct(a: nat, b: nat)
    ensures Wrap(Wrap(a) * b) == Wrap(a * b)
  {
    var q, r := a / U64_SIZE, Wrap(a);
    var p := r * b;
    assert a * b == p + (q * b) * U64_SIZE by {
      assert a == q * U64_SIZE + r;
      assert (q * U64_SIZE + r) * b == (q * b) * U64_SIZE + r * b;
    }
    WrapUnique(a * b, q * b + p / U64_SIZE, p % U64_SIZE);
  }

  lemma {:induction false} GrowthOfWrapped(data: seq<nat>, s: seq<nat>, e: nat, hi: nat)
    requires e > 0 && hi <= |data|
    requires forall v :: 0 <= v < |data| ==> data[v] == Wrap(Count(s, v))
    ensures Wrap(Growth(data, e, hi)) == Wrap(CountGrowth(s, e, hi))
  {
    if hi == 0 {
    } else {
      GrowthOfWrapped(data, s, e, hi - 1);
      var c, k := Count(s, hi - 1), Echoes(hi - 1, e);
      WrapProduct(c, k);
      hide *;
      WrapAdd(Growth(data, e, hi - 1), Wrap(c) * k, CountGrowth(s, e, hi - 1), c * k);
    }
  }

  lemma WrapAdd(a: nat, b: nat, c: nat, d: nat)
    requires Wrap(a) == Wrap(c) && Wrap(b) == Wrap(d)
    ensures Wrap(a + b) == Wrap(c + d)
  {
    WrapSum(a, b);
    WrapSum(c, b);
    WrapSum(b, c);
    WrapSum(d, c);
  }

  // ---- the loop, one bucket at a time -------------------------------------

  ghost function HandedTo(data: seq<nat>, e: nat, n: nat, m: nat, v: nat): nat
    requires e > 0 && 0 < n < |data| && v < |data|
  {
    if e < v < n && m < v && Reaches(v, e, n) then Wrap(Chain(data, v, e, n - 1) + data[n])
    else Redistributed(data, e, n)[v]
  }

  /** The buckets while the loop hands the samples of bucket `n` down: every
      target above `m` has received them. */
  ghost function HandingDown(data: seq<nat>, e: nat, n: nat, m: nat): (r: seq<nat>)
    requires e > 0 && 0 < n < |data|
    ensures |r| == |data|
  {
    seq(|data|, v requires 0 <= v < |data| => HandedTo(data, e, n, m, v))
  }

  /** Below the loop's start there is nothing to redistribute. */
  lemma StageStart(h: Histogram, e: nat, n: nat)
    requires h.Shaped() && e > 0 && 0 < n <= |h.data| && n <= 2 * e
    ensures Stage(h, e, n) == h
  {
    forall m | e < m < n ensures Chain(h.data, m, e, n - 1) == h.data[m] {
      assert m + e > n - 1;
    }
    NoGrowthBelowStart(h.data, e, n);
    assert Redistributed(h.data, e, n) == h.data;
  }

  lemma StageShaped(h: Histogram, e: nat, n: nat)
    requires h.Shaped() && e > 0 && 0 < n <= |h.data|
    ensures Stage(h, e, n).Shaped()
  {
  }

  lemma {:induction false} NoGrowthBelowStart(data: seq<nat>, e: nat, n: nat)
    requires e > 0 && n <= |data| && n <= 2 * e
    ensures Growth(data, e, n) == 0
  {
    if n == 0 {
    } else {
      NoGrowthBelowStart(data, e, n - 1);
    }
  }

  /** Raising the top by one adds the new bucket to the chains that reach it. */
  lemma {:induction false} ChainExtend(data: seq<nat>, m: nat, e: nat, n: nat)
    requires e > 0 && 0 < n < |data|
    ensures Chain(data, m, e, n) == Chain(data, m, e, n - 1) + (if Reaches(m, e, n) then data[n] else 0)
    decreases if m > n then 0 else n + 1 - m
  {
    ReachesStep(m, e, n);
    if m >= n {
    } else {
      ChainExtend(data, m + e, e, n);
    }
  }

  lemma ReachesApart(v: nat, m: nat, e: nat, n: nat)
    requires e > 0 && Reaches(m, e, n) && m - e < v < m
    ensures !Reaches(v, e, n)
  {
    var q := (n - m) / e;
    assert n - m == e * q;
    RemainderUnique(n - v, q, m - v, e);
  }

  lemma HandingDownStart(data: seq<nat>, e: nat, n: nat)
    requires 0 < 2 * e <= n < |data|
    ensures HandingDown(data, e, n, n - e) == Redistributed(data, e, n)
    ensures Reaches(n - e, e, n)
  {
    forall v | n - e < v < n ensures !Reaches(v, e, n) {
      ReachesStep(v, e, n);
    }
    RemainderUnique(e, 1, 0, e);
  }

  lemma HandingDownStep(data: seq<nat>, e: nat, n: nat, m: nat)
    requires 0 < e < m < n < |data| && Reaches(m, e, n)
    ensures var r := HandingDown(data, e, n, m);
      r[m := Add64(r[m], data[n])] == HandingDown(data, e, n, m - e)
    ensures Reaches(m - e, e, n)
  {
    WrapSum(Chain(data, m, e, n - 1), data[n]);
    StepDown(n - (m - e), e);
    hide Wrap, Chain, Reaches;
    forall v | m - e < v < m ensures !Reaches(v, e, n) {
      ReachesApart(v, m, e, n);
    }
  }

  lemma HandingDownEnd(data: seq<nat>, e: nat, n: nat, m: nat)
    requires 0 < e && m <= e && 0 < n < |data|
    requires forall v :: 0 <= v < |data| ==> data[v] < U64_SIZE
    ensures HandingDown(data, e, n, m) == Redistributed(data, e, n + 1)
  {
    assert Chain(data, n, e, n) == data[n] == Wrap(data[n]);
    forall v | 0 <= v < |data|
      ensures HandingDown(data, e, n, m)[v] == Redistributed(data, e, n + 1)[v]
    {
      ChainExtend(data, v, e, n);
    }
  }

  /** The loop reads every bucket before anything is written to it. */
  lemma UntouchedYet(data: seq<nat>, e: nat, n: nat)
    requires e > 0 && 0 < n < |data|
    ensures Redistributed(data, e, n)[n] == data[n]
  {
  }

  lemma EchoesStep(m: nat, e: nat)
    requires e > 0
    ensures m > e ==> Echoes(m + e, e) == 1 + Echoes(m, e)
    ensures m <= e ==> Echoes(m + e, e) == 0
  {
  }

  /** An empty bucket hands nothing down. */
  lemma RedistributedEmpty(data: seq<nat>, e: nat, n: nat)
    requires 0 < e && 0 < n < |data| && data[n] == 0
    ensures Redistributed(data, e, n + 1) == Redistributed(data, e, n)
  {
    assert Chain(data, n, e, n) == 0;
    forall v | e < v < n ensures Chain(data, v, e, n) == Chain(data, v, e, n - 1) {
      ChainExtend(data, v, e, n);
    }
  }

  // ---- the theorems -------------------------------------------------------

  /** Correcting a histogram of `s` leaves the counts of the echoes of `s`:
      every bucket and the total, modulo 2^64, whatever the window. */
  lemma CorrectCountsEchoes(h: Histogram, s: seq<nat>, e: nat)
    requires Represents(h, s) && h.max < |h.data| && e > 0
    ensures CountsWrapped(Correct(h, e), EchoAll(s, e))
    ensures forall y :: y in EchoAll(s, e) ==> y <= h.max
  {
    MaxOfBounds(s);
    forall y | y in EchoAll(s, e) ensures y <= h.max {
      var x := EchoAllStems(s, e, y);
    }
    TotalAfterCorrection(h, s, e);
    hide Wrap, Chain, Correct;
    forall v | 0 <= v < |h.data| ensures Correct(h, e).data[v] == Wrap(Count(EchoAll(s, e), v)) {
      BucketAfterCorrection(h, s, e, v);
    }
  }

  lemma TotalAfterCorrection(h: Histogram, s: seq<nat>, e: nat)
    requires Represents(h, s) && h.max < |h.data| && e > 0
    ensures Correct(h, e).count == Wrap(|EchoAll(s, e)|)
  {
    MaxOfBounds(s);
    EchoAllLength(s, e, h.max + 1);
    GrowthOfWrapped(h.data, s, e, h.max + 1);
    WrapTwice(|s|);
    hide Wrap;
    WrapAdd(h.count, Growth(h.data, e, h.max + 1), |s|, CountGrowth(s, e, h.max + 1));
  }

  lemma WrapBoth(x: nat, y: nat)
    ensures Wrap(x + y) == Add64(Wrap(x), Wrap(y))
  {
    WrapSum(x, y);
    WrapSum(y, Wrap(x));
  }

  lemma WrapTwice(x: nat)
    ensures Wrap(Wrap(x)) == Wrap(x)
  {
  }

  lemma BucketAfterCorrection(h: Histogram, s: seq<nat>, e: nat, v: nat)
    requires Represents(h, s) && h.max < |h.data| && e > 0 && v < |h.data|
    requires forall y :: y in EchoAll(s, e) ==> y <= h.max
    ensures Correct(h, e).data[v] == Wrap(Count(EchoAll(s, e), v))
  {
    MaxOfBounds(s);
    if v <= e {
      LowBucketsUntouched(s, v, e);
    } else if v <= h.max {
      ChainOfWrapped(h.data, s, v, e, h.max);
      ChainCountsEchoes(s, v, e, h.max);
    } else {
      CountMember(s, v);
      CountMember(EchoAll(s, e), v);
    }
  }

  /** Bucket `m` after a single pass from `max` down, in which every bucket above `e`
      takes in the finished bucket `e` further up. */
  function TakenIn(data: seq<nat>, e: nat, max: nat, r: seq<nat>, m: nat): nat
    requires m < |data| == |r| && max < |data|
  {
    if e < m <= max then Add64(data[m], if m + e <= max then r[m + e] else 0) else data[m]
  }

  ghost predicate IsDownwardPass(data: seq<nat>, e: nat, max: nat, r: seq<nat>)
    requires max < |data| == |r|
  {
    forall m :: 0 <= m < |data| ==> r[m] == TakenIn(data, e, max, r, m)
  }

  /** The nested loops compute what one linear pass downwards would. */
  lemma CorrectIsDownwardPass(h: Histogram, e: nat, r: seq<nat>)
    requires h.Shaped() && e > 0 && |r| == |h.data|
    ensures r == Correct(h, e).data <==> IsDownwardPass(h.data, e, h.max, r)
  {
    var c := Correct(h, e).data;
    forall m | 0 <= m < |c|
      ensures c[m] == TakenIn(h.data, e, h.max, c, m)
    {
      CorrectTakesIn(h, e, m);
    }
    hide Correct, TakenIn;
    if IsDownwardPass(h.data, e, h.max, r) {
      forall m | 0 <= m < |r|
        ensures r[m] == c[m]
      {
        DownwardPassUnique(h.data, e, h.max, r, c, m);
      }
    }
  }

  lemma CorrectTakesIn(h: Histogram, e: nat, m: nat)
    requires h.Shaped() && e > 0 && m < |h.data|
    ensures Correct(h, e).data[m] == TakenIn(h.data, e, h.max, Correct(h, e).data, m)
  {
    if e < m <= h.max {
      var rest := Chain(h.data, m + e, e, h.max);
      assert Correct(h, e).data[m] == Wrap(h.data[m] + rest);
      assert m + e > h.max ==> rest == 0;
      assert m + e <= h.max ==> Correct(h, e).data[m + e] == Wrap(rest);
      hide Chain, Correct, Wrap;
      WrapSum(rest, h.data[m]);
    }
  }

  lemma {:induction false} DownwardPassUnique(data: seq<nat>, e: nat, max: nat, r: seq<nat>, c: seq<nat>, m: nat)
    requires e > 0 && m < |data| && max < |data| == |r| == |c|
    requires IsDownwardPass(data, e, max, r) && IsDownwardPass(data, e, max, c)
    ensures r[m] == c[m]
    decreases |data| - m
  {
    hide TakenIn;
    if m <= e || m + e > max {
    } else {
      DownwardPassUnique(data, e, max, r, c, m + e);
    }
    TakenInSame(data, e, max, r, c, m);
    assert r[m] == TakenIn(data, e, max, r, m) && c[m] == TakenIn(data, e, max, c, m);
  }

  lemma TakenInSame(data: seq<nat>, e: nat, max: nat, r: seq<nat>, c: seq<nat>, m: nat)
    requires m < |data| == |r| == |c| && max < |data|
    requires e < m && m + e <= max ==> r[m + e] == c[m + e]
    ensures TakenIn(data, e, max, r, m) == TakenIn(data, e, max, c, m)
  {
  }

  /** No echo of a sample falls below the recorded minimum. */
  ghost predicate EchoesStayAbove(s: seq<nat>, e: nat, min: nat)
    requires e > 0
  {
    forall x :: x in s ==> min <= LowestEcho(x, e)
  }

  lemma MinOfEchoes(s: seq<nat>, e: nat)
    requires e > 0
    requires forall x :: x in s ==> x < U64_MAX
    ensures EchoesStayAbove(s, e, MinOf(s)) <==> MinOf(EchoAll(s, e)) == MinOf(s)
    ensures MaxOf(EchoAll(s, e)) == MaxOf(s)
  {
    var t := EchoAll(s, e);
    MinOfBounds(s);
    MaxOfBounds(s);
    MinOfBounds(t);
    forall x | x in s ensures x in t && LowestEcho(x, e) in t {
      EchoAllHas(s, e, x);
    }
    forall y | y in t ensures y <= MaxOf(s) && (EchoesStayAbove(s, e, MinOf(s)) ==> MinOf(s) <= y) {
      var x := EchoAllStems(s, e, y);
    }
    MaxOfUnique(t, MaxOf(s));
    if s != [] {
      assert Last(s) in s;
    }
  }

  /** `correct` never lowers `min`. So the corrected histogram holds the echoes,
      with an exact window, if and only if no echo falls below `min`. */
  lemma CorrectIsExactIff(h: Histogram, s: seq<nat>, e: nat)
    requires Represents(h, s) && h.max < |h.data| && e > 0
    ensures Represents(Correct(h, e), EchoAll(s, e)) <==> EchoesStayAbove(s, e, h.min)
  {
    CorrectCountsEchoes(h, s, e);
    MinOfEchoes(s, e);
    hide Wrap;
  }

  /** Two conditions on the minimum alone that decide it. */
  lemma MinimumDecides(s: seq<nat>, e: nat)
    requires e > 0 && s != []
    requires forall x :: x in s ==> x < U64_MAX
    ensures MinOf(s) <= e + 1 ==> EchoesStayAbove(s, e, MinOf(s))
    ensures MinOf(s) > 2 * e ==> !EchoesStayAbove(s, e, MinOf(s))
  {
    MinOfBounds(s);
    assert Last(s) in s;
    forall x | x in s && MinOf(s) <= e + 1 ensures MinOf(s) <= LowestEcho(x, e) {
      EchoRange(x, e);
    }
    if MinOf(s) > 2 * e {
      EchoRange(MinOf(s), e);
      assert MinOf(s) in s;
    }
  }

  /** The scans over `min..=max` see all corrected samples exactly when no echo
      fell below `min`; otherwise they miss some that `count` includes. */
  lemma ScanSeesAllIff(h: Histogram, s: seq<nat>, e: nat)
    requires Represents(h, s) && h.max < |h.data| && e > 0
    requires s != [] && |EchoAll(s, e)| < U64_SIZE
    ensures h.min <= h.max
    ensures WindowTotal(Correct(h, e), h.max) == Correct(h, e).count <==> EchoesStayAbove(s, e, h.min)
  {
    var g, t := Correct(h, e), EchoAll(s, e);
    MinOfBounds(s);
    MaxOfBounds(s);
    assert Last(s) in s;
    EchoAllHas(s, e, Last(s));
    CorrectIsExactIff(h, s, e);
    CorrectCountsEchoes(h, s, e);
    NothingWrapped(g, t);
    hide Wrap, Correct;
    if EchoesStayAbove(s, e, h.min) {
      WindowTotals(g, t);
    } else {
      var x :| x in s && LowestEcho(x, e) < h.min;
      EchoAllHas(s, e, x);
      CountMember(t, LowestEcho(x, e));
      HeldTotal(g.data, t, h.min, h.max, LowestEcho(x, e));
    }
  }

  /** A non-empty bucket below `lo` is missed by a scan from `lo`. */
  lemma HeldTotal(data: seq<nat>, t: seq<nat>, lo: nat, hi: nat, v: nat)
    requires Tallies(data, t) && v < lo <= hi < |data| && data[v] > 0
    ensures Held(data, lo, hi + 1) < |t|
  {
    HeldAll(data, t);
    HeldSplit(data, 0, lo, |data|);
    HeldSplit(data, lo, hi + 1, |data|);
    HeldSplit(data, 0, v + 1, lo);
  }

  /** The repository's own test case: one sample of 100, expected interval 10.
      Nine samples are counted but only one is scanned, so the reported mean is
      below every sample and the median is reported as 0. */
  lemma CorrectionCanLoseSamples(h: Histogram, x: nat, e: nat)
    requires x == 100 && e == 10
    requires |h.data| == 1001 && h == Record(Empty(1001), x)
    ensures h.max < |h.data| && Represents(h, [x])
    ensures Correct(h, e).count == 9 && Correct(h, e).min == 100
    ensures MeanOf(Correct(h, e)) < 12.0
    ensures IsFirstReaching(Correct(h, e), Rank(50.0, 9), 0)
  {
    EmptyRepresents(1001);
    RecordRepresents(Empty(1001), [], x);
    assert [] + [x] == [x];
    SingleEcho(x, e);
    CorrectCountsEchoes(h, [x], e);
    hide Correct, Wrap, Record, Echo;
    NothingWrapped(Correct(h, e), EchoAll([x], e));
    OneBucketScanned(Correct(h, e));
  }

  lemma SingleEcho(x: nat, e: nat)
    requires x == 100 && e == 10
    ensures |EchoAll([x], e)| == 9 && Count(EchoAll([x], e), 100) == 1
  {
    EchoesClosedForm(x, e);
    EchoLength(x, e);
    EchoCount(x, e, x);
    ReachesStep(x, e, x);
    assert Front([x]) == [] && EchoAll([x], e) == [] + Echo(x, e) == Echo(x, e);
  }

  lemma OneBucketScanned(g: Histogram)
    requires |g.data| == 1001 && g.data[100] == 1 && g.count == 9 && g.min == g.max == 100
    ensures MeanOf(g) < 12.0
    ensures IsFirstReaching(g, Rank(50.0, g.count), 0)
  {
    assert BucketSum(g.data, Value, 100, 101) == BucketSum(g.data, Value, 100, 100) + 1.0 * 100.0;
    RankIsFloor(50.0, 9);
    assert Share(50.0, 9) == 4.5;
    assert WindowTotal(g, 100) == Held(g.data, 100, 100) + 1;
  }

  lemma MergedCounts(h: Histogram, g: Histogram, m: Histogram, a: seq<nat>, b: seq<nat>)
    requires CountsWrapped(h, a) && CountsWrapped(g, b) && CountsWrapped(m, a + b)
    requires |h.data| == |g.data| == |m.data|
    ensures forall v :: 0 <= v < |m.data| ==> m.data[v] == Add64(h.data[v], g.data[v])
    ensures m.count == Add64(h.count, g.count)
  {
    hide Wrap, Add64;
    forall v | 0 <= v < |m.data| ensures m.data[v] == Add64(h.data[v], g.data[v]) {
      CountConcat(a, b, v);
      WrapBoth(Count(a, v), Count(b, v));
    }
    WrapBoth(|a|, |b|);
  }

  /** Correction distributes over merging two histograms. */
  lemma CorrectMerged(h: Histogram, g: Histogram, m: Histogram, s: seq<nat>, t: seq<nat>, e: nat)
    requires Represents(h, s) && Represents(g, t) && Represents(m, s + t) && e > 0
    requires |h.data| == |g.data| == |m.data|
    requires h.max < |h.data| && g.max < |g.data| && m.max < |m.data|
    ensures forall v :: 0 <= v < |m.data| ==>
      Correct(m, e).data[v] == Add64(Correct(h, e).data[v], Correct(g, e).data[v])
    ensures Correct(m, e).count == Add64(Correct(h, e).count, Correct(g, e).count)
  {
    CorrectCountsEchoes(h, s, e);
    CorrectCountsEchoes(g, t, e);
    CorrectCountsEchoes(m, s + t, e);
    EchoAllConcat(s, t, e);
    hide Wrap, Add64, Correct, CountsWrapped;
    MergedCounts(Correct(h, e), Correct(g, e), Correct(m, e), EchoAll(s, e), EchoAll(t, e));
  }

  /** By how much the total grows: each sample `x >= 2e` adds `(x - 1) / e - 1`. */
  lemma {:induction false} GrowthBySample(s: seq<nat>, e: nat)
    requires e > 0
    ensures |EchoAll(s, e)| == |s| + TotalEchoes(s, e)
  {
    if s == [] {
    } else {
      GrowthBySample(Front(s), e);
      EchoLength(Last(s), e);
      if Last(s) >= 2 * e {
        EchoesClosedForm(Last(s), e);
      }
    }
  }

  function TotalEchoes(s: seq<nat>, e: nat): nat
    requires e > 0
  {
    if s == [] then 0
    else TotalEchoes(Front(s), e) + (if Last(s) >= 2 * e then SyntheticCount(Last(s), e) else 0)
  }

  function SyntheticCount(x: nat, e: nat): nat
    requires e > 0 && x >= 2 * e
  {
    QuotientAtLeast(x - 1, e);
    (x - 1) / e - 1
  }

  /** The same on the buckets: each sample in a bucket `n >= 2e` makes `(n - 1) / e - 1`. */
  function BucketGrowth(data: seq<nat>, e: nat, hi: nat): nat
    requires e > 0 && hi <= |data|
  {
    if hi == 0 then 0
    else
      BucketGrowth(data, e, hi - 1)
      + (if hi - 1 >= 2 * e then data[hi - 1] * SyntheticCount(hi - 1, e) else 0)
  }

  /** By how much `count` grows, whatever the histogram holds. */
  lemma CountGrows(h: Histogram, e: nat)
    requires e > 0 && h.max < |h.data|
    ensures Correct(h, e).count == Wrap(h.count + BucketGrowth(h.data, e, h.max + 1))
  {
    GrowthIsBucketGrowth(h.data, e, h.max + 1);
  }

  lemma {:induction false} GrowthIsBucketGrowth(data: seq<nat>, e: nat, hi: nat)
    requires e > 0 && hi <= |data|
    ensures Growth(data, e, hi) == BucketGrowth(data, e, hi)
  {
    if hi == 0 {
    } else {
      GrowthIsBucketGrowth(data, e, hi - 1);
      if hi - 1 >= 2 * e {
        EchoesClosedForm(hi - 1, e);
        assert Echoes(hi - 1, e) == SyntheticCount(hi - 1, e);
      } else {
        assert Echoes(hi - 1, e) == 0;
      }
      hide Echoes, SyntheticCount;
    }
  }

  lemma QuotientAtLeast(a: nat, e: nat)
    requires 0 < e <= a
    ensures a / e >= 1
  {
    assert a == e * (a / e) + a % e;
  }
}
