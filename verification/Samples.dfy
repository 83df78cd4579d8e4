/** The specification side of the histogram: a plain list of samples, and the
sums over it that the statistics are made of. A list `s` stands for the samples
in any order; only its multiset matters (`MinOfPermuted`, `TalliesPermuted`). */
module Samples {
  import opened Words

  function Front(s: seq<nat>): seq<nat>
    requires s != []
  {
    s[..|s| - 1]
  }

  function Last(s: seq<nat>): nat
    requires s != []
  {
    s[|s| - 1]
  }

  /** How often `v` occurs among the samples (`CountIsMultiplicity`). */
  function Count(s: seq<nat>, v: nat): nat {
    if s == [] then 0 else Count(Front(s), v) + (if Last(s) == v then 1 else 0)
  }

  /** Two lists of the same samples, in any order. */
  ghost predicate SameSamples(s: seq<nat>, t: seq<nat>) {
    multiset(s) == multiset(t)
  }

  lemma {:induction false} CountIsMultiplicity(s: seq<nat>, v: nat)
    ensures Count(s, v) == multiset(s)[v]
  {
    if s == [] {
    } else {
      CountIsMultiplicity(Front(s), v);
      assert s == Front(s) + [Last(s)];
    }
  }

  lemma {:induction false} CountConcat(s: seq<nat>, t: seq<nat>, v: nat)
    ensures Count(s + t, v) == Count(s, v) + Count(t, v)
  {
    if t == [] {
      assert s + t == s;
    } else {
      CountConcat(s, Front(t), v);
      assert Front(s + t) == s + Front(t);
    }
  }

  lemma {:induction false} CountMember(s: seq<nat>, v: nat)
    ensures Count(s, v) > 0 <==> v in s
  {
    if s == [] {
    } else {
      CountMember(Front(s), v);
      assert s == Front(s) + [Last(s)];
    }
  }

  /** Equal counts everywhere mean the same samples. */
  lemma SameCounts(s: seq<nat>, t: seq<nat>)
    requires forall v: nat :: Count(s, v) == Count(t, v)
    ensures SameSamples(s, t)
  {
    forall v: nat ensures multiset(s)[v] == multiset(t)[v] {
      CountIsMultiplicity(s, v);
      CountIsMultiplicity(t, v);
    }
  }

  /** Smallest sample; `U64_MAX` for no samples, as `Stats::alloc` starts out. */
  function MinOf(s: seq<nat>): nat {
    if s == [] then U64_MAX else Min(MinOf(Front(s)), Last(s))
  }

  /** Largest sample; 0 for no samples. */
  function MaxOf(s: seq<nat>): nat {
    if s == [] then 0 else Max(MaxOf(Front(s)), Last(s))
  }

  lemma {:induction false} MinOfBounds(s: seq<nat>)
    ensures forall x :: x in s ==> MinOf(s) <= x
    ensures MinOf(s) in s || MinOf(s) == U64_MAX
    ensures MinOf(s) <= U64_MAX
  {
    if s == [] {
    } else {
      MinOfBounds(Front(s));
      assert s == Front(s) + [Last(s)];
    }
  }

  lemma {:induction false} MaxOfBounds(s: seq<nat>)
    ensures forall x :: x in s ==> x <= MaxOf(s)
    ensures MaxOf(s) in s || MaxOf(s) == 0
  {
    if s == [] {
    } else {
      MaxOfBounds(Front(s));
      assert s == Front(s) + [Last(s)];
    }
  }

  /** A lower bound that is itself a sample (or the starting value) is the minimum. */
  lemma MinOfUnique(s: seq<nat>, m: nat)
    requires forall x :: x in s ==> m <= x < U64_MAX
    requires m in s || (m == U64_MAX && s == [])
    ensures MinOf(s) == m
  {
    MinOfBounds(s);
    if s != [] {
      assert Last(s) in s;
    }
  }

  lemma MaxOfUnique(s: seq<nat>, m: nat)
    requires forall x :: x in s ==> x <= m
    requires m in s || m == 0
    ensures MaxOf(s) == m
  {
    MaxOfBounds(s);
  }

  lemma SameMembers(s: seq<nat>, t: seq<nat>)
    requires SameSamples(s, t)
    ensures forall x :: x in s <==> x in t
    ensures |s| == |t|
  {
    forall x ensures x in s <==> x in t {
      assert x in s <==> x in multiset(s);
      assert x in t <==> x in multiset(t);
    }
    assert |multiset(s)| == |s| && |multiset(t)| == |t|;
  }

  lemma BoundsOfSame(s: seq<nat>, t: seq<nat>)
    requires SameSamples(s, t)
    ensures MinOf(s) == MinOf(t) && MaxOf(s) == MaxOf(t)
  {
    SameMembers(s, t);
    MinOfBounds(s);
    MinOfBounds(t);
    MaxOfBounds(s);
    MaxOfBounds(t);
  }

  // ---- sums over samples and over buckets ---------------------------------

  /** What one sample of value `i` contributes to a sum. */
  datatype Weight =
    | Const(c: real)
    | Value
    | Square
    | SquaredDev(center: real)
    | Spread(low: real, high: real)
    | Band(lower: real, upper: real)
  {
    function At(i: int): real {
      match this
      case Const(c) => c
      case Value => i as real
      case Square => i as real * i as real
      case SquaredDev(c) => (i as real - c) * (i as real - c)
      case Spread(low, high) => (high - i as real) * (i as real - low)
      case Band(lower, upper) => if lower <= i as real <= upper then 1.0 else 0.0
    }
  }

  function SampleSum(s: seq<nat>, w: Weight): real {
    if s == [] then 0.0 else SampleSum(Front(s), w) + w.At(Last(s))
  }

  /** Sum over the buckets `lo..hi`, each weighted by its count. */
  function BucketSum(data: seq<nat>, w: Weight, lo: nat, hi: nat): real
    requires lo <= hi <= |data|
    decreases hi - lo
  {
    if lo == hi then 0.0
    else BucketSum(data, w, lo, hi - 1) + data[hi - 1] as real * w.At(hi - 1)
  }

  /** Bucket `v` holds exactly the number of samples equal to `v`. */
  ghost predicate Tallies(data: seq<nat>, s: seq<nat>) {
    && (forall x :: x in s ==> x < |data|)
    && (forall v :: 0 <= v < |data| ==> data[v] == Count(s, v))
  }

  lemma {:induction false} EmptyBuckets(data: seq<nat>, w: Weight, lo: nat, hi: nat)
    requires lo <= hi <= |data|
    requires forall v :: lo <= v < hi ==> data[v] == 0
    ensures BucketSum(data, w, lo, hi) == 0.0
    decreases hi - lo
  {
    if lo == hi {
    } else {
      EmptyBuckets(data, w, lo, hi - 1);
    }
  }

  lemma {:induction false} BucketSumSplit(data: seq<nat>, w: Weight, lo: nat, mid: nat, hi: nat)
    requires lo <= mid <= hi <= |data|
    ensures BucketSum(data, w, lo, hi) == BucketSum(data, w, lo, mid) + BucketSum(data, w, mid, hi)
    decreases hi - mid
  {
    if mid == hi {
    } else {
      BucketSumSplit(data, w, lo, mid, hi - 1);
    }
  }

  lemma {:induction false} BumpBucket(data: seq<nat>, x: nat, w: Weight, hi: nat)
    requires x < |data| && hi <= |data|
    ensures BucketSum(data[x := data[x] + 1], w, 0, hi)
         == BucketSum(data, w, 0, hi) + (if x < hi then w.At(x) else 0.0)
    decreases hi
  {
    hide Weight.At;
    if hi == 0 {
    } else {
      BumpBucket(data, x, w, hi - 1);
      var d := data[x := data[x] + 1];
      assert BucketSum(d, w, 0, hi) == BucketSum(d, w, 0, hi - 1) + d[hi - 1] as real * w.At(hi - 1);
      assert BucketSum(data, w, 0, hi) == BucketSum(data, w, 0, hi - 1) + data[hi - 1] as real * w.At(hi - 1);
      hide BucketSum;
      if x == hi - 1 {
        OneMore(data[x], w.At(x));
      }
    }
  }

  /** Distribution, for counting one sample more. */
  lemma OneMore(c: nat, a: real)
    ensures (c + 1) as real * a == c as real * a + a
  {
  }

  /** Scanning buckets computes the sum over samples. */
  lemma {:induction false} BucketSumIsSampleSum(data: seq<nat>, s: seq<nat>, w: Weight)
    requires Tallies(data, s)
    ensures BucketSum(data, w, 0, |data|) == SampleSum(s, w)
    decreases |s|
  {
    if s == [] {
      EmptyBuckets(data, w, 0, |data|);
    } else {
      var x := Last(s);
      assert s == Front(s) + [x];
      assert x in s && forall y :: y in Front(s) ==> y in s;
      CountMember(s, x);
      var less: seq<nat> := data[x := data[x] - 1];
      BucketSumIsSampleSum(less, Front(s), w);
      BumpBucket(less, x, w, |data|);
      assert less[x := less[x] + 1] == data;
    }
  }

  lemma {:induction false} ConstSum(s: seq<nat>, c: real)
    ensures SampleSum(s, Const(c)) == |s| as real * c
  {
    if s == [] {
    } else {
      ConstSum(Front(s), c);
      assert |s| as real == (|s| - 1) as real + 1.0;
      assert ((|s| - 1) as real + 1.0) * c == (|s| - 1) as real * c + c;
    }
  }

  /** Weights that are ordered on the samples have ordered sums. */
  lemma {:induction false} SumMonotone(s: seq<nat>, v: Weight, w: Weight)
    requires forall x :: x in s ==> v.At(x) <= w.At(x)
    ensures SampleSum(s, v) <= SampleSum(s, w)
  {
    hide Weight.At;
    if s == [] {
    } else {
      assert s == Front(s) + [Last(s)];
      assert Last(s) in s && forall x :: x in Front(s) ==> x in s;
      SumMonotone(Front(s), v, w);
    }
  }

  // ---- sorted arrangements ------------------------------------------------

  ghost predicate Sorted(t: seq<nat>) {
    forall i, j :: 0 <= i < j < |t| ==> t[i] <= t[j]
  }

  ghost predicate IsSortedCopy(t: seq<nat>, s: seq<nat>) {
    Sorted(t) && SameSamples(t, s)
  }

  /** Number of samples in the buckets `lo..hi`. */
  function Held(data: seq<nat>, lo: nat, hi: nat): nat
    requires lo <= hi <= |data|
    decreases hi
  {
    if lo == hi then 0 else Held(data, lo, hi - 1) + data[hi - 1]
  }

  lemma {:induction false} HeldSplit(data: seq<nat>, lo: nat, mid: nat, hi: nat)
    requires lo <= mid <= hi <= |data|
    ensures Held(data, lo, hi) == Held(data, lo, mid) + Held(data, mid, hi)
    decreases hi
  {
    if mid == hi {
    } else {
      HeldSplit(data, lo, mid, hi - 1);
    }
  }

  lemma {:induction false} HeldNone(data: seq<nat>, lo: nat, hi: nat)
    requires lo <= hi <= |data|
    requires forall v :: lo <= v < hi ==> data[v] == 0
    ensures Held(data, lo, hi) == 0
    decreases hi
  {
    if lo == hi {
    } else {
      HeldNone(data, lo, hi - 1);
    }
  }

  function Repeat(x: nat, n: nat): (r: seq<nat>)
    ensures |r| == n
    ensures forall i :: 0 <= i < n ==> r[i] == x
  {
    if n == 0 then [] else Repeat(x, n - 1) + [x]
  }

  lemma {:induction false} RepeatCount(x: nat, n: nat, v: nat)
    ensures Count(Repeat(x, n), v) == if v == x then n else 0
  {
    if n == 0 {
    } else {
      RepeatCount(x, n - 1, v);
    }
  }

  /** The samples of the buckets below `hi`, in ascending order. */
  function Spelled(data: seq<nat>, hi: nat): seq<nat>
    requires hi <= |data|
  {
    if hi == 0 then [] else Spelled(data, hi - 1) + Repeat(hi - 1, data[hi - 1])
  }

  lemma {:induction false} SpelledShape(data: seq<nat>, hi: nat)
    requires hi <= |data|
    ensures |Spelled(data, hi)| == Held(data, 0, hi)
    ensures Sorted(Spelled(data, hi))
    ensures forall i :: 0 <= i < |Spelled(data, hi)| ==> Spelled(data, hi)[i] < hi
    decreases hi
  {
    if hi == 0 {
    } else {
      SpelledShape(data, hi - 1);
    }
  }

  lemma {:induction false} SpelledCount(data: seq<nat>, hi: nat, v: nat)
    requires hi <= |data|
    ensures Count(Spelled(data, hi), v) == if v < hi then data[v] else 0
    decreases hi
  {
    if hi == 0 {
    } else {
      SpelledCount(data, hi - 1, v);
      RepeatCount(hi - 1, data[hi - 1], v);
      CountConcat(Spelled(data, hi - 1), Repeat(hi - 1, data[hi - 1]), v);
    }
  }

  /** Ranks between two running totals belong to the bucket between them. */
  lemma {:induction false} SpelledAt(data: seq<nat>, hi: nat, v: nat, k: nat)
    requires v < hi <= |data|
    requires Held(data, 0, v) <= k < Held(data, 0, v + 1)
    ensures k < |Spelled(data, hi)| && Spelled(data, hi)[k] == v
    decreases hi
  {
    var below, here := Spelled(data, hi - 1), Repeat(hi - 1, data[hi - 1]);
    assert Spelled(data, hi) == below + here;
    SpelledShape(data, hi - 1);
    if v < hi - 1 {
      SpelledAt(data, hi - 1, v, k);
      assert (below + here)[k] == below[k];
    } else {
      assert (below + here)[k] == here[k - |below|];
    }
  }

  lemma LastIsLargest(a: seq<nat>, b: seq<nat>)
    requires Sorted(a) && a != [] && b != []
    requires forall x :: x in b ==> x in a
    ensures Last(b) <= Last(a)
  {
    assert Last(b) in b;
  }

  lemma WithoutLast(a: seq<nat>)
    requires a != []
    ensures a == Front(a) + [Last(a)]
    ensures multiset(Front(a)) == multiset(a) - multiset{Last(a)}
  {
    assert a == Front(a) + [Last(a)];
  }

  /** There is only one way to sort a list. */
  lemma {:induction false} SortedUnique(a: seq<nat>, b: seq<nat>)
    requires Sorted(a) && Sorted(b) && SameSamples(a, b)
    ensures a == b
    decreases |a|
  {
    SameMembers(a, b);
    if a == [] {
    } else {
      LastIsLargest(a, b);
      LastIsLargest(b, a);
      WithoutLast(a);
      WithoutLast(b);
      SortedUnique(Front(a), Front(b));
    }
  }

  lemma SpelledIsSortedCopy(data: seq<nat>, s: seq<nat>)
    requires Tallies(data, s)
    ensures IsSortedCopy(Spelled(data, |data|), s)
  {
    SpelledShape(data, |data|);
    var t := Spelled(data, |data|);
    forall v: nat ensures Count(t, v) == Count(s, v) {
      SpelledCount(data, |data|, v);
      CountMember(s, v);
    }
    SameCounts(t, s);
  }

  /** All buckets together hold all samples. */
  lemma HeldAll(data: seq<nat>, s: seq<nat>)
    requires Tallies(data, s)
    ensures Held(data, 0, |data|) == |s|
  {
    SpelledIsSortedCopy(data, s);
    SpelledShape(data, |data|);
    SameMembers(Spelled(data, |data|), s);
  }
}
