/** The request rates a recorder takes, one for each interval in which requests were started. */
module Rates {

  import opened Words

  /** One interval of the recorder: the requests it swapped out, how long the interval
      was, and the stop flag as read after it. */
  datatype Tick = Tick(reqs: nat, elapsedMs: nat, stop: bool)

  /** Requests per second; the interval counts as a millisecond at least. */
  function RatePerSecond(reqs: nat, elapsedMs: nat): nat {
    RealAsU64(reqs as real / Max(elapsedMs, 1) as real * 1000.0)
  }

  /** The rate is rounded down, and saturates at the largest word. */
  lemma RateIsFloor(reqs: nat, elapsedMs: nat)
    ensures RatePerSecond(reqs, elapsedMs) == Min(reqs * 1000 / Max(elapsedMs, 1), U64_MAX)
  {
    var each := Max(elapsedMs, 1);
    var q := reqs as real / each as real * 1000.0;
    QuotientTimes(reqs as real, each as real);
    hide *;
    FloorTimes(q.Floor, q, each, reqs * 1000);
    RemainderUnique(reqs * 1000, q.Floor, reqs * 1000 - each * q.Floor, each);
    RateIs(reqs, elapsedMs, q);
  }

  lemma RateIs(reqs: nat, elapsedMs: nat, q: real)
    requires q == reqs as real / Max(elapsedMs, 1) as real * 1000.0 && q >= 0.0
    ensures RatePerSecond(reqs, elapsedMs) == Min(q.Floor, U64_MAX)
  {
  }

  lemma QuotientTimes(a: real, b: real)
    requires b > 0.0 && a >= 0.0
    ensures a / b * 1000.0 * b == a * 1000.0
    ensures a / b * 1000.0 >= 0.0
  {
    assert a / b * b == a;
  }

  lemma FloorTimes(f: int, q: real, b: nat, a: nat)
    requires b > 0 && f as real <= q < (f + 1) as real && q * b as real == a as real
    ensures f * b <= a < (f + 1) * b
  {
    var low, high := q - f as real, (f + 1) as real - q;
    Excess(low, b as real);
    Excess(high, b as real);
    assert low * b as real == a as real - (f * b) as real;
    assert high * b as real == ((f + 1) * b) as real - a as real;
  }

  lemma Excess(d: real, b: real)
    requires d >= 0.0 && b > 0.0
    ensures d * b >= 0.0
    ensures d > 0.0 ==> d * b > 0.0
  {
  }

  predicate Stopped(ticks: seq<Tick>) {
    exists k :: 0 <= k < |ticks| && ticks[k].stop
  }

  /** The rates recorded over some intervals; an idle interval records nothing,
      and the recorder leaves after the first interval that saw `stop`. */
  function RatesOf(ticks: seq<Tick>): seq<nat> {
    if ticks == [] then []
    else
      var before, t := ticks[..|ticks| - 1], ticks[|ticks| - 1];
      RatesOf(before) + (if Stopped(before) then [] else RateList(t.reqs, t.elapsedMs))
  }

  /** An idle interval records nothing, any other its rate. */
  function RateList(reqs: nat, elapsedMs: nat): (r: seq<nat>)
    ensures reqs == 0 ==> r == []
    ensures reqs > 0 ==> r == [Min(reqs * 1000 / Max(elapsedMs, 1), U64_MAX)]
  {
    RateIsFloor(reqs, elapsedMs);
    if reqs == 0 then [] else [RatePerSecond(reqs, elapsedMs)]
  }

  /** The intervals in which requests were started, up to the first that saw `stop`. */
  function Busy(ticks: seq<Tick>): seq<Tick> {
    if ticks == [] then []
    else
      var before, t := ticks[..|ticks| - 1], ticks[|ticks| - 1];
      Busy(before) + (if Stopped(before) || t.reqs == 0 then [] else [t])
  }

  /** The rate of one interval, rounded down. */
  function FloorRate(t: Tick): (rate: nat)
    ensures rate == Min(t.reqs * 1000 / Max(t.elapsedMs, 1), U64_MAX)
  {
    RateIsFloor(t.reqs, t.elapsedMs);
    RatePerSecond(t.reqs, t.elapsedMs)
  }

  /** The rates of some intervals, each rounded down. */
  function FloorRates(ticks: seq<Tick>): (rates: seq<nat>)
    ensures |rates| == |ticks|
    ensures forall i :: 0 <= i < |ticks| ==>
      rates[i] == Min(ticks[i].reqs * 1000 / Max(ticks[i].elapsedMs, 1), U64_MAX)
  {
    seq(|ticks|, i requires 0 <= i < |ticks| => FloorRate(ticks[i]))
  }

  /** The recorded rates are the rates of the busy intervals, and these hold all requests. */
  lemma RatesAreQuotients(ticks: seq<Tick>)
    ensures RatesOf(ticks) == FloorRates(Busy(ticks))
    ensures |RatesOf(ticks)| == |Busy(ticks)|
    ensures forall i :: 0 <= i < |Busy(ticks)| ==>
      RatesOf(ticks)[i] == Min(Busy(ticks)[i].reqs * 1000 / Max(Busy(ticks)[i].elapsedMs, 1), U64_MAX)
    ensures RequestsIn(Busy(ticks)) == SwappedOf(ticks)
    ensures forall i :: 0 <= i < |Busy(ticks)| ==> Busy(ticks)[i].reqs > 0 && Busy(ticks)[i] in ticks
  {
    hide *;
    RatesAreFloors(ticks);
    BusyHoldsAll(ticks);
    BusyAreTicks(ticks);
  }

  lemma {:induction false} RatesAreFloors(ticks: seq<Tick>)
    ensures RatesOf(ticks) == FloorRates(Busy(ticks))
  {
    if ticks == [] {
    } else {
      var before, t := ticks[..|ticks| - 1], ticks[|ticks| - 1];
      RatesAreFloors(before);
      assert Busy(before) + [] == Busy(before);
      hide FloorRates, Stopped, RateList;
      FloorRatesSnoc(Busy(before), t);
    }
  }

  lemma FloorRatesSnoc(ticks: seq<Tick>, t: Tick)
    ensures FloorRates(ticks + [t])
         == FloorRates(ticks) + (if t.reqs == 0 then [FloorRate(t)] else RateList(t.reqs, t.elapsedMs))
    ensures t.reqs == 0 ==> RateList(t.reqs, t.elapsedMs) == []
  {
    hide FloorRate, RatePerSecond;
    var n := |ticks|;
    assert forall i :: 0 <= i < n ==> (ticks + [t])[i] == ticks[i];
    OneRate(t);
  }

  lemma OneRate(t: Tick)
    ensures t.reqs > 0 ==> RateList(t.reqs, t.elapsedMs) == [FloorRate(t)]
  {
    hide RatePerSecond;
  }

  lemma {:induction false} BusyHoldsAll(ticks: seq<Tick>)
    ensures RequestsIn(Busy(ticks)) == SwappedOf(ticks)
  {
    hide Stopped;
    if ticks == [] {
    } else {
      var before, t := ticks[..|ticks| - 1], ticks[|ticks| - 1];
      BusyHoldsAll(before);
      RequestsInSnoc(Busy(before), t);
      assert Busy(before) + [] == Busy(before);
      hide RequestsIn;
    }
  }

  lemma {:induction false} BusyAreTicks(ticks: seq<Tick>)
    ensures forall t :: t in Busy(ticks) ==> t.reqs > 0 && t in ticks
  {
    hide Stopped;
    if ticks == [] {
    } else {
      BusyAreTicks(ticks[..|ticks| - 1]);
    }
  }

  lemma RequestsInSnoc(ticks: seq<Tick>, t: Tick)
    ensures RequestsIn(ticks + [t]) == RequestsIn(ticks) + t.reqs
    ensures RequestsIn([]) == 0
  {
    assert (ticks + [t])[..|ticks|] == ticks;
  }

  function RequestsIn(ticks: seq<Tick>): nat {
    if ticks == [] then 0 else RequestsIn(ticks[..|ticks| - 1]) + ticks[|ticks| - 1].reqs
  }

  /** All requests swapped out. */
  function SwappedOf(ticks: seq<Tick>): nat {
    if ticks == [] then 0
    else
      var before := ticks[..|ticks| - 1];
      SwappedOf(before) + (if Stopped(before) then 0 else ticks[|ticks| - 1].reqs)
  }

  lemma {:induction false} AfterStop(ticks: seq<Tick>, i: nat)
    requires i <= |ticks| && Stopped(ticks[..i])
    ensures RatesOf(ticks) == RatesOf(ticks[..i]) && SwappedOf(ticks) == SwappedOf(ticks[..i])
  {
    if i == |ticks| {
      assert ticks[..i] == ticks;
    } else {
      var before := ticks[..|ticks| - 1];
      assert before[..i] == ticks[..i];
      var k :| 0 <= k < i && ticks[..i][k].stop;
      assert before[k].stop;
      AfterStop(before, i);
    }
  }

  /** The intervals with what was left in the counter before the first one. */
  function Carried(rate: nat, ticks: seq<Tick>): (r: seq<Tick>)
    ensures |r| == |ticks|
    ensures forall k :: 0 <= k < |r| ==> r[k] == ticks[k].(reqs := ticks[k].reqs + (if k == 0 then rate else 0))
  {
    if ticks == [] then [] else [ticks[0].(reqs := ticks[0].reqs + rate)] + ticks[1..]
  }

  /** One more interval while the recorder is running. */
  lemma OneMoreTick(ticks: seq<Tick>, t: Tick)
    requires !Stopped(ticks)
    ensures SwappedOf(ticks + [t]) == SwappedOf(ticks) + t.reqs
    ensures RatesOf(ticks + [t]) == RatesOf(ticks) + RateList(t.reqs, t.elapsedMs)
    ensures Stopped(ticks + [t]) <==> t.stop
  {
    assert (ticks + [t])[..|ticks|] == ticks;
    if t.stop {
      assert (ticks + [t])[|ticks|].stop;
    }
  }
}
