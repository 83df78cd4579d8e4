/** Unit formatting: the promotion ladder with its 0.85 threshold, and what the
rendered number is worth in base units. Floats are exact reals; the decimal
rounding is any function that rounds to a nearest integer, whatever its tie rule. */
module Units {

  const BINARY_UNITS := ["K", "M", "G", "T", "P"]
  const METRIC_UNITS := ["k", "M", "G", "T", "P"]
  const TIME_UNITS_US := ["ms", "s"]
  const TIME_UNITS_S := ["m", "h"]

  /** The text `ticks / 10^precision` followed by `unit`. */
  datatype Formatted = Formatted(ticks: int, precision: nat, unit: string)

  ghost predicate Nearest(round: real -> int) {
    forall x :: x - 0.5 <= round(x) as real <= x + 0.5
  }

  /** Ties to even, the rule of the original's formatter. */
  function HalfEven(x: real): int {
    var f := x.Floor;
    var rest := x - f as real;
    if rest < 0.5 || (rest == 0.5 && f % 2 == 0) then f else f + 1
  }

  lemma HalfEvenIsNearest()
    ensures Nearest(HalfEven)
  {
  }

  /** Rounding to a nearest integer is monotone, whatever the ties do. */
  lemma RoundMonotone(round: real -> int, x: real, y: real)
    requires Nearest(round) && x <= y
    ensures round(x) <= round(y)
  {
    assert round(x) as real <= x + 0.5;
    assert round(y) as real >= y - 0.5;
  }

  lemma RoundExact(round: real -> int, k: int)
    requires Nearest(round)
    ensures round(k as real) == k
  {
    assert k as real - 0.5 <= round(k as real) as real <= k as real + 0.5;
  }

  /** `10^precision` for the two precisions in use. */
  function TicksPerOne(precision: nat): (r: real)
    ensures r > 0.0
  {
    if precision == 0 then 1.0 else 10.0 * TicksPerOne(precision - 1)
  }

  // ---- the ladder ---------------------------------------------------------

  /** `n` one unit further up a ladder, and a value one unit further down. */
  function Up(n: real, scale: real): real
    requires scale > 0.0
  {
    n / scale
  }

  function Down(m: real, scale: real): real {
    scale * m
  }

  lemma UpThenDown(n: real, scale: real)
    requires scale > 0.0
    ensures Down(Up(n, scale), scale) == n
    ensures n >= scale * 0.85 ==> Up(n, scale) >= 0.85
  {
    assert n / scale * scale == n;
  }

  lemma UpKeepsOrder(x: real, y: real, scale: real)
    requires scale > 0.0 && x <= y
    ensures Up(x, scale) <= Up(y, scale)
  {
  }

  lemma DownKeepsOrder(x: real, y: real, scale: real)
    requires scale > 0.0 && x <= y
    ensures Down(x, scale) <= Down(y, scale)
  {
  }

  /** How often `n` is divided by `scale`, at most `left` times. */
  function Promotions(n: real, scale: real, left: nat): (r: nat)
    requires scale > 0.0
    ensures r <= left
    decreases left
  {
    if left > 0 && n >= scale * 0.85 then 1 + Promotions(Up(n, scale), scale, left - 1) else 0
  }

  /** The units of a ladder that can be reached: all but the topmost. */
  function Reachable(units: seq<string>): nat {
    if units == [] then 0 else |units| - 1
  }

  /** `amt` after `times` promotions is worth this many base units. */
  function Grown(amt: real, scale: real, times: nat): real {
    if times == 0 then amt else Down(Grown(amt, scale, times - 1), scale)
  }

  /** What a text of the given resolution is worth: a whole number of ticks. */
  function Displayed(amt: real, ticks: real, round: real -> int): real
    requires ticks > 0.0
  {
    Ticks(amt, ticks, round) as real / ticks
  }

  /** What is displayed, in base units: the rounded amount times its unit. */
  function Rendered(n: real, scale: real, left: nat, ticks: real, round: real -> int): real
    requires scale > 0.0 && ticks > 0.0
    decreases left
  {
    if left > 0 && n >= scale * 0.85 then Down(Rendered(Up(n, scale), scale, left - 1, ticks, round), scale)
    else Displayed(n, ticks, round)
  }

  lemma {:induction false} GrownInside(amt: real, scale: real, times: nat)
    requires scale > 0.0
    ensures Grown(Up(amt, scale), scale, times + 1) == Grown(amt, scale, times)
  {
    hide Up, Down;
    if times == 0 {
      UpThenDown(amt, scale);
      assert Grown(Up(amt, scale), scale, 1) == Down(Grown(Up(amt, scale), scale, 0), scale);
    } else {
      GrownInside(amt, scale, times - 1);
    }
  }

  /** `amt` in whole ticks, `ticks` of them making one. */
  function Ticks(amt: real, ticks: real, round: real -> int): int {
    round(amt * ticks)
  }

  /** `amt` printed with `precision` decimals, then its unit. */
  function Printed(amt: real, precision: nat, unit: string, round: real -> int): Formatted {
    Formatted(Ticks(amt, TicksPerOne(precision), round), precision, unit)
  }

  /** `format_units`. At every iteration `amt` in its unit is still worth `n`. */
  method FormatUnits(n: real, scale: real, base: string, units: seq<string>, precision: nat, round: real -> int)
    returns (f: Formatted, amt: real)
    requires scale > 0.0
    ensures f == Printed(amt, precision, if Promotions(n, scale, Reachable(units)) == 0 then base
                                         else units[Promotions(n, scale, Reachable(units)) - 1], round)
    ensures Grown(amt, scale, Promotions(n, scale, Reachable(units))) == n
    ensures amt < scale * 0.85 || Promotions(n, scale, Reachable(units)) == Reachable(units)
    ensures Promotions(n, scale, Reachable(units)) > 0 ==> amt >= 0.85
  {
    hide Up, Down, Printed;
    amt := n;
    var unit := base;
    var threshold := scale * 0.85;
    var i := 0;
    while i + 1 < |units| && amt >= threshold
      invariant i <= Reachable(units)
      invariant Grown(amt, scale, i) == n
      invariant Promotions(n, scale, Reachable(units)) == i + Promotions(amt, scale, Reachable(units) - i)
      invariant unit == if i == 0 then base else units[i - 1]
      invariant i > 0 ==> amt >= 0.85
    {
      UpThenDown(amt, scale);
      GrownInside(amt, scale, i);
      UpIs(amt, scale);
      amt := amt / scale;
      unit := units[i];
      i := i + 1;
    }
    f := Printed(amt, precision, unit, round);
  }

  lemma UpIs(n: real, scale: real)
    requires scale > 0.0
    ensures Up(n, scale) == n / scale
  {
  }

  /** An amount whose unit makes it worth `n` is displayed as `Rendered` says. */
  lemma {:induction false} DisplayedIsRendered(
    n: real, scale: real, left: nat, ticks: real, round: real -> int, amt: real)
    requires scale > 0.0 && ticks > 0.0
    requires Grown(amt, scale, Promotions(n, scale, left)) == n
    ensures Grown(Displayed(amt, ticks, round), scale, Promotions(n, scale, left))
         == Rendered(n, scale, left, ticks, round)
    decreases left
  {
    hide Up, Down, Displayed;
    if left == 0 || n < scale * 0.85 {
    } else {
      var times := Promotions(Up(n, scale), scale, left - 1);
      assert Grown(amt, scale, times + 1) == Down(Grown(amt, scale, times), scale);
      OnlyOneUp(Grown(amt, scale, times), n, scale);
      DisplayedIsRendered(Up(n, scale), scale, left - 1, ticks, round, amt);
    }
  }

  lemma OnlyOneUp(m: real, n: real, scale: real)
    requires scale > 0.0 && Down(m, scale) == n
    ensures m == Up(n, scale)
  {
    assert n / scale * scale == n;
  }

  // ---- error bounds -------------------------------------------------------

  /** The displayed amount is off by half a tick at most. */
  lemma DisplayedError(amt: real, ticks: real, round: real -> int)
    requires Nearest(round) && ticks > 0.0
    ensures amt - 0.5 / ticks <= Displayed(amt, ticks, round) <= amt + 0.5 / ticks
  {
    var r := round(amt * ticks) as real;
    assert amt * ticks - 0.5 <= r <= amt * ticks + 0.5;
    QuotientBounds(amt, ticks, r);
  }

  lemma QuotientBounds(amt: real, ticks: real, r: real)
    requires ticks > 0.0 && amt * ticks - 0.5 <= r <= amt * ticks + 0.5
    ensures amt - 0.5 / ticks <= r / ticks <= amt + 0.5 / ticks
  {
    assert amt * ticks / ticks == amt;
    assert (amt * ticks - 0.5) / ticks == amt - 0.5 / ticks;
    assert (amt * ticks + 0.5) / ticks == amt + 0.5 / ticks;
  }

  /** With two decimals: within 0.005 base units below the threshold, and within a
      relative error of 1/170 from 0.85 on, however often the amount is promoted. */
  lemma {:induction false} RenderedError(n: real, scale: real, left: nat, round: real -> int)
    requires scale > 1.0 && Nearest(round)
    ensures n < scale * 0.85 ==> n - 0.005 <= Rendered(n, scale, left, 100.0, round) <= n + 0.005
    ensures n >= 0.85 ==> n - n / 170.0 <= Rendered(n, scale, left, 100.0, round) <= n + n / 170.0
    decreases left
  {
    hide Up, Down, Displayed, Nearest;
    if left > 0 && n >= scale * 0.85 {
      UpThenDown(n, scale);
      RenderedError(Up(n, scale), scale, left - 1, round);
      ScaledError(Up(n, scale), scale, Rendered(Up(n, scale), scale, left - 1, 100.0, round));
    } else {
      DisplayedError(n, 100.0, round);
    }
  }

  /** A relative error does not change with the unit. */
  lemma ScaledError(m: real, scale: real, r: real)
    requires scale > 0.0 && m - m / 170.0 <= r <= m + m / 170.0
    ensures Down(m, scale) - Down(m, scale) / 170.0 <= Down(r, scale) <= Down(m, scale) + Down(m, scale) / 170.0
  {
    DownKeepsOrder(m - m / 170.0, r, scale);
    DownKeepsOrder(r, m + m / 170.0, scale);
    DownLinear(m, scale);
  }

  lemma DownLinear(m: real, scale: real)
    ensures Down(m - m / 170.0, scale) == Down(m, scale) - Down(m, scale) / 170.0
    ensures Down(m + m / 170.0, scale) == Down(m, scale) + Down(m, scale) / 170.0
  {
    assert scale * (m / 170.0) == scale * m / 170.0;
  }

  // ---- monotonicity -------------------------------------------------------

  lemma DisplayedMonotone(x: real, y: real, ticks: real, round: real -> int)
    requires Nearest(round) && ticks > 0.0 && x <= y
    ensures Displayed(x, ticks, round) <= Displayed(y, ticks, round)
  {
    DownKeepsOrder(x, y, ticks);
    RoundMonotone(round, x * ticks, y * ticks);
    UpKeepsOrder(round(x * ticks) as real, round(y * ticks) as real, ticks);
  }

  /** What is shown just below the threshold is not worth more than what is shown
      right at it, one unit up. */
  ghost predicate PromotionIsUp(scale: real, ticks: real, round: real -> int)
    requires ticks > 0.0
  {
    Displayed(scale * 0.85, ticks, round) <= Down(Displayed(0.85, ticks, round), scale)
  }

  /** A larger number is never displayed as less, across all promotions. */
  lemma {:induction false} RenderedMonotone(x: real, y: real, scale: real, left: nat, ticks: real, round: real -> int)
    requires scale > 1.0 && ticks > 0.0 && Nearest(round) && PromotionIsUp(scale, ticks, round)
    requires x <= y
    ensures Rendered(x, scale, left, ticks, round) <= Rendered(y, scale, left, ticks, round)
    decreases left
  {
    hide Up, Down, Displayed, Nearest;
    if left == 0 || y < scale * 0.85 {
      DisplayedMonotone(x, y, ticks, round);
    } else {
      var top := Rendered(Up(y, scale), scale, left - 1, ticks, round);
      UpThenDown(y, scale);
      if x >= scale * 0.85 {
        UpKeepsOrder(x, y, scale);
        RenderedMonotone(Up(x, scale), Up(y, scale), scale, left - 1, ticks, round);
        DownKeepsOrder(Rendered(Up(x, scale), scale, left - 1, ticks, round), top, scale);
      } else {
        DisplayedMonotone(x, scale * 0.85, ticks, round);
        RenderedMonotone(0.85, Up(y, scale), scale, left - 1, ticks, round);
        DownKeepsOrder(Displayed(0.85, ticks, round), top, scale);
      }
    }
  }

  lemma LaddersGoUp(round: real -> int)
    requires Nearest(round)
    ensures PromotionIsUp(1024.0, 100.0, round) && PromotionIsUp(1000.0, 100.0, round)
    ensures PromotionIsUp(60.0, 100.0, round) && PromotionIsUp(60.0, 1.0, round)
  {
    RoundExact(round, 87040);
    RoundExact(round, 85000);
    RoundExact(round, 5100);
    RoundExact(round, 85);
    RoundExact(round, 51);
    assert 0.85 - 0.5 <= round(0.85) as real;
  }

  // ---- the four formatters ------------------------------------------------

  /** What the text shown for `n` bytes is worth, in bytes. */
  function BinaryWorth(n: real, round: real -> int): real {
    Rendered(n, 1024.0, 4, 100.0, round)
  }

  function MetricWorth(n: real, round: real -> int): real {
    Rendered(n, 1000.0, 4, 100.0, round)
  }

  /** In microseconds, over both ladders. */
  function TimeUsWorth(n: real, round: real -> int): real {
    if n >= 1_000_000.0 then Down(Rendered(Up(n, 1_000_000.0), 60.0, 1, 100.0, round), 1_000_000.0)
    else Rendered(n, 1000.0, 1, 100.0, round)
  }

  function TimeSWorth(n: real, round: real -> int): real {
    Rendered(n, 60.0, 1, 1.0, round)
  }

  /** The number a text starts with. */
  function Magnitude(f: Formatted): real {
    f.ticks as real / TicksPerOne(f.precision)
  }

  lemma MagnitudeIsDisplayed(amt: real, precision: nat, unit: string, round: real -> int)
    ensures Magnitude(Printed(amt, precision, unit, round)) == Displayed(amt, TicksPerOne(precision), round)
  {
    hide TicksPerOne, Ticks;
  }

  lemma HundredTicks()
    ensures TicksPerOne(2) == 100.0 && TicksPerOne(0) == 1.0
  {
    assert TicksPerOne(1) == 10.0;
  }

  /** The unit shown and the number before it are together worth `Rendered`. */
  lemma TextIsWorth(n: real, scale: real, left: nat, precision: nat, unit: string, round: real -> int, amt: real)
    requires scale > 0.0 && Grown(amt, scale, Promotions(n, scale, left)) == n
    ensures Grown(Magnitude(Printed(amt, precision, unit, round)), scale, Promotions(n, scale, left))
         == Rendered(n, scale, left, TicksPerOne(precision), round)
  {
    MagnitudeIsDisplayed(amt, precision, unit, round);
    DisplayedIsRendered(n, scale, left, TicksPerOne(precision), round, amt);
  }

  method FormatBinary(n: real, round: real -> int) returns (f: Formatted)
    ensures Grown(Magnitude(f), 1024.0, Promotions(n, 1024.0, 4)) == BinaryWorth(n, round)
    ensures f.precision == 2 && f.unit == ["", "K", "M", "G", "T"][Promotions(n, 1024.0, 4)]
  {
    hide Up, Down, Displayed, Magnitude, Grown, Rendered, Promotions, TicksPerOne;
    var amt: real;
    f, amt := FormatUnits(n, 1024.0, "", BINARY_UNITS, 2, round);
    HundredTicks();
    TextIsWorth(n, 1024.0, 4, 2, f.unit, round, amt);
  }

  method FormatMetric(n: real, round: real -> int) returns (f: Formatted)
    ensures Grown(Magnitude(f), 1000.0, Promotions(n, 1000.0, 4)) == MetricWorth(n, round)
    ensures f.precision == 2 && f.unit == ["", "k", "M", "G", "T"][Promotions(n, 1000.0, 4)]
  {
    hide Up, Down, Displayed, Magnitude, Grown, Rendered, Promotions, TicksPerOne;
    var amt: real;
    f, amt := FormatUnits(n, 1000.0, "", METRIC_UNITS, 2, round);
    HundredTicks();
    TextIsWorth(n, 1000.0, 4, 2, f.unit, round, amt);
  }

  /** The units "us", "ms", "s" and "m" are used; "h" is never reached. */
  method FormatTimeUs(n: real, round: real -> int) returns (f: Formatted)
    ensures f.precision == 2
    ensures f.unit == if n < 850.0 then "us" else if n < 1_000_000.0 then "ms"
                      else if n < 51_000_000.0 then "s" else "m"
    ensures Magnitude(f) * (if n < 850.0 then 1.0 else if n < 1_000_000.0 then 1000.0
                            else if n < 51_000_000.0 then 1_000_000.0 else 60_000_000.0) == TimeUsWorth(n, round)
  {
    hide Displayed, Magnitude, Rendered, TicksPerOne;
    var amt: real;
    HundredTicks();
    if n >= 1_000_000.0 {
      f, amt := FormatUnits(n / 1_000_000.0, 60.0, "s", TIME_UNITS_S, 2, round);
      TextIsWorth(n / 1_000_000.0, 60.0, 1, 2, f.unit, round, amt);
      GrownOnce(Magnitude(f), n / 1_000_000.0, 60.0);
    } else {
      f, amt := FormatUnits(n, 1000.0, "us", TIME_UNITS_US, 2, round);
      TextIsWorth(n, 1000.0, 1, 2, f.unit, round, amt);
      GrownOnce(Magnitude(f), n, 1000.0);
    }
  }

  lemma GrownOnce(amt: real, n: real, scale: real)
    requires scale > 0.0
    ensures Promotions(n, scale, 1) == if n >= scale * 0.85 then 1 else 0
    ensures Grown(amt, scale, Promotions(n, scale, 1)) == if n >= scale * 0.85 then scale * amt else amt
  {
  }

  method FormatTimeS(n: real, round: real -> int) returns (f: Formatted)
    ensures f.precision == 0
    ensures f.unit == if n < 51.0 then "s" else "m"
    ensures Magnitude(f) * (if n < 51.0 then 1.0 else 60.0) == TimeSWorth(n, round)
  {
    hide Displayed, Magnitude, Rendered, TicksPerOne;
    var amt: real;
    f, amt := FormatUnits(n, 60.0, "s", TIME_UNITS_S, 0, round);
    HundredTicks();
    TextIsWorth(n, 60.0, 1, 0, f.unit, round, amt);
    GrownOnce(Magnitude(f), n, 60.0);
  }

  /** All four formatters are monotone; the one for microseconds also across the
      switch between its two ladders at one second. */
  lemma FormattersMonotone(x: real, y: real, round: real -> int)
    requires Nearest(round) && x <= y
    ensures BinaryWorth(x, round) <= BinaryWorth(y, round)
    ensures MetricWorth(x, round) <= MetricWorth(y, round)
    ensures TimeSWorth(x, round) <= TimeSWorth(y, round)
    ensures TimeUsWorth(x, round) <= TimeUsWorth(y, round)
  {
    hide Nearest, PromotionIsUp, Rendered;
    LaddersGoUp(round);
    RenderedMonotone(x, y, 1024.0, 4, 100.0, round);
    RenderedMonotone(x, y, 1000.0, 4, 100.0, round);
    RenderedMonotone(x, y, 60.0, 1, 1.0, round);
    TimeUsMonotone(x, y, round);
  }

  /** One second reads "1000.00ms" on the lower ladder and "1.00s" on the upper. */
  lemma LaddersMeet(round: real -> int)
    requires Nearest(round)
    ensures Rendered(1_000_000.0, 1000.0, 1, 100.0, round) == 1_000_000.0
    ensures Rendered(1.0, 60.0, 1, 100.0, round) == 1.0
  {
    RoundExact(round, 100_000);
    RoundExact(round, 100);
    assert Rendered(1000.0, 1000.0, 0, 100.0, round) == Displayed(1000.0, 100.0, round) == 1000.0;
  }

  lemma TimeUsMonotone(x: real, y: real, round: real -> int)
    requires Nearest(round) && x <= y
    ensures TimeUsWorth(x, round) <= TimeUsWorth(y, round)
  {
    hide Nearest, PromotionIsUp, Rendered, Up, Down;
    var second := 1_000_000.0;
    LaddersGoUp(round);
    if y < second {
      RenderedMonotone(x, y, 1000.0, 1, 100.0, round);
    } else if second <= x {
      UpKeepsOrder(x, y, second);
      RenderedMonotone(Up(x, second), Up(y, second), 60.0, 1, 100.0, round);
      DownKeepsOrder(
        Rendered(Up(x, second), 60.0, 1, 100.0, round), Rendered(Up(y, second), 60.0, 1, 100.0, round), second);
    } else {
      LaddersMeet(round);
      RenderedMonotone(x, second, 1000.0, 1, 100.0, round);
      UpKeepsOrder(second, y, second);
      OneSecond();
      RenderedMonotone(1.0, Up(y, second), 60.0, 1, 100.0, round);
      DownKeepsOrder(1.0, Rendered(Up(y, second), 60.0, 1, 100.0, round), second);
    }
  }

  lemma OneSecond()
    ensures Up(1_000_000.0, 1_000_000.0) == 1.0 && Down(1.0, 1_000_000.0) == 1_000_000.0
  {
  }

  /** Whole seconds or minutes: half of one either way. */
  lemma TimeSError(n: real, round: real -> int)
    requires Nearest(round)
    ensures n < 51.0 ==> n - 0.5 <= TimeSWorth(n, round) <= n + 0.5
    ensures n >= 51.0 ==> n - 30.0 <= TimeSWorth(n, round) <= n + 30.0
  {
    DisplayedError(n, 1.0, round);
    DisplayedError(Up(n, 60.0), 1.0, round);
  }

  /** The two-decimal formatters: the absolute error of an amount that is not promoted,
      and the relative error of every amount from 0.85 base units on. */
  lemma FormatterErrors(n: real, round: real -> int)
    requires Nearest(round)
    ensures n < 870.4 ==> n - 0.005 <= BinaryWorth(n, round) <= n + 0.005
    ensures n < 850.0 ==> n - 0.005 <= MetricWorth(n, round) <= n + 0.005
    ensures n < 850.0 ==> n - 0.005 <= TimeUsWorth(n, round) <= n + 0.005
    ensures n >= 0.85 ==> n - n / 170.0 <= BinaryWorth(n, round) <= n + n / 170.0
    ensures n >= 0.85 ==> n - n / 170.0 <= MetricWorth(n, round) <= n + n / 170.0
    ensures n >= 0.85 ==> n - n / 170.0 <= TimeUsWorth(n, round) <= n + n / 170.0
  {
    hide Nearest, Rendered, Up, Down;
    RenderedError(n, 1024.0, 4, round);
    RenderedError(n, 1000.0, 4, round);
    RenderedError(n, 1000.0, 1, round);
    if n >= 1_000_000.0 {
      var second := 1_000_000.0;
      OneSecond();
      UpThenDown(n, second);
      UpKeepsOrder(second, n, second);
      RenderedError(Up(n, second), 60.0, 1, round);
      ScaledError(Up(n, second), second, Rendered(Up(n, second), 60.0, 1, 100.0, round));
    }
  }
}
