/** The scanners of the command line: a number, then at most one unit letter. */
module Scanner {

  import opened Text
  import opened Units
  import opened Words

  function CheckedMul(x: nat, y: nat): Option<nat> {
    if x * y < U64_SIZE then Some(x * y) else None
  }

  /** `split_unit`: the leading digits, and two characters of what follows them. */
  function SplitUnit(s: string): (r: (string, string))
    ensures AllDigits(r.0)
  {
    var trimmed := Trim(s);
    var end := DigitsEnd(trimmed);
    (trimmed[..end], FirstTwo(trimmed[end..]))
  }

  function FirstTwo(s: string): string {
    if |s| <= 2 then s else s[..2]
  }

  /** What the ladder of units makes of a value: the unit at position `k` multiplies it
      by `scale` to the power `k + 1`; every multiplication is checked. */
  function Scaled(val: nat, lower: string, mult: nat, scale: nat, units: seq<string>): Option<nat>
    decreases |units|
  {
    if units == [] then None
    else
      match CheckedMul(mult, scale)
      case None => None
      case Some(m) =>
        if lower == Lower(units[0]) then CheckedMul(val, m) else Scaled(val, lower, m, scale, units[1..])
  }

  function Scan(base: string, rest: string, scale: nat, units: seq<string>): Option<nat>
    requires AllDigits(base)
  {
    match ParseNumber(base, U64_SIZE)
    case None => None
    case Some(val) => if rest == "" then Some(val) else Scaled(val, Lower(rest), 1, scale, units)
  }

  /** `scan_units`. */
  method ScanUnits(s: string, scale: nat, units: seq<string>) returns (r: Option<nat>)
    ensures r == Scan(SplitUnit(s).0, SplitUnit(s).1, scale, units)
  {
    var base, rest := SplitUnit(s).0, SplitUnit(s).1;
    var parsed := ParseNumber(base, U64_SIZE);
    if parsed == None {
      return None;
    }
    var val := parsed.value;
    if rest == "" {
      return Some(val);
    }
    var mult := 1;
    var lower := Lower(rest);
    for i := 0 to |units|
      invariant Scaled(val, lower, mult, scale, units[i..]) == Scaled(val, lower, 1, scale, units)
    {
      assert units[i..][1..] == units[i + 1..];
      var product := CheckedMul(mult, scale);
      if product == None {
        return None;
      }
      mult := product.value;
      if lower == Lower(units[i]) {
        return CheckedMul(val, mult);
      }
    }
    return None;
  }

  function ScanMetric(s: string): Option<nat> {
    Scan(SplitUnit(s).0, SplitUnit(s).1, 1000, METRIC_UNITS)
  }

  /** `scan_time`. */
  function ScanTime(s: string): Option<nat> {
    ReadTime(SplitUnit(s).0, SplitUnit(s).1)
  }

  function ReadTime(base: string, rest: string): Option<nat>
    requires AllDigits(base)
  {
    match ParseNumber(base, U64_SIZE)
    case None => None
    case Some(val) =>
      var unit := Lower(rest);
      if unit == "" || unit == "s" then Some(val)
      else if unit == "m" then CheckedMul(val, 60)
      else if unit == "h" then CheckedMul(val, 3600)
      else None
  }

  // ---- the grammar --------------------------------------------------------

  /** What a unit stands for, in either case; nothing else is a unit. */
  function MetricFactor(unit: string): (f: Option<nat>)
    ensures f.Some? ==> |unit| <= 1 && f.value >= 1
  {
    if unit == "" then Some(1)
    else if unit == "k" || unit == "K" then Some(1_000)
    else if unit == "m" || unit == "M" then Some(1_000_000)
    else if unit == "g" || unit == "G" then Some(1_000_000_000)
    else if unit == "t" || unit == "T" then Some(1_000_000_000_000)
    else if unit == "p" || unit == "P" then Some(1_000_000_000_000_000)
    else None
  }

  function TimeFactor(unit: string): (f: Option<nat>)
    ensures f.Some? ==> |unit| <= 1 && f.value >= 1
  {
    if unit == "" || unit == "s" || unit == "S" then Some(1)
    else if unit == "m" || unit == "M" then Some(60)
    else if unit == "h" || unit == "H" then Some(3600)
    else None
  }

  lemma LowerLetter(u: string, c: char)
    requires 'a' <= c <= 'z'
    ensures Lower(u) == [c] <==> u == [c] || u == [(c as int - 32) as char]
  {
    if |u| == 1 {
      assert u == [u[0]];
      assert Lower(u) == [LowerChar(u[0])];
    } else {
      assert |Lower(u)| == |u|;
    }
  }

  /** The ladder of the original is the table of factors. */
  lemma LadderIsTable(val: nat, u: string)
    requires u != ""
    ensures Scaled(val, Lower(u), 1, 1000, METRIC_UNITS)
         == match MetricFactor(u) case None => None case Some(f) => CheckedMul(val, f)
  {
    LowerLetter(u, 'k');
    LowerLetter(u, 'm');
    LowerLetter(u, 'g');
    LowerLetter(u, 't');
    LowerLetter(u, 'p');
    var l := Lower(u);
    LowerUnits();
    LadderStep(val, l, 1_000_000_000_000, METRIC_UNITS[4..]);
    LadderStep(val, l, 1_000_000_000, METRIC_UNITS[3..]);
    LadderStep(val, l, 1_000_000, METRIC_UNITS[2..]);
    LadderStep(val, l, 1_000, METRIC_UNITS[1..]);
    LadderStep(val, l, 1, METRIC_UNITS);
  }

  lemma LowerUnits()
    ensures Lower("k") == "k" && Lower("M") == "m" && Lower("G") == "g" && Lower("T") == "t" && Lower("P") == "p"
  {
  }

  lemma LadderStep(val: nat, lower: string, mult: nat, units: seq<string>)
    requires units != [] && mult * 1000 < U64_SIZE
    ensures Scaled(val, lower, mult, 1000, units)
         == if lower == Lower(units[0]) then CheckedMul(val, mult * 1000)
            else Scaled(val, lower, mult * 1000, 1000, units[1..])
  {
  }

  /** Cutting the suffix off after two characters never changes the answer. */
  lemma TruncationIsHarmless(base: string, rest: string)
    requires AllDigits(base)
    ensures Scan(base, FirstTwo(rest), 1000, METRIC_UNITS) == Scan(base, rest, 1000, METRIC_UNITS)
    ensures ReadTime(base, FirstTwo(rest)) == ReadTime(base, rest)
  {
    if |rest| > 2 {
      LadderIsTable(ValueOf(base), rest);
      LadderIsTable(ValueOf(base), FirstTwo(rest));
    }
  }

  /** `s` is, but for white space around it, a number followed by a unit. */
  predicate Spells(s: string, number: string, unit: string) {
    IsNumber(number) && (unit == "" || !IsDigit(unit[0])) && Trim(s) == number + unit
  }

  predicate MetricReading(s: string, number: string, unit: string, r: nat) {
    Spells(s, number, unit) && MetricFactor(unit).Some? && r == ValueOf(number) * MetricFactor(unit).value
  }

  predicate TimeReading(s: string, number: string, unit: string, r: nat) {
    Spells(s, number, unit) && TimeFactor(unit).Some? && r == ValueOf(number) * TimeFactor(unit).value
  }

  lemma SplitSpelled(s: string, number: string, unit: string)
    requires Spells(s, number, unit)
    ensures SplitUnit(s) == (number, FirstTwo(unit))
  {
    DigitsEndAt(number, unit);
  }

  /** The only way to read a text that starts with a digit. */
  lemma SpellsOneWay(s: string) returns (number: string, unit: string)
    ensures SplitUnit(s).0 != "" ==> Spells(s, number, unit)
  {
    var t := Trim(s);
    number, unit := t[..DigitsEnd(t)], t[DigitsEnd(t)..];
    assert t == number + unit;
  }

  /** The values a scanner may return: the product, if it fits a 64-bit word. */
  lemma ProductFits(val: nat, f: nat)
    requires f >= 1
    ensures val * f < U64_SIZE ==> val < U64_SIZE
  {
    assert val * f >= val;
  }

  lemma MetricSpelled(s: string, number: string, unit: string)
    requires Spells(s, number, unit)
    ensures ScanMetric(s) == match MetricFactor(unit) case None => None case Some(f) => CheckedMul(ValueOf(number), f)
  {
    SplitSpelled(s, number, unit);
    TruncationIsHarmless(number, unit);
    if unit != "" {
      LadderIsTable(ValueOf(number), unit);
    }
    if MetricFactor(unit).Some? {
      ProductFits(ValueOf(number), MetricFactor(unit).value);
    }
  }

  lemma TimeSpelled(s: string, number: string, unit: string)
    requires Spells(s, number, unit)
    ensures ScanTime(s) == match TimeFactor(unit) case None => None case Some(f) => CheckedMul(ValueOf(number), f)
  {
    SplitSpelled(s, number, unit);
    TruncationIsHarmless(number, unit);
    LowerLetter(unit, 's');
    LowerLetter(unit, 'm');
    LowerLetter(unit, 'h');
    if TimeFactor(unit).Some? {
      ProductFits(ValueOf(number), TimeFactor(unit).value);
    }
  }

  /** Exactly the texts made of a number and one unit letter, with white space around,
      are scanned; the result is the product, provided it fits. */
  lemma MetricGrammar(s: string, r: nat)
    ensures ScanMetric(s) == Some(r)
       <==> r < U64_SIZE && exists number, unit :: MetricReading(s, number, unit, r)
  {
    var number, unit := SpellsOneWay(s);
    if SplitUnit(s).0 != "" {
      MetricSpelled(s, number, unit);
      assert ScanMetric(s) == Some(r) ==> MetricReading(s, number, unit, r);
    }
    if d, u :| MetricReading(s, d, u, r) {
      MetricSpelled(s, d, u);
    }
  }

  lemma TimeGrammar(s: string, r: nat)
    ensures ScanTime(s) == Some(r)
       <==> r < U64_SIZE && exists number, unit :: TimeReading(s, number, unit, r)
  {
    var number, unit := SpellsOneWay(s);
    if SplitUnit(s).0 != "" {
      TimeSpelled(s, number, unit);
      assert ScanTime(s) == Some(r) ==> TimeReading(s, number, unit, r);
    }
    if d, u :| TimeReading(s, d, u, r) {
      TimeSpelled(s, d, u);
    }
  }

  /** Scanning what a number prints as, with any unit and any white space around it. */
  lemma ScanPrinted(v: nat, unit: string, before: string, after: string)
    requires Blank(before) && Blank(after)
    ensures MetricFactor(unit).Some? ==>
      ScanMetric(before + (Digits(v) + unit) + after) == CheckedMul(v, MetricFactor(unit).value)
    ensures TimeFactor(unit).Some? ==>
      ScanTime(before + (Digits(v) + unit) + after) == CheckedMul(v, TimeFactor(unit).value)
  {
    hide Digits, ValueOf, Trim, ScanMetric, ScanTime, CheckedMul;
    DigitsAreValue(v);
    if MetricFactor(unit).Some? || TimeFactor(unit).Some? {
      UnitIsLetter(unit);
      PrintedSpells(Digits(v), unit, before, after);
      hide MetricFactor, TimeFactor, Spells;
      var s := before + (Digits(v) + unit) + after;
      if MetricFactor(unit).Some? {
        MetricSpelled(s, Digits(v), unit);
      }
      if TimeFactor(unit).Some? {
        TimeSpelled(s, Digits(v), unit);
      }
    }
  }

  lemma UnitIsLetter(unit: string)
    requires MetricFactor(unit).Some? || TimeFactor(unit).Some?
    ensures unit == "" || (|unit| == 1 && !IsWhitespace(unit[0]) && !IsDigit(unit[0]))
  {
  }

  lemma PrintedSpells(number: string, unit: string, before: string, after: string)
    requires IsNumber(number) && Blank(before) && Blank(after)
    requires unit == "" || (|unit| == 1 && !IsWhitespace(unit[0]) && !IsDigit(unit[0]))
    ensures Spells(before + (number + unit) + after, number, unit)
  {
    var t := number + unit;
    assert t[0] == number[0];
    assert t[|t| - 1] == if unit == "" then number[|number| - 1] else unit[0];
    hide Trim, Blank;
    TrimPadded(before, t, after);
  }
}
