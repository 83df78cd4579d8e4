/** The parts of the standard string library the scanners and the URL parser use. */
module Text {

  import opened Words

  predicate IsDigit(c: char) {
    '0' <= c <= '9'
  }

  predicate AllDigits(s: string) {
    forall i :: 0 <= i < |s| ==> IsDigit(s[i])
  }

  /** A number as the scanners accept it: one digit or more, leading zeros allowed. */
  predicate IsNumber(s: string) {
    s != "" && AllDigits(s)
  }

  function ValueOf(s: string): nat
    requires AllDigits(s)
  {
    if s == "" then 0 else 10 * ValueOf(s[..|s| - 1]) + (s[|s| - 1] as int - '0' as int)
  }

  /** The decimal printing of a number. */
  function Digits(v: nat): string {
    if v < 10 then [DigitOf(v)] else Digits(v / 10) + [DigitOf(v % 10)]
  }

  function DigitOf(v: nat): (c: char)
    requires v < 10
    ensures IsDigit(c) && c as int - '0' as int == v
  {
    ('0' as int + v) as char
  }

  lemma {:induction false} DigitsAreValue(v: nat)
    ensures IsNumber(Digits(v)) && ValueOf(Digits(v)) == v
  {
    if v < 10 {
    } else {
      DigitsAreValue(v / 10);
      var s := Digits(v);
      assert s[..|s| - 1] == Digits(v / 10);
    }
  }

  /** Parsing an unsigned word whose values are below `size` from a digit string. */
  function ParseNumber(s: string, size: nat): Option<nat>
    requires AllDigits(s)
  {
    if s == "" || ValueOf(s) >= size then None else Some(ValueOf(s))
  }

  /** The length of the longest prefix of digits. */
  function DigitsEnd(s: string): (n: nat)
    ensures n <= |s| && AllDigits(s[..n]) && (n < |s| ==> !IsDigit(s[n]))
  {
    if s != "" && IsDigit(s[0]) then
      assert forall i :: 0 < i < |s| ==> s[1..][i - 1] == s[i];
      1 + DigitsEnd(s[1..])
    else 0
  }

  lemma DigitsEndAt(d: string, u: string)
    requires AllDigits(d) && (u == "" || !IsDigit(u[0]))
    ensures DigitsEnd(d + u) == |d|
    ensures (d + u)[..|d|] == d && (d + u)[|d|..] == u
  {
    var n, t := DigitsEnd(d + u), d + u;
    assert t[..|d|] == d && t[|d|..] == u;
    assert forall i :: 0 <= i < |d| ==> t[i] == d[i];
    assert u != "" ==> t[|d|] == u[0];
    forall i | 0 <= i < n
      ensures IsDigit(t[i])
    {
      assert t[..n][i] == t[i];
    }
  }

  // ---- white space --------------------------------------------------------

  /** The Unicode property White_Space. */
  predicate IsWhitespace(c: char) {
    var n := c as int;
    9 <= n <= 13 || n == 0x20 || n == 0x85 || n == 0xA0 || n == 0x1680 || 0x2000 <= n <= 0x200A
    || n == 0x2028 || n == 0x2029 || n == 0x202F || n == 0x205F || n == 0x3000
  }

  /** The same character by character. */
  lemma WhitespaceList(c: char)
    ensures IsWhitespace(c)
       <==> (c in "\t\n\U{B}\U{C}\r \U{85}\U{A0}\U{1680}\U{2000}\U{2001}\U{2002}\U{2003}\U{2004}\U{2005}\U{2006}"
         || c in "\U{2007}\U{2008}\U{2009}\U{200A}\U{2028}\U{2029}\U{202F}\U{205F}\U{3000}")
  {
  }

  predicate Blank(s: string) {
    forall i :: 0 <= i < |s| ==> IsWhitespace(s[i])
  }

  /** Starts and ends with something to read, or is empty. */
  predicate Tight(s: string) {
    s == "" || (!IsWhitespace(s[0]) && !IsWhitespace(s[|s| - 1]))
  }

  function TrimStart(s: string): string {
    if s != "" && IsWhitespace(s[0]) then TrimStart(s[1..]) else s
  }

  function TrimEnd(s: string): string {
    if s != "" && IsWhitespace(s[|s| - 1]) then TrimEnd(s[..|s| - 1]) else s
  }

  function Trim(s: string): string {
    TrimEnd(TrimStart(s))
  }

  lemma {:induction false} TrimStartSplits(s: string) returns (before: string)
    ensures Blank(before) && s == before + TrimStart(s)
    ensures TrimStart(s) == "" || !IsWhitespace(TrimStart(s)[0])
  {
    before := "";
    if s == "" || !IsWhitespace(s[0]) {
    } else {
      var rest := TrimStartSplits(s[1..]);
      before := [s[0]] + rest;
      assert s == [s[0]] + s[1..];
    }
  }

  lemma {:induction false} TrimEndSplits(s: string) returns (after: string)
    ensures Blank(after) && s == TrimEnd(s) + after
    ensures TrimEnd(s) == "" || !IsWhitespace(TrimEnd(s)[|TrimEnd(s)| - 1])
  {
    after := "";
    if s == "" || !IsWhitespace(s[|s| - 1]) {
    } else {
      var rest := TrimEndSplits(s[..|s| - 1]);
      after := rest + [s[|s| - 1]];
      assert s == s[..|s| - 1] + [s[|s| - 1]];
    }
  }

  lemma {:induction false} TrimStartOf(before: string, t: string)
    requires Blank(before) && (t == "" || !IsWhitespace(t[0]))
    ensures TrimStart(before + t) == t
  {
    if before == "" {
      assert before + t == t;
    } else {
      assert (before + t)[1..] == before[1..] + t;
      TrimStartOf(before[1..], t);
    }
  }

  lemma {:induction false} TrimEndOf(t: string, after: string)
    requires Blank(after) && (t == "" || !IsWhitespace(t[|t| - 1]))
    ensures TrimEnd(t + after) == t
  {
    if after == "" {
      assert t + after == t;
    } else {
      var s := t + after;
      assert s[..|s| - 1] == t + after[..|after| - 1];
      TrimEndOf(t, after[..|after| - 1]);
    }
  }

  /** Trimming takes the white space off both ends, all of it and nothing else. */
  lemma TrimIs(s: string, t: string)
    ensures Trim(s) == t
       <==> Tight(t) && exists before, after :: Blank(before) && Blank(after) && s == before + t + after
  {
    var first := TrimStartSplits(s);
    var last := TrimEndSplits(TrimStart(s));
    assert s == first + Trim(s) + last;
    assert Trim(s) != "" ==> Trim(s)[0] == TrimStart(s)[0];
    if before, after :| Tight(t) && Blank(before) && Blank(after) && s == before + t + after {
      TrimPadded(before, t, after);
    }
  }

  lemma TrimPadded(before: string, t: string, after: string)
    requires Tight(t) && Blank(before) && Blank(after)
    ensures Trim(before + t + after) == t
  {
    if t == "" {
      TrimStartOf(before + t + after, "");
      assert before + t + after + "" == before + t + after;
    } else {
      assert before + t + after == before + (t + after);
      TrimStartOf(before, t + after);
      TrimEndOf(t, after);
    }
  }

  // ---- letters ------------------------------------------------------------

  function LowerChar(c: char): char {
    if 'A' <= c <= 'Z' then (c as int + 32) as char else c
  }

  /** Only the ASCII letters are changed. */
  function Lower(s: string): (r: string)
    ensures |r| == |s| && forall i :: 0 <= i < |s| ==> r[i] == LowerChar(s[i])
  {
    if s == "" then "" else [LowerChar(s[0])] + Lower(s[1..])
  }
}
