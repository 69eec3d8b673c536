/** Text of the numeric keypad buffers and the program's number <-> text
    conversions on it: `parseFloat`, `Number.prototype.toFixed(0)` and
    `Number.prototype.toString`. */
module Keypad {
  import opened Wrappers

  /** The keys of the on-screen keypad (components/NumericKeypad.tsx): ten
      digits and a dot. */
  type Key = c: char | c == '.' || '0' <= c <= '9' witness '0'

  predicate IsDigit(c: char) {
    '0' <= c <= '9'
  }

  function DigitValue(c: char): nat {
    if IsDigit(c) then c as int - '0' as int else 0
  }

  function DigitChar(d: nat): (c: char)
    requires d < 10
    ensures IsDigit(c) && DigitValue(c) == d
  {
    ('0' as int + d) as char
  }

  /** Only digits, as written by `NatToString`. */
  predicate AllDigits(s: string) {
    forall j :: 0 <= j < |s| ==> IsDigit(s[j])
  }

  /** The number of '.' characters in `s`. */
  function CountDots(s: string): nat {
    if |s| == 0 then 0
    else CountDots(s[..|s| - 1]) + (if s[|s| - 1] == '.' then 1 else 0)
  }

  /** `s.includes('.')` holds exactly when `s` has at least one dot. */
  lemma {:induction false} HasDotCount(s: string)
    ensures '.' in s <==> CountDots(s) > 0
  {
    if |s| > 0 {
      var s' := s[..|s| - 1];
      HasDotCount(s');
      assert s == s' + [s[|s| - 1]];
      assert '.' in s <==> '.' in s' || s[|s| - 1] == '.';
    }
  }

  /** Appending one character adds one to the dot count exactly when it is a dot. */
  lemma CountDotsAppend(s: string, c: char)
    ensures CountDots(s + [c]) == CountDots(s) + (if c == '.' then 1 else 0)
  {
    assert (s + [c])[..|s|] == s;
  }

  /** `prev.slice(0, -1)`: the delete key of every keypad buffer. */
  function Backspace(s: string): (r: string)
    ensures |s| == 0 ==> r == s
    ensures |s| > 0 ==> r + [s[|s| - 1]] == s
    ensures CountDots(r) <= CountDots(s)
  {
    if |s| == 0 then s
    else
      assert s == s[..|s| - 1] + [s[|s| - 1]];
      CountDotsAppend(s[..|s| - 1], s[|s| - 1]);
      s[..|s| - 1]
  }

  /** Length of the leading run of digits. */
  function DigitRun(s: string): (n: nat)
    ensures n <= |s|
    ensures forall j :: 0 <= j < n ==> IsDigit(s[j])
    ensures n < |s| ==> !IsDigit(s[n])
  {
    if |s| == 0 || !IsDigit(s[0]) then 0 else 1 + DigitRun(s[1..])
  }

  /** Decimal value of a digit string, most significant digit first. */
  function DigitsValue(s: string): nat {
    if |s| == 0 then 0 else DigitsValue(s[..|s| - 1]) * 10 + DigitValue(s[|s| - 1])
  }

  function Pow10(n: nat): (r: nat)
    ensures r >= 1
  {
    if n == 0 then 1 else 10 * Pow10(n - 1)
  }

  /** The fraction digits after the integer part: the digit run following a
      leading dot, empty when there is no dot or no digit after it. */
  function FractionAfter(rest: string): (f: string)
    ensures AllDigits(f)
    ensures |f| > 0 <==> |rest| >= 2 && rest[0] == '.' && IsDigit(rest[1])
  {
    if |rest| > 0 && rest[0] == '.' then rest[1..][..DigitRun(rest[1..])] else []
  }

  /** The value of fraction digits: 0.d1d2... */
  function FractionValue(f: string): (r: real)
    ensures r >= 0.0
  {
    DigitsValue(f) as real / Pow10(|f|) as real
  }

  /** `parseFloat` on an unsigned numeral: reads the longest prefix of the
      shape digits [ '.' digits ] and is NaN (None) when that prefix holds no
      digit at all, so "" and "." are NaN while "5." is 5. */
  function ParseUnsigned(s: string): (r: Option<real>)
    ensures r.None? <==> DigitRun(s) == 0 && !(|s| >= 2 && s[0] == '.' && IsDigit(s[1]))
    ensures r.Some? ==> r.value >= 0.0
  {
    var w := DigitRun(s);
    var frac := FractionAfter(s[w..]);
    assert w == 0 ==> s[w..] == s;
    if w == 0 && |frac| == 0 then None
    else Some(DigitsValue(s[..w]) as real + FractionValue(frac))
  }

  /** `parseFloat` on the strings this program feeds it: keypad text, and the
      output of `toFixed(0)` and `toString`, which may carry a leading '-'. */
  function ParseNumber(s: string): (r: Option<real>)
    ensures r.Some? && r.value < 0.0 ==> |s| > 0 && s[0] == '-'
    ensures (|s| == 0 || s[0] != '-') ==> r == ParseUnsigned(s)
  {
    if |s| > 0 && s[0] == '-' then
      match ParseUnsigned(s[1..])
      case Some(v) => Some(-v)
      case None => None
    else ParseUnsigned(s)
  }

  /** `parseFloat` on the keypad's edge cases: "" and "." are NaN, a trailing
      dot is ignored and a leading dot starts a fraction. */
  lemma ParseEdgeCases()
    ensures ParseNumber("") == None
    ensures ParseNumber(".") == None
    ensures ParseNumber("5.") == Some(5.0)
    ensures ParseNumber(".5") == Some(0.5)
    ensures ParseNumber("1.2.3") == Some(1.2)
  {
    assert DigitRun("5.") == 1;
    assert DigitRun(".5") == 0 && DigitRun("5") == 1;
    assert "1.2.3"[2..] == "2.3" && DigitRun("2.3") == 1;
    assert DigitRun("1.2.3") == 1;
    assert DigitsValue("12"[..1]) == 1;
  }

  /** The text parses to a number greater than zero, the acceptance test of
      every keypad dialog's confirm. */
  predicate ParsesPositive(s: string) {
    ParseNumber(s).Some? && ParseNumber(s).value > 0.0
  }

  /** Decimal digits of a natural number, without leading zeros. */
  function NatToString(n: nat): (r: string)
    ensures |r| > 0 && AllDigits(r)
    ensures r[0] == '0' ==> n == 0
    ensures DigitsValue(r) == n
  {
    if n < 10 then [DigitChar(n)]
    else
      var r := NatToString(n / 10) + [DigitChar(n % 10)];
      assert r[..|r| - 1] == NatToString(n / 10);
      r
  }

  /** Reading back the digits of a natural number gives that number. */
  lemma ParseNatString(n: nat)
    ensures ParseUnsigned(NatToString(n)) == Some(n as real)
    ensures ParseNumber(NatToString(n)) == Some(n as real)
  {
    var s := NatToString(n);
    assert DigitRun(s) == |s|;
    assert s[..|s|] == s;
  }

  /** Reading back a '-' followed by the digits of a natural number gives its negation. */
  lemma ParseNegNatString(n: nat)
    ensures ParseNumber("-" + NatToString(n)) == Some(-(n as real))
  {
    var s := "-" + NatToString(n);
    assert s[1..] == NatToString(n);
    ParseNatString(n);
  }

  /** Nearest integer to `y`, halves rounded up (the choice of `toFixed`). */
  function RoundHalfUp(y: real): (n: nat)
    requires y >= 0.0
    ensures n as real - 0.5 <= y < n as real + 0.5
  {
    (y + 0.5).Floor
  }

  /** `x.toFixed(0)` for |x| below 10^21: the magnitude rounded to the nearest
      integer, with a '-' in front of negative values ("-0" included). */
  function ToFixed0(x: real): (r: string)
    ensures x >= 0.0 ==> ParseNumber(r) == Some(RoundHalfUp(x) as real)
    ensures x < 0.0 ==> ParseNumber(r) == Some(-(RoundHalfUp(-x) as real))
  {
    if x < 0.0 then
      ParseNegNatString(RoundHalfUp(-x));
      "-" + NatToString(RoundHalfUp(-x))
    else
      ParseNatString(RoundHalfUp(x));
      NatToString(RoundHalfUp(x))
  }

  /** Up to `fuel` decimal digits of a fraction in [0, 1), stopping as soon as
      the rest is zero (so no trailing zeros are written). */
  function FractionDigits(f: real, fuel: nat): (r: string)
    requires 0.0 <= f < 1.0
    ensures AllDigits(r) && |r| <= fuel
    ensures f == 0.0 ==> r == []
    decreases fuel
  {
    if fuel == 0 || f == 0.0 then []
    else
      var d := (f * 10.0).Floor;
      [DigitChar(d)] + FractionDigits(f * 10.0 - d as real, fuel - 1)
  }

  /** `x.toString()` for values between 10^-6 and 10^21 in magnitude (and 0):
      integer part, then the fractional digits if there are any (at most 20). */
  function NumberToString(x: real): (r: string)
    ensures x < 0.0 <==> |r| > 0 && r[0] == '-'
  {
    if x < 0.0 then "-" + MagnitudeToString(-x) else MagnitudeToString(x)
  }

  /** The digits of a non-negative number, as `toString` writes them. */
  function MagnitudeToString(m: real): (r: string)
    requires m >= 0.0
    ensures |r| > 0 && IsDigit(r[0])
    ensures m == m.Floor as real ==> r == NatToString(m.Floor)
  {
    var whole: nat := m.Floor;
    if m == whole as real then NatToString(whole)
    else NatToString(whole) + "." + FractionDigits(m - whole as real, 20)
  }

  /** A whole number survives `toString` followed by `parseFloat`. */
  lemma WholeNumberRoundTrip(x: real)
    requires x == x.Floor as real
    ensures ParseNumber(NumberToString(x)) == Some(x)
  {
    var k := x.Floor;
    if x < 0.0 {
      var whole: nat := -k;
      assert -x == whole as real;
      assert MagnitudeToString(-x) == NatToString(whole);
      ParseNegNatString(whole);
    } else {
      var whole: nat := k;
      assert MagnitudeToString(x) == NatToString(whole);
      ParseNatString(whole);
    }
  }
}
