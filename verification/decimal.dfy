/**
 Python's `str()` of an integer (the f-strings at transpiler.py lines 180
 and 185): optional minus sign, then decimal digits without leading zeros,
 together with the reader that takes such text back to the integer.
 */
module Decimal {
  import opened Wrappers

  predicate IsDigit(ch: char) {
    '0' <= ch <= '9'
  }

  predicate AllDigits(s: string) {
    forall i :: 0 <= i < |s| ==> IsDigit(s[i])
  }

  function DigitChar(d: nat): (ch: char)
    requires d < 10
    ensures IsDigit(ch)
  {
    "0123456789"[d]
  }

  function DigitValue(ch: char): (d: nat)
    requires IsDigit(ch)
    ensures d < 10
    ensures DigitChar(d) == ch
  {
    (ch - '0') as nat
  }

  /** Digits of `v` in base ten, most significant first. */
  function NatToDecimal(v: nat): (s: string)
    ensures |s| >= 1
    ensures AllDigits(s)
    ensures |s| > 1 ==> s[0] != '0'
    decreases v
  {
    if v < 10 then [DigitChar(v)]
    else NatToDecimal(v / 10) + [DigitChar(v % 10)]
  }

  /** `str(v)` for a Python int. */
  function IntToDecimal(v: int): (s: string)
    ensures |s| >= 1
    ensures v >= 0 ==> AllDigits(s)
    ensures v < 0 ==> s[0] == '-' && AllDigits(s[1..])
  {
    if v < 0 then "-" + NatToDecimal(-v) else NatToDecimal(v)
  }

  /** The value of a string of decimal digits, most significant first. */
  function ParseDigits(s: string): nat
    requires AllDigits(s)
    decreases |s|
  {
    if |s| == 0 then 0
    else ParseDigits(s[..|s| - 1]) * 10 + DigitValue(s[|s| - 1])
  }

  /** Reads an integer in the form `str` produces; None for any other text. */
  function ParseInt(s: string): Option<int>
  {
    if |s| >= 2 && s[0] == '-' && AllDigits(s[1..]) then
      var magnitude: int := ParseDigits(s[1..]);
      Some(-magnitude)
    else if |s| >= 1 && AllDigits(s) then Some(ParseDigits(s))
    else None
  }

  lemma {:induction false} NatRoundTrip(v: nat)
    ensures ParseDigits(NatToDecimal(v)) == v
    decreases v
  {
    if v >= 10 {
      var s := NatToDecimal(v);
      NatRoundTrip(v / 10);
      assert s[..|s| - 1] == NatToDecimal(v / 10);
    }
  }

  lemma ParseNonNegative(s: string)
    requires |s| >= 1 && AllDigits(s)
    ensures ParseInt(s) == Some(ParseDigits(s) as int)
  {
    assert !IsDigit('-');
    assert s[0] != '-';
  }

  lemma ParseNegative(s: string)
    requires |s| >= 2 && s[0] == '-' && AllDigits(s[1..])
    ensures ParseInt(s) == Some(-(ParseDigits(s[1..]) as int))
  {
  }

  /** Reading back the decimal text of any integer gives that integer. */
  lemma IntRoundTrip(v: int)
    ensures ParseInt(IntToDecimal(v)) == Some(v)
  {
    if v < 0 {
      var m: nat := -v;
      var s := IntToDecimal(v);
      assert s[1..] == NatToDecimal(m);
      NatRoundTrip(m);
      ParseNegative(s);
    } else {
      NatRoundTrip(v);
      ParseNonNegative(IntToDecimal(v));
    }
  }

  /** Distinct integers have distinct decimal texts. */
  lemma IntToDecimalInjective(a: int, b: int)
    ensures IntToDecimal(a) == IntToDecimal(b) ==> a == b
  {
    IntRoundTrip(a);
    IntRoundTrip(b);
  }
}
