/** Decimal numerals, as printed by %u and read by strtold. */
module Decimal {
  import opened Wrappers

  predicate IsDigit(c: char) {
    '0' <= c <= '9'
  }

  predicate AllDigits(s: string) {
    forall i :: 0 <= i < |s| ==> IsDigit(s[i])
  }

  function DigitChar(d: nat): (c: char)
    requires d < 10
    ensures IsDigit(c) && DigitValue(c) == d
  {
    '0' + d as char
  }

  function DigitValue(c: char): nat
    requires IsDigit(c)
  {
    (c - '0') as nat
  }

  function Numeral(n: nat): (s: string)
    ensures s != "" && AllDigits(s)
  {
    if n < 10 then [DigitChar(n)] else Numeral(n / 10) + [DigitChar(n % 10)]
  }

  function NumberOf(s: string): nat
    requires AllDigits(s)
  {
    if s == "" then 0 else NumberOf(s[..|s| - 1]) * 10 + DigitValue(s[|s| - 1])
  }

  lemma {:induction false} NumeralReadsBack(n: nat)
    ensures NumberOf(Numeral(n)) == n
  {
    var s := Numeral(n);
    if n < 10 {
      assert s[..0] == "";
    } else {
      NumeralReadsBack(n / 10);
      assert s[..|s| - 1] == Numeral(n / 10);
    }
  }

  /** The length of the digits at the front. */
  function DigitRun(s: string): (k: nat)
    ensures k <= |s| && AllDigits(s[..k]) && (k < |s| ==> !IsDigit(s[k]))
  {
    if s == "" || !IsDigit(s[0]) then 0
    else
      var k := DigitRun(s[1..]);
      assert s[..k + 1] == [s[0]] + s[1..][..k];
      k + 1
  }

  lemma {:induction false} RunOfDigits(d: string, rest: string)
    requires AllDigits(d) && (rest != "" ==> !IsDigit(rest[0]))
    ensures DigitRun(d + rest) == |d|
  {
    if d == "" {
      assert d + rest == rest;
    } else {
      RunOfDigits(d[1..], rest);
      assert (d + rest)[1..] == d[1..] + rest;
    }
  }

  function Pow10(k: nat): (p: nat)
    ensures p > 0
  {
    if k == 0 then 1 else 10 * Pow10(k - 1)
  }

  /** The value of digits, a point and digits. */
  function DecimalOf(whole: string, fraction: string): real
    requires AllDigits(whole) && AllDigits(fraction)
  {
    NumberOf(whole) as real + NumberOf(fraction) as real / Pow10(|fraction|) as real
  }

  /** Digits and a fraction, as an exact real; None when there is no digit. */
  function ParseUnsigned(t: string): Option<real> {
    var k := DigitRun(t);
    var f := if k < |t| && t[k] == '.' then DigitRun(t[k + 1..]) else 0;
    if k + f == 0 then None
    else Some(DecimalOf(t[..k], if f == 0 then "" else t[k + 1..][..f]))
  }

  function ParseReal(s: string): Option<real> {
    if s != "" && s[0] == '-' then
      match ParseUnsigned(s[1..])
      case None => None
      case Some(v) => Some(-v)
    else ParseUnsigned(if s != "" && s[0] == '+' then s[1..] else s)
  }

  /** A character a number cannot go on with: no digit, point, exponent or hexadecimal sign. */
  predicate EndsNumber(c: char) {
    !IsDigit(c) && c !in ".eExX"
  }

  /** A numeral is read as its number, whatever comes after its end. */
  lemma ParseNumeral(n: nat, rest: string)
    requires rest != "" ==> EndsNumber(rest[0])
    ensures ParseReal(Numeral(n) + rest) == Some(n as real)
  {
    var s := Numeral(n) + rest;
    RunOfDigits(Numeral(n), rest);
    NumeralReadsBack(n);
    assert s[..|Numeral(n)|] == Numeral(n);
    assert IsDigit(s[0]);
    NoFraction(Numeral(n));
  }

  lemma NoFraction(whole: string)
    requires AllDigits(whole)
    ensures DecimalOf(whole, "") == NumberOf(whole) as real
  {
  }

  /** After a sign or none comes a digit, or a point and a digit. */
  predicate StartsNumber(s: string) {
    var i := if s != "" && s[0] in "+-" then 1 else 0;
    i < |s| && ('0' <= s[i] <= '9' || (s[i] == '.' && i + 1 < |s| && '0' <= s[i + 1] <= '9'))
  }

  lemma NumbersStart(s: string)
    ensures ParseReal(s).Some? <==> StartsNumber(s)
  {
    var t := if s != "" && s[0] in "+-" then s[1..] else s;
    UnsignedStarts(t);
  }

  lemma UnsignedStarts(t: string)
    ensures ParseUnsigned(t).Some? <==>
            t != "" && ('0' <= t[0] <= '9' || (t[0] == '.' && |t| > 1 && '0' <= t[1] <= '9'))
  {
  }

  /** A decimal is read as its sign says, and its digits after the point. */
  lemma ParseDecimal(sign: string, whole: string, fraction: string, rest: string, t: string)
    requires sign in ["", "+", "-"] && AllDigits(whole) && AllDigits(fraction) && whole + fraction != ""
    requires rest != "" ==> EndsNumber(rest[0])
    requires t == whole + ("." + (fraction + rest))
    ensures ParseReal(sign + t) == Some(if sign == "-" then -DecimalOf(whole, fraction) else DecimalOf(whole, fraction))
  {
    UnsignedDecimal(whole, fraction, rest, t);
    FirstOfDecimal(whole, "." + (fraction + rest), t);
    SignedDecimal(sign, t, DecimalOf(whole, fraction));
  }

  lemma FirstOfDecimal(whole: string, rest: string, t: string)
    requires AllDigits(whole) && rest != "" && rest[0] == '.' && t == whole + rest
    ensures t != "" && t[0] !in "+-"
  {
    assert t[0] == if whole == "" then '.' else whole[0];
  }

  /** The value of a decimal is that of all its digits, scaled by those after the point. */
  lemma DecimalIsScaled(whole: string, fraction: string, v: real, scale: nat)
    requires AllDigits(whole) && AllDigits(fraction)
    requires v == DecimalOf(whole, fraction) && scale == Pow10(|fraction|)
    ensures v * scale as real == NumberOf(whole + fraction) as real
  {
    NumberOfConcat(whole, fraction);
    Scaled(NumberOf(whole), NumberOf(fraction), scale, NumberOf(whole + fraction), v);
  }

  lemma Scaled(n: nat, m: nat, p: nat, t: nat, v: real)
    requires p > 0 && t == n * p + m && v == n as real + m as real / p as real
    ensures v * p as real == t as real
  {
    assert m as real / p as real * p as real == m as real;
  }

  lemma {:induction false} NumberOfConcat(whole: string, fraction: string)
    requires AllDigits(whole) && AllDigits(fraction)
    ensures NumberOf(whole + fraction) == NumberOf(whole) * Pow10(|fraction|) + NumberOf(fraction)
  {
    if fraction == "" {
      assert whole + fraction == whole;
    } else {
      var k := |fraction| - 1;
      var init, s := fraction[..k], whole + fraction;
      assert s[..|s| - 1] == whole + init;
      NumberOfConcat(whole, init);
      OneMoreDigit(NumberOf(whole), Pow10(k), NumberOf(init), DigitValue(fraction[k]));
    }
  }

  lemma OneMoreDigit(n: nat, p: nat, m: nat, d: nat)
    ensures (n * p + m) * 10 + d == n * (10 * p) + (m * 10 + d)
  {
  }

  lemma SignedDecimal(sign: string, t: string, v: real)
    requires sign in ["", "+", "-"] && t != "" && t[0] !in "+-" && ParseUnsigned(t) == Some(v)
    ensures ParseReal(sign + t) == Some(if sign == "-" then -v else v)
  {
    var s := sign + t;
    if sign == "" {
      assert s == t;
    } else {
      assert s[0] == sign[0] && s[1..] == t;
    }
  }

  lemma UnsignedDecimal(whole: string, fraction: string, rest: string, t: string)
    requires AllDigits(whole) && AllDigits(fraction) && whole + fraction != ""
    requires rest != "" ==> EndsNumber(rest[0])
    requires t == whole + ("." + (fraction + rest))
    ensures ParseUnsigned(t) == Some(DecimalOf(whole, fraction))
  {
    var k, f := |whole|, |fraction|;
    RunOfDigits(whole, "." + (fraction + rest));
    RunOfDigits(fraction, rest);
    assert t[..k] == whole && t[k + 1..] == fraction + rest && t[k + 1..][..f] == fraction;
  }
}
