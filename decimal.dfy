/**
 * Decimal text of non-negative integers: JavaScript's `String(n)` for an integer
 * `n` from 0 below 2^53, `padStart` with the fill "0", and the reading of a digit string back
 * as a number, which the round-trip lemmas use as the partner of both.
 */
module Decimal {

  predicate IsDigit(c: char) {
    '0' <= c <= '9'
  }

  predicate AllDigits(s: string) {
    forall i :: 0 <= i < |s| ==> IsDigit(s[i])
  }

  function DigitValue(c: char): (d: nat)
    requires IsDigit(c)
    ensures d < 10
  {
    c as int - '0' as int
  }

  function DigitChar(d: nat): (c: char)
    requires d < 10
    ensures IsDigit(c) && DigitValue(c) == d
  {
    ('0' as int + d) as char
  }

  lemma DigitCharOfValue(c: char)
    requires IsDigit(c)
    ensures DigitChar(DigitValue(c)) == c
  {
  }

  /** The number a string of decimal digits denotes, most significant digit first. */
  function DecimalValue(s: string): nat
    requires AllDigits(s)
  {
    if s == [] then 0 else 10 * DecimalValue(s[..|s| - 1]) + DigitValue(s[|s| - 1])
  }

  /** The value of a two-digit string, spelled out. */
  lemma DecimalValueOfTwo(s: string)
    requires |s| == 2 && AllDigits(s)
    ensures DecimalValue(s) == 10 * DigitValue(s[0]) + DigitValue(s[1])
  {
    var p := s[..1];
    assert p == [s[0]] && p[..0] == [];
    assert DecimalValue(p) == DigitValue(s[0]);
  }

  /**
   * `String(n)` for an integer `0 <= n < 2^53`: its shortest decimal text. (From
   * 2^53 JavaScript prints only the shortest round-trip digits, and from 1e21 it
   * uses exponent form; `pad2` only ever gets hours and minutes.)
   */
  function DecimalString(n: nat): (s: string)
    ensures AllDigits(s)
    ensures 1 <= |s|
    ensures |s| == 1 <==> n < 10
    ensures |s| <= 2 <==> n < 100
    ensures |s| > 1 ==> s[0] != '0'
  {
    if n < 10 then [DigitChar(n)] else DecimalString(n / 10) + [DigitChar(n % 10)]
  }

  /** `s.padStart(width, "0")`: zeros are put in front of `s` until it is `width` long. */
  function PadStartZero(s: string, width: nat): (r: string)
    decreases width - |s|
    ensures |r| == if |s| < width then width else |s|
  {
    if |s| >= width then s else PadStartZero("0" + s, width)
  }

  /** Below 100, `String(n)` padded to two places is the tens digit and the units digit. */
  lemma TwoPlaces(n: nat)
    requires n <= 99
    ensures PadStartZero(DecimalString(n), 2) == [DigitChar(n / 10), DigitChar(n % 10)]
  {
    if n < 10 {
      assert n / 10 == 0 && n % 10 == n;
      assert DecimalString(n) == [DigitChar(n)];
    } else {
      assert DecimalString(n / 10) == [DigitChar(n / 10)];
    }
  }

  /** Reading `String(n)` back gives `n`. */
  lemma {:induction false} DecimalStringRoundTrip(n: nat)
    ensures DecimalValue(DecimalString(n)) == n
  {
    if n >= 10 {
      var s := DecimalString(n);
      assert s[..|s| - 1] == DecimalString(n / 10);
      DecimalStringRoundTrip(n / 10);
    }
  }

  /** A zero in front does not change the value of a digit string. */
  lemma {:induction false} LeadingZeroIgnored(s: string)
    requires AllDigits(s)
    ensures AllDigits("0" + s) && DecimalValue("0" + s) == DecimalValue(s)
  {
    var z := "0" + s;
    if s == [] {
      assert z[..|z| - 1] == [];
    } else {
      assert z[..|z| - 1] == "0" + s[..|s| - 1];
      LeadingZeroIgnored(s[..|s| - 1]);
    }
  }

  /** Padding with zeros keeps the string a digit string of the same value. */
  lemma {:induction false} PadStartZeroKeepsValue(s: string, width: nat)
    requires AllDigits(s)
    decreases width - |s|
    ensures AllDigits(PadStartZero(s, width))
    ensures DecimalValue(PadStartZero(s, width)) == DecimalValue(s)
  {
    if |s| < width {
      LeadingZeroIgnored(s);
      PadStartZeroKeepsValue("0" + s, width);
    }
  }
}
