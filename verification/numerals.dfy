/** Decimal rendering (`str(i)`, `str.zfill`) and the integer parser used to read file indices back. */
module Numerals {
  import opened Common

  predicate IsDigit(c: char) {
    '0' <= c <= '9'
  }

  predicate AllDigits(s: string) {
    forall k :: 0 <= k < |s| ==> IsDigit(s[k])
  }

  function DigitChar(d: nat): (c: char)
    requires d < 10
    ensures IsDigit(c)
  {
    ['0', '1', '2', '3', '4', '5', '6', '7', '8', '9'][d]
  }

  function DigitValue(c: char): nat
    requires IsDigit(c)
  {
    (c as int - '0' as int) as nat
  }

  /** The value of a string of decimal digits, most significant first. */
  function DigitsValue(s: string): nat
    requires AllDigits(s)
  {
    if s == [] then 0 else DigitsValue(s[..|s| - 1]) * 10 + DigitValue(s[|s| - 1])
  }

  /** `str(n)` for a natural number: no leading zeros, at least one digit. */
  function NatToStr(n: nat): (s: string)
    ensures |s| >= 1 && AllDigits(s)
  {
    if n < 10 then [DigitChar(n)] else NatToStr(n / 10) + [DigitChar(n % 10)]
  }

  /** `str(i)` for a Python int. */
  function IntToStr(i: int): (s: string)
    ensures |s| >= 1
    ensures s[0] == '-' <==> i < 0
  {
    if i < 0 then "-" + NatToStr(-i) else NatToStr(i)
  }

  function Zeros(k: nat): (s: string)
    ensures |s| == k && AllDigits(s)
    ensures forall j :: 0 <= j < k ==> s[j] == '0'
  {
    if k == 0 then [] else Zeros(k - 1) + ['0']
  }

  /** `s.zfill(width)`: left-pads with zeros to `width`, keeping a leading sign in front. */
  function ZFill(s: string, width: nat): (r: string)
    ensures |r| == if |s| >= width then |s| else width
  {
    if |s| >= width then s
    else if |s| > 0 && (s[0] == '+' || s[0] == '-') then [s[0]] + Zeros(width - |s|) + s[1..]
    else Zeros(width - |s|) + s
  }

  /**
   * `int(s)` restricted to an optional sign followed by one or more ASCII digits
   * (leading zeros allowed); anything else is the `ValueError` case.
   */
  function ParseInt(s: string): Option<int> {
    if |s| > 0 && (s[0] == '-' || s[0] == '+') then
      var body := s[1..];
      if |body| > 0 && AllDigits(body) then
        var magnitude: int := DigitsValue(body);
        Some(if s[0] == '-' then -magnitude else magnitude)
      else None
    else if |s| > 0 && AllDigits(s) then Some(DigitsValue(s))
    else None
  }

  lemma {:induction false} NatToStrValue(n: nat)
    ensures DigitsValue(NatToStr(n)) == n
  {
    if n >= 10 {
      NatToStrValue(n / 10);
      var s := NatToStr(n);
      assert s[..|s| - 1] == NatToStr(n / 10);
    }
  }

  lemma {:induction false} ZerosValue(k: nat)
    ensures DigitsValue(Zeros(k)) == 0
  {
    if k > 0 {
      ZerosValue(k - 1);
      assert Zeros(k)[..k - 1] == Zeros(k - 1);
    }
  }

  /** Leading zeros do not change the value of a digit string. */
  lemma {:induction false} LeadingZerosValue(k: nat, s: string)
    requires AllDigits(s)
    ensures AllDigits(Zeros(k) + s)
    ensures DigitsValue(Zeros(k) + s) == DigitsValue(s)
  {
    if s == [] {
      assert Zeros(k) + s == Zeros(k);
      ZerosValue(k);
    } else {
      var init := s[..|s| - 1];
      LeadingZerosValue(k, init);
      var z := Zeros(k) + s;
      assert z[..|z| - 1] == Zeros(k) + init;
    }
  }

  /** `int(str(i).zfill(w))` gives back `i` for every integer and width. */
  lemma ZFillRoundTrip(i: int, width: nat)
    ensures ParseInt(ZFill(IntToStr(i), width)) == Some(i)
  {
    if i < 0 {
      NegativeRoundTrip(i, width);
    } else {
      NonNegativeRoundTrip(i, width);
    }
  }

  lemma NegativeRoundTrip(i: int, width: nat)
    requires i < 0
    ensures ParseInt(ZFill(IntToStr(i), width)) == Some(i)
  {
    var padded := NegativeParts(i, width);
  }

  /** The padded rendering of a negative number is a minus sign and digits that parse back. */
  lemma NegativeParts(i: int, width: nat) returns (padded: string)
    requires i < 0
    ensures ZFill(IntToStr(i), width) == "-" + padded
    ensures ParseInt("-" + padded) == Some(i)
  {
    var n: nat := -i;
    padded := PadTo(NatToStr(n), width - 1);
    NegativeRendering(i, width);
    NegatedPadded(n, width - 1);
  }

  /** A minus sign before the padded digits of `n` parses to `-n`. */
  lemma NegatedPadded(n: nat, w: int)
    ensures ParseInt("-" + PadTo(NatToStr(n), w)) == Some(-(n as int))
  {
    var padded := PadTo(NatToStr(n), w);
    PaddedMagnitude(n, w);
    ParseSigned(padded);
  }

  /** Padding the digits of `n` with zeros keeps a digit string of value `n`. */
  lemma PaddedMagnitude(n: nat, w: int)
    ensures var padded := PadTo(NatToStr(n), w);
      |padded| > 0 && AllDigits(padded) && DigitsValue(padded) == n
  {
    var digits := NatToStr(n);
    assert DigitsValue(digits) == n by {
      NatToStrValue(n);
    }
    PadValue(digits, w);
  }

  /** Digits left-padded with zeros to `w` characters. */
  function PadTo(d: string, w: int): string {
    if |d| >= w then d else Zeros(w - |d|) + d
  }

  lemma PadValue(d: string, w: int)
    requires |d| > 0 && AllDigits(d)
    ensures |PadTo(d, w)| > 0 && AllDigits(PadTo(d, w))
    ensures DigitsValue(PadTo(d, w)) == DigitsValue(d)
  {
    if |d| < w {
      LeadingZerosValue(w - |d|, d);
    }
  }

  /** A negative number is rendered as a minus sign and its padded digits. */
  lemma NegativeRendering(i: int, width: nat)
    requires i < 0
    ensures ZFill(IntToStr(i), width) == "-" + PadTo(NatToStr(-i), width - 1)
  {
    var digits := NatToStr(-i);
    var s := "-" + digits;
    assert IntToStr(i) == s;
    assert s[0] == '-' && s[1..] == digits;
  }

  /** A minus sign followed by digits parses to the negated value of the digits. */
  lemma ParseSigned(body: string)
    requires |body| > 0 && AllDigits(body)
    ensures var v: int := DigitsValue(body); ParseInt("-" + body) == Some(-v)
  {
    var s := "-" + body;
    assert s[0] == '-' && s[1..] == body;
  }

  lemma NonNegativeRoundTrip(i: int, width: nat)
    requires i >= 0
    ensures ParseInt(ZFill(IntToStr(i), width)) == Some(i)
  {
    var padded := PadTo(NatToStr(i), width);
    NonNegativeRendering(i, width);
    PaddedMagnitude(i, width);
    ParseUnsigned(padded);
  }

  /** A non-negative number is rendered as its digits, padded. */
  lemma NonNegativeRendering(i: int, width: nat)
    requires i >= 0
    ensures ZFill(IntToStr(i), width) == PadTo(NatToStr(i), width)
  {
    var digits := NatToStr(i);
    assert IntToStr(i) == digits;
    assert IsDigit(digits[0]);
  }

  /** A non-empty run of digits parses to its value. */
  lemma ParseUnsigned(s: string)
    requires |s| > 0 && AllDigits(s)
    ensures ParseInt(s) == Some(DigitsValue(s))
  {
    assert IsDigit(s[0]);
  }

  /** The rendering of an index consists only of digits and a possible minus sign. */
  lemma ZFillChars(i: int, width: nat)
    ensures forall k :: 0 <= k < |ZFill(IntToStr(i), width)| ==>
      IsDigit(ZFill(IntToStr(i), width)[k]) || ZFill(IntToStr(i), width)[k] == '-'
  {
    var s := IntToStr(i);
    assert forall k :: 0 <= k < |s| ==> IsDigit(s[k]) || s[k] == '-';
  }
}
