/** Decimal rendering of frame numbers, shared by the renderer (which names
    its output `frame_NNNN.bmp`) and the validator (which looks the frames up
    under the same names). */
module Decimal {

  predicate IsDigit(c: char) { '0' <= c <= '9' }

  function DigitChar(d: nat): (c: char)
    requires d < 10
    ensures IsDigit(c)
  {
    (d + '0' as int) as char
  }

  function DigitValue(c: char): (d: nat)
    requires IsDigit(c)
    ensures d < 10 && DigitChar(d) == c
  {
    c as int - '0' as int
  }

  /** Decimal digits of n without leading zeros (`str(n)` in Python,
      `std::to_string(n)` in C++). */
  function DecimalString(n: nat): string
  {
    if n < 10 then [DigitChar(n)] else DecimalString(n / 10) + [DigitChar(n % 10)]
  }

  /** `str(n)` is a non-empty string of digits without a leading zero. */
  lemma {:induction false} DecimalStringDigits(n: nat)
    ensures 1 <= |DecimalString(n)|
    ensures forall k | 0 <= k < |DecimalString(n)| :: IsDigit(DecimalString(n)[k])
    ensures |DecimalString(n)| > 1 ==> DecimalString(n)[0] != '0'
  {
    if n >= 10 {
      DecimalStringDigits(n / 10);
    }
  }

  /** Value of a string of decimal digits. */
  function ParseDecimal(s: string): nat
    requires forall k | 0 <= k < |s| :: IsDigit(s[k])
  {
    if |s| == 0 then 0 else ParseDecimal(s[..|s| - 1]) * 10 + DigitValue(s[|s| - 1])
  }

  lemma {:induction false} ParseDecimalString(n: nat)
    ensures forall k | 0 <= k < |DecimalString(n)| :: IsDigit(DecimalString(n)[k])
    ensures ParseDecimal(DecimalString(n)) == n
  {
    DecimalStringDigits(n);
    var s := DecimalString(n);
    if n >= 10 {
      ParseDecimalString(n / 10);
      assert s[..|s| - 1] == DecimalString(n / 10);
    }
  }

  /** Number of digits of n: the largest k with 10^(k-1) <= n, or 1. */
  lemma {:induction false} DecimalStringLength(n: nat)
    ensures n < 10 ==> |DecimalString(n)| == 1
    ensures 10 <= n < 100 ==> |DecimalString(n)| == 2
    ensures 100 <= n < 1000 ==> |DecimalString(n)| == 3
    ensures 1000 <= n < 10000 ==> |DecimalString(n)| == 4
    ensures n < 10000 ==> |DecimalString(n)| <= 4
  {
    if n >= 10 {
      DecimalStringLength(n / 10);
    }
  }

  /** `s.zfill(width)` for a string without a sign, and the renderer's
      `while (size < 4) insert(0, "0")` loop: '0' characters are prepended
      until the length reaches `width`. */
  function ZFill(s: string, width: nat): string
    decreases width - |s|
  {
    if |s| < width then ZFill(['0'] + s, width) else s
  }

  /** Padding reaches the width, keeps the string as a suffix and adds only
      zeros in front of it. */
  lemma {:induction false} ZFillShape(s: string, width: nat)
    ensures |ZFill(s, width)| == if |s| < width then width else |s|
    ensures ZFill(s, width) == Zeros(|ZFill(s, width)| - |s|) + s
    decreases width - |s|
  {
    if |s| < width {
      ZFillShape(['0'] + s, width);
      var k := |ZFill(s, width)| - |s|;
      assert Zeros(k - 1) + (['0'] + s) == Zeros(k) + s by {
        assert Zeros(k) == ['0'] + Zeros(k - 1);
      }
    }
  }

  function Zeros(k: nat): (z: string)
    ensures |z| == k && forall i | 0 <= i < k :: z[i] == '0'
  {
    if k == 0 then [] else ['0'] + Zeros(k - 1)
  }

  /** Leading zeros do not change the value. */
  lemma {:induction false} ParseZeros(k: nat, s: string)
    requires forall i | 0 <= i < |s| :: IsDigit(s[i])
    ensures forall i | 0 <= i < |Zeros(k) + s| :: IsDigit((Zeros(k) + s)[i])
    ensures ParseDecimal(Zeros(k) + s) == ParseDecimal(s)
    decreases |s|
  {
    var z := Zeros(k) + s;
    if |s| > 0 {
      var s' := s[..|s| - 1];
      ParseZeros(k, s');
      assert z[..|z| - 1] == Zeros(k) + s';
    } else {
      ZerosParse(k);
      assert z == Zeros(k);
    }
  }

  lemma {:induction false} ZerosParse(k: nat)
    ensures ParseDecimal(Zeros(k)) == 0
  {
    if k > 0 {
      var z := Zeros(k);
      assert z[..k - 1] == Zeros(k - 1) by {
        assert forall i | 0 <= i < k - 1 :: z[i] == '0';
      }
      ZerosParse(k - 1);
    }
  }

  /** Four-digit, zero-padded frame number. */
  function FrameName(i: nat): string
  {
    ZFill(DecimalString(i), 4)
  }

  /** Frame numbers below 10000 get exactly four digits, from which the
      number can be read back, so distinct frames get distinct names. */
  lemma FrameNameRoundTrip(i: nat)
    requires i < 10000
    ensures |FrameName(i)| == 4
    ensures forall k | 0 <= k < 4 :: IsDigit(FrameName(i)[k])
    ensures ParseDecimal(FrameName(i)) == i
  {
    DecimalStringLength(i);
    DecimalStringDigits(i);
    var s := DecimalString(i);
    ZFillShape(s, 4);
    ParseZeros(4 - |s|, s);
    ParseDecimalString(i);
  }

  lemma FrameNameInjective(i: nat, j: nat)
    requires i < 10000 && j < 10000 && i != j
    ensures FrameName(i) != FrameName(j)
  {
    FrameNameRoundTrip(i);
    FrameNameRoundTrip(j);
  }
}
