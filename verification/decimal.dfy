/**
 * Decimal rendering of non-negative integers, as JavaScript's `String(n)`
 * produces it, and `padStart` with a one-character fill. `DecimalValue`
 * reads a digit string back; every rendering is proved to be inverted by it.
 */
module Decimal {

  predicate IsDigit(c: char) {
    '0' <= c <= '9'
  }

  predicate AllDigits(s: string) {
    forall i :: 0 <= i < |s| ==> IsDigit(s[i])
  }

  function DigitValue(c: char): (d: nat)
    requires IsDigit(c)
    ensures d < 10
  {
    c as int - '0' as int
  }

  function DigitChar(d: nat): (c: char)
    requires d < 10
    ensures IsDigit(c) && DigitValue(c) == d
  {
    ('0' as int + d) as char
  }

  /** The number a string of decimal digits denotes (most significant first). */
  function DecimalValue(s: string): nat
    requires AllDigits(s)
  {
    if s == [] then 0 else DecimalValue(s[..|s| - 1]) * 10 + DigitValue(s[|s| - 1])
  }

  /** 10^k: at least 1, and at least 10 once k is positive. */
  function Pow10(k: nat): (p: nat)
    ensures p >= 1 && (k >= 1 ==> p >= 10)
  {
    if k == 0 then 1 else 10 * Pow10(k - 1)
  }

  /** `String(n)` for a non-negative integer: no sign, no leading zero. */
  function NatToString(n: nat): (s: string)
    ensures 1 <= |s| && AllDigits(s)
    ensures DecimalValue(s) == n
    ensures |s| > 1 ==> s[0] != '0'
  {
    if n < 10 then
      [DigitChar(n)]
    else
      var t := NatToString(n / 10);
      var s := t + [DigitChar(n % 10)];
      assert s[..|s| - 1] == t;
      s
  }

  /** A number in [10^(k-1), 10^k) is written with exactly k digits. */
  lemma {:induction false} NatToStringLength(n: nat, k: nat)
    requires 1 <= k
    requires (k == 1 && n < 10) || (k > 1 && Pow10(k - 1) <= n < Pow10(k))
    ensures |NatToString(n)| == k
  {
    if k > 1 {
      assert Pow10(k - 1) == 10 * Pow10(k - 2);
      assert n >= 10;
      assert Pow10(k - 2) <= n / 10 < Pow10(k - 1);
      NatToStringLength(n / 10, k - 1);
    }
  }

  /** JavaScript's `s.padStart(width, fill)` for a one-character fill. */
  function PadStart(s: string, width: nat, fill: char): (r: string)
    ensures |r| == if |s| >= width then |s| else width
    ensures r[|r| - |s|..] == s
    ensures forall i :: 0 <= i < |r| - |s| ==> r[i] == fill
  {
    if |s| >= width then s else seq(width - |s|, _ => fill) + s
  }

  /** `String(n).padStart(2, '0')`. */
  function Pad2(n: nat): (s: string)
    ensures n < 100 ==> s == [DigitChar(n / 10), DigitChar(n % 10)]
    ensures n < 100 ==> AllDigits(s) && DecimalValue(s) == n
    ensures n >= 100 ==> s == NatToString(n)
  {
    Pad2Cases(n);
    PadStart(NatToString(n), 2, '0')
  }

  lemma Pad2Cases(n: nat)
    ensures n < 100 ==> PadStart(NatToString(n), 2, '0') == [DigitChar(n / 10), DigitChar(n % 10)]
    ensures n < 100 ==> DecimalValue([DigitChar(n / 10), DigitChar(n % 10)]) == n
    ensures n >= 100 ==> PadStart(NatToString(n), 2, '0') == NatToString(n)
  {
    if n < 10 {
      assert NatToString(n) == [DigitChar(n)];
      assert DigitChar(0) == '0';
      assert PadStart(NatToString(n), 2, '0') == ['0'] + [DigitChar(n)];
    } else {
      assert NatToString(n) == NatToString(n / 10) + [DigitChar(n % 10)];
      if n < 100 {
        assert NatToString(n / 10) == [DigitChar(n / 10)];
      }
    }
    if n < 100 {
      DigitPairValue(n / 10, n % 10);
    }
  }

  lemma DigitPairValue(a: nat, b: nat)
    requires a < 10 && b < 10
    ensures DecimalValue([DigitChar(a), DigitChar(b)]) == 10 * a + b
  {
    var s := [DigitChar(a), DigitChar(b)];
    assert s[..1] == [DigitChar(a)];
    assert DecimalValue([DigitChar(a)]) == a by {
      assert [DigitChar(a)][..0] == [];
    }
    assert DecimalValue(s) == DecimalValue(s[..1]) * 10 + DigitValue(s[1]);
  }
}
