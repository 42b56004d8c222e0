/**
 * Decimal digit strings and the natural numbers they denote: the reading used
 * by the amount parser and the writing used by `Number.prototype.toString`
 * for the voucher number.
 */
module Numerals {
  import opened Text

  /** Every character of `s` is a decimal digit. */
  predicate AllDigits(s: string) {
    forall k :: 0 <= k < |s| ==> IsDigit(s[k])
  }

  function DigitValue(c: char): (d: nat)
    requires IsDigit(c)
    ensures d < 10
  {
    (c as int) - ('0' as int)
  }

  function DigitChar(d: nat): (c: char)
    requires d < 10
    ensures IsDigit(c) && DigitValue(c) == d
  {
    (('0' as int) + d) as char
  }

  /** `u * 10^k`, written with multiplications by ten only. */
  function Shift(u: int, k: nat): int {
    if k == 0 then u else 10 * Shift(u, k - 1)
  }

  /** Shifting commutes with multiplying by ten. */
  lemma {:induction false} ShiftTimesTen(u: int, k: nat)
    ensures Shift(10 * u, k) == 10 * Shift(u, k)
  {
    if k > 0 {
      ShiftTimesTen(u, k - 1);
    }
  }

  /** The number a string of decimal digits denotes, most significant digit first. */
  function DigitsValue(s: string): nat
    requires AllDigits(s)
  {
    if |s| == 0 then 0
    else 10 * DigitsValue(s[..|s| - 1]) + DigitValue(s[|s| - 1])
  }

  /** The decimal writing of `n`: digits only, no leading zero, never empty. */
  function NatToString(n: nat): (s: string)
    ensures |s| >= 1
  {
    if n < 10 then [DigitChar(n)]
    else NatToString(n / 10) + [DigitChar(n % 10)]
  }

  /** The writing of `n` is made of digits, and has no leading zero. */
  lemma {:induction false} NatToStringDigits(n: nat)
    ensures AllDigits(NatToString(n))
    ensures |NatToString(n)| > 1 ==> NatToString(n)[0] != '0'
  {
    if n >= 10 {
      NatToStringDigits(n / 10);
      var s := NatToString(n);
      assert s[0] == NatToString(n / 10)[0];
      if |NatToString(n / 10)| == 1 {
        assert n / 10 > 0;
      }
    }
  }

  /** Reading back the decimal writing of `n` gives `n`. */
  lemma {:induction false} NatToStringValue(n: nat)
    ensures AllDigits(NatToString(n)) && DigitsValue(NatToString(n)) == n
  {
    NatToStringDigits(n);
    var s := NatToString(n);
    if n >= 10 {
      NatToStringValue(n / 10);
      assert s[..|s| - 1] == NatToString(n / 10);
    }
  }

  /** Two naturals with the same writing are equal: the writing is unambiguous. */
  lemma NatToStringInjective(m: nat, n: nat)
    requires NatToString(m) == NatToString(n)
    ensures m == n
  {
    NatToStringValue(m);
    NatToStringValue(n);
  }

  /** A concatenation of digit strings is a digit string. */
  lemma AllDigitsAppend(a: string, b: string)
    requires AllDigits(a) && AllDigits(b)
    ensures AllDigits(a + b)
  {
    var s := a + b;
    forall k | 0 <= k < |s| ensures IsDigit(s[k]) {
      if k < |a| { assert s[k] == a[k]; } else { assert s[k] == b[k - |a|]; }
    }
  }

  /** The value of a concatenation of digit strings. */
  lemma {:induction false} DigitsValueAppend(a: string, b: string)
    requires AllDigits(a) && AllDigits(b)
    ensures AllDigits(a + b)
    ensures DigitsValue(a + b) == Shift(DigitsValue(a), |b|) + DigitsValue(b)
    decreases |b|
  {
    var s := a + b;
    AllDigitsAppend(a, b);
    if |b| > 0 {
      var b' := b[..|b| - 1];
      assert s[..|s| - 1] == a + b';
      assert s[|s| - 1] == b[|b| - 1];
      DigitsValueAppend(a, b');
      var va, vb', d := DigitsValue(a), DigitsValue(b'), DigitValue(b[|b| - 1]);
      assert DigitsValue(b) == 10 * vb' + d by { assert b[..|b| - 1] == b'; }
      assert DigitsValue(s) == 10 * (Shift(va, |b'|) + vb') + d;
    } else {
      assert s == a;
    }
  }

  /** A string of `n` zero digits. */
  function Zeros(n: nat): (z: string)
    ensures |z| == n
  {
    if n == 0 then "" else Zeros(n - 1) + "0"
  }

  /** Every character of `Zeros(n)` is the digit zero. */
  lemma {:induction false} ZerosSpec(n: nat)
    ensures AllDigits(Zeros(n))
    ensures forall k :: 0 <= k < n ==> Zeros(n)[k] == '0'
  {
    if n > 0 {
      ZerosSpec(n - 1);
      assert forall k :: 0 <= k < n - 1 ==> Zeros(n)[k] == Zeros(n - 1)[k];
    }
  }

  /** Leading zeros do not change the value of a digit string. */
  lemma {:induction false} LeadingZerosValue(n: nat, s: string)
    requires AllDigits(s)
    ensures AllDigits(Zeros(n) + s)
    ensures DigitsValue(Zeros(n) + s) == DigitsValue(s)
  {
    ZerosValue(n);
    DigitsValueAppend(Zeros(n), s);
    ShiftZero(|s|);
  }

  lemma {:induction false} ZerosValue(n: nat)
    ensures AllDigits(Zeros(n)) && DigitsValue(Zeros(n)) == 0
  {
    ZerosSpec(n);
    if n > 0 {
      ZerosValue(n - 1);
      assert Zeros(n)[..n - 1] == Zeros(n - 1);
    }
  }

  lemma {:induction false} ShiftZero(k: nat)
    ensures Shift(0, k) == 0
  {
    if k > 0 {
      ShiftZero(k - 1);
    }
  }
}
