/** Decimal numerals: the number a digit string denotes, and printing numbers back as digits. */
module Numerals {
  import opened Text

  function DigitOf(c: char): (d: nat)
    requires IsDigit(c)
    ensures d < 10
  {
    (c - '0') as nat
  }

  function DigitChar(d: nat): (c: char)
    requires d < 10
    ensures IsDigit(c) && DigitOf(c) == d
  {
    '0' + d as char
  }

  /** The number a string of decimal digits denotes. */
  function Decimal(s: string): nat
    requires AllDigits(s)
  {
    if s == [] then 0 else Decimal(s[..|s| - 1]) * 10 + DigitOf(s[|s| - 1])
  }

  function Pow10(n: nat): (r: nat)
    ensures r >= 1
  {
    if n == 0 then 1 else 10 * Pow10(n - 1)
  }

  function Pow2(n: nat): (r: nat)
    ensures r >= 1
  {
    if n == 0 then 1 else 2 * Pow2(n - 1)
  }

  lemma {:induction false} Pow2Sum(a: nat, b: nat)
    ensures Pow2(a + b) == Pow2(a) * Pow2(b)
  {
    if a > 0 {
      Pow2Sum(a - 1, b);
      assert 2 * (Pow2(a - 1) * Pow2(b)) == 2 * Pow2(a - 1) * Pow2(b);
    }
  }

  lemma {:induction false} DecimalConcat(s: string, t: string)
    requires AllDigits(s) && AllDigits(t)
    ensures AllDigits(s + t) && Decimal(s + t) == Decimal(s) * Pow10(|t|) + Decimal(t)
    decreases t
  {
    if t == [] {
      assert s + t == s;
    } else {
      var n := |t| - 1;
      DecimalConcat(s, t[..n]);
      assert (s + t)[..|s + t| - 1] == s + t[..n];
      Regroup(Decimal(s), Pow10(n), Decimal(t[..n]), DigitOf(t[n]));
    }
  }

  lemma Regroup(a: int, p: int, b: int, c: int)
    ensures (a * p + b) * 10 + c == a * (10 * p) + (b * 10 + c)
  {
  }

  lemma {:induction false} DecimalBound(s: string)
    requires AllDigits(s)
    ensures Decimal(s) < Pow10(|s|)
  {
    if s != [] {
      DecimalBound(s[..|s| - 1]);
    }
  }

  /** The last `width` digits of `n`. */
  function Padded(n: nat, width: nat): (s: string)
    ensures |s| == width && AllDigits(s)
  {
    if width == 0 then [] else Padded(n / 10, width - 1) + [DigitChar(n % 10)]
  }

  lemma {:induction false} DecimalOfPadded(n: nat, width: nat)
    requires n < Pow10(width)
    ensures Decimal(Padded(n, width)) == n
  {
    if width > 0 {
      DecimalOfPadded(n / 10, width - 1);
      var s := Padded(n, width);
      assert s[..|s| - 1] == Padded(n / 10, width - 1);
    }
  }

  lemma {:induction false} PaddedOfDecimal(s: string)
    requires AllDigits(s)
    ensures Padded(Decimal(s), |s|) == s
  {
    if s != [] {
      var n := |s| - 1;
      PaddedOfDecimal(s[..n]);
      assert Decimal(s) / 10 == Decimal(s[..n]) && Decimal(s) % 10 == DigitOf(s[n]);
      assert DigitChar(DigitOf(s[n])) == s[n];
      assert s == s[..n] + [s[n]];
    }
  }

  /** The digits of `n` without leading zeros. */
  function Printed(n: nat): (s: string)
    ensures s != [] && AllDigits(s)
  {
    (if n < 10 then [] else Printed(n / 10)) + [DigitChar(n % 10)]
  }

  lemma DecimalSnoc(s: string, c: char)
    requires AllDigits(s) && IsDigit(c)
    ensures AllDigits(s + [c]) && Decimal(s + [c]) == Decimal(s) * 10 + DigitOf(c)
  {
    assert (s + [c])[..|s|] == s;
  }

  lemma {:induction false} DecimalOfPrinted(n: nat)
    ensures Decimal(Printed(n)) == n
  {
    if n < 10 {
      DecimalSnoc([], DigitChar(n));
    } else {
      var stem := Printed(n / 10);
      DecimalOfPrinted(n / 10);
      DecimalSnoc(stem, DigitChar(n % 10));
      assert n == n / 10 * 10 + n % 10;
    }
  }
}
