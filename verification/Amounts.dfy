/** Amount cells of an import file: decimal text to integer cents through floating point. */
module Amounts {
  import opened Wrappers
  import opened Text
  import opened Numerals

  /** `raw.replace(/[\s']/g, "")` */
  function StripMarks(raw: string): string {
    if raw == [] then []
    else if IsSpace(raw[0]) || raw[0] == '\'' then StripMarks(raw[1..])
    else [raw[0]] + StripMarks(raw[1..])
  }

  predicate IsSeparator(c: char) {
    c == '.' || c == ','
  }

  /** Where the first separator is; the length if there is none. */
  function SeparatorAt(s: string): (i: nat)
    ensures i <= |s| && forall k | 0 <= k < i :: !IsSeparator(s[k])
    ensures i < |s| ==> IsSeparator(s[i])
  {
    if s == [] || IsSeparator(s[0]) then 0 else 1 + SeparatorAt(s[1..])
  }

  predicate IsNegative(s: string) {
    s != [] && s[0] == '-'
  }

  function Unsigned(s: string): string {
    if IsNegative(s) then s[1..] else s
  }

  function Whole(s: string): string {
    Unsigned(s)[..SeparatorAt(Unsigned(s))]
  }

  function Fraction(s: string): string {
    var body := Unsigned(s);
    if SeparatorAt(body) == |body| then [] else body[SeparatorAt(body) + 1..]
  }

  /** `^-?\d+(?:[.,]\d{1,2})?$` */
  predicate IsAmount(s: string) {
    var body := Unsigned(s);
    && Whole(s) != [] && AllDigits(Whole(s)) && AllDigits(Fraction(s)) && |Fraction(s)| <= 2
    && (SeparatorAt(body) < |body| ==> Fraction(s) != [])
  }

  /** The rational number the text denotes, with either separator. */
  function Value(s: string): real
    requires IsAmount(s)
  {
    var magnitude := Decimal(Whole(s)) as real + Decimal(Fraction(s)) as real / Pow10(|Fraction(s)|) as real;
    if IsNegative(s) then -magnitude else magnitude
  }

  // ----- Which texts are amounts, and what they denote -----

  /** White space and apostrophes do not matter, wherever they stand. */
  lemma {:induction false} MarksDoNotMatter(u: string, c: char, v: string)
    requires c as int in {9, 10, 11, 12, 13, 32} || c == '\''
    ensures StripMarks(u + [c] + v) == StripMarks(u + v)
  {
    if u == "" {
      assert (u + [c] + v)[1..] == v && u + v == v;
    } else {
      assert (u + [c] + v)[1..] == u[1..] + [c] + v && (u + v)[1..] == u[1..] + v;
      MarksDoNotMatter(u[1..], c, v);
    }
  }

  /** Nothing, or a point or a comma and one or two digits. */
  predicate IsCentsPart(rest: string) {
    rest == "" || (2 <= |rest| <= 3 && (rest[0] == '.' || rest[0] == ',') && AllDigits(rest[1..]))
  }

  function Written(negative: bool, whole: string, rest: string): string {
    (if negative then "-" else "") + whole + rest
  }

  lemma WrittenParts(negative: bool, whole: string, rest: string)
    requires whole != "" && AllDigits(whole) && IsCentsPart(rest)
    ensures var s := Written(negative, whole, rest);
            IsNegative(s) == negative && Whole(s) == whole && Fraction(s) == (if rest == "" then "" else rest[1..])
            && IsAmount(s)
  {
    var s, body := Written(negative, whole, rest), whole + rest;
    assert s == (if negative then "-" else "") + body;
    assert IsDigit(whole[0]) && body[0] == whole[0];
    assert Unsigned(s) == body;
    if rest == "" {
      assert body == whole;
      assert SeparatorAt(body) == |body|;
    } else {
      assert body == whole + [rest[0]] + rest[1..];
      SeparatorIsAt(whole, rest[0], rest[1..]);
    }
    assert body[..|whole|] == whole;
  }

  /** An amount is a sign or none, digits, and nothing or a separator with one or two digits. */
  lemma AmountIff(s: string)
    ensures IsAmount(s) <==> exists negative, whole, rest |
              whole != "" && AllDigits(whole) && IsCentsPart(rest) :: s == Written(negative, whole, rest)
  {
    if IsAmount(s) {
      var (body, k) := (Unsigned(s), SeparatorAt(Unsigned(s)));
      assert s == (if IsNegative(s) then "-" else "") + body && body == body[..k] + body[k..];
      assert IsCentsPart(body[k..]) by {
        assert k < |body| ==> body[k..][1..] == Fraction(s);
      }
      assert s == Written(IsNegative(s), Whole(s), body[k..]);
    }
    forall negative, whole, rest | whole != "" && AllDigits(whole) && IsCentsPart(rest) && s == Written(negative, whole, rest)
      ensures IsAmount(s)
    {
      WrittenParts(negative, whole, rest);
    }
  }

  /** It denotes the digits before the separator, and those after it as tenths or hundredths. */
  lemma AmountDenotes(negative: bool, whole: string, rest: string)
    requires whole != "" && AllDigits(whole) && IsCentsPart(rest)
    ensures var (s, major) := (Written(negative, whole, rest), Decimal(whole) as real);
            var magnitude := if rest == "" then major
                             else if |rest| == 2 then major + Decimal(rest[1..]) as real / 10.0
                             else major + Decimal(rest[1..]) as real / 100.0;
            IsAmount(s) && Value(s) == if negative then -magnitude else magnitude
  {
    WrittenParts(negative, whole, rest);
    ValueOfParts(Written(negative, whole, rest));
    assert Decimal("") == 0;
    hide Written, IsAmount, IsNegative, Whole, Fraction, Decimal, Value;
  }

  lemma ValueOfParts(s: string)
    requires IsAmount(s)
    ensures var (major, minor) := (Decimal(Whole(s)) as real, Decimal(Fraction(s)) as real);
            var magnitude := if |Fraction(s)| == 2 then major + minor / 100.0
                             else if |Fraction(s)| == 1 then major + minor / 10.0 else major + minor;
            Value(s) == if IsNegative(s) then -magnitude else magnitude
  {
    hide IsAmount, IsNegative, Whole, Fraction, Decimal;
    var n := |Fraction(s)|;
    assert n == 0 || n == 1 || n == 2 by {
      FractionIsShort(s);
    }
    if n == 0 {
      assert Pow10(0) == 1;
    } else if n == 1 {
      assert Pow10(1) == 10;
    } else {
      assert Pow10(2) == 100;
    }
  }

  lemma FractionIsShort(s: string)
    requires IsAmount(s)
    ensures |Fraction(s)| <= 2
  {
  }

  function Abs(x: real): real {
    if x < 0.0 then -x else x
  }

  /** Binary64 rounding: every result is within relative error 2^-53 of the exact one. */
  ghost predicate RoundsToNearest(fl: real -> real) {
    forall x :: Abs(fl(x) - x) * 9007199254740992.0 <= Abs(x)
  }

  /** The double m / 2^p, with a 53-bit mantissa, is the only one within half a unit of x. */
  predicate IsNearestDouble(x: real, m: int, p: nat) {
    4503599627370496 < m < 9007199254740992 && -0.5 < x * Pow2(p) as real - m as real < 0.5
  }

  /** Binary64 rounding away from ties. */
  ghost predicate RoundsCorrectly(fl: real -> real) {
    forall x, m, p | IsNearestDouble(x, m, p) :: fl(x) == m as real / Pow2(p) as real
  }

  /** `Math.round`: to the nearest integer, halves upwards. */
  function Round(x: real): int {
    (x + 0.5).Floor
  }

  /** The two roundings of `Math.round(Number(text) * 100)`; None is INVALID_CUSTOM_AMOUNT. */
  function ParseAmount(fl: real -> real, raw: string): Option<int> {
    var cleaned := StripMarks(raw);
    if !IsAmount(cleaned) then None else Some(Round(fl(fl(Value(cleaned)) * 100.0)))
  }

  // ----- The two roundings never reach the next cent -----

  /** An accepted text denotes a whole number of cents. */
  lemma ValueIsWholeCents(s: string) returns (cents: int)
    requires IsAmount(s)
    ensures Value(s) * 100.0 == cents as real
    ensures cents == (if IsNegative(s) then -1 else 1) *
                     (Decimal(Whole(s)) * 100 + Decimal(Fraction(s)) * (if |Fraction(s)| == 1 then 10 else 1))
  {
    var whole, fraction := Decimal(Whole(s)), Decimal(Fraction(s));
    assert Pow10(0) == 1 && Pow10(1) == 10 && Pow10(2) == 100;
    assert Fraction(s) == [] ==> fraction == 0;
    var magnitude: int := whole * 100 + fraction * (if |Fraction(s)| == 1 then 10 else 1);
    cents := if IsNegative(s) then -magnitude else magnitude;
  }

  lemma IsWholeCents(s: string) returns (cents: int)
    requires IsAmount(s)
    ensures Value(s) * 100.0 == cents as real
  {
    hide IsAmount, Value;
    cents := ValueIsWholeCents(s);
  }

  lemma TwoRoundings(v: real, major: real, product: real, cents: int)
    requires v * 100.0 == cents as real && -2251799813685248 < cents < 2251799813685248
    requires Abs(major - v) * 9007199254740992.0 <= Abs(v)
    requires Abs(product - major * 100.0) * 9007199254740992.0 <= Abs(major * 100.0)
    ensures Round(product) == cents
  {
    assert Abs(product - cents as real) < 0.5;
  }

  lemma BoundOnCents(v: real, cents: int)
    requires v * 100.0 == cents as real && Abs(v * 100.0) < 2251799813685248.0
    ensures -2251799813685248 < cents < 2251799813685248
  {
  }

  lemma ReadsCents(fl: real -> real, v: real, cents: int)
    requires RoundsToNearest(fl)
    requires v * 100.0 == cents as real && -2251799813685248 < cents < 2251799813685248
    ensures Round(fl(fl(v) * 100.0)) == cents
  {
    TwoRoundings(v, fl(v), fl(fl(v) * 100.0), cents);
  }

  /** Every accepted cell below 2^51 cents is read exactly. */
  lemma AmountIsExact(fl: real -> real, raw: string)
    requires RoundsToNearest(fl) && IsAmount(StripMarks(raw))
    requires Abs(Value(StripMarks(raw)) * 100.0) < 2251799813685248.0
    ensures ParseAmount(fl, raw).Some?
    ensures ParseAmount(fl, raw).value as real == Value(StripMarks(raw)) * 100.0
  {
    hide *;
    var s := StripMarks(raw);
    var cents := IsWholeCents(s);
    ParsedIsRounded(fl, raw);
    BoundOnCents(Value(s), cents);
    ReadsCents(fl, Value(s), cents);
  }

  lemma ParsedIsRounded(fl: real -> real, raw: string)
    requires IsAmount(StripMarks(raw))
    ensures ParseAmount(fl, raw) == Some(Round(fl(fl(Value(StripMarks(raw))) * 100.0)))
  {
    hide IsAmount, Value;
  }

  // ----- Printing and reading back -----

  function Magnitude(n: int): nat {
    if n < 0 then -n else n
  }

  /** `major.cc` or `major,cc` */
  function PrintedAmount(cents: int, separator: char): string {
    (if cents < 0 then "-" else "") + Printed(Magnitude(cents) / 100) + [separator] + Padded(Magnitude(cents) % 100, 2)
  }

  lemma SeparatorIsAt(whole: string, separator: char, rest: string)
    requires AllDigits(whole) && IsSeparator(separator)
    ensures SeparatorAt(whole + [separator] + rest) == |whole|
  {
    var s := whole + [separator] + rest;
    assert s[|whole|] == separator;
    assert forall k | 0 <= k < |whole| :: s[k] == whole[k] && !IsSeparator(s[k]);
  }

  lemma PrintedParts(cents: int, separator: char)
    requires IsSeparator(separator)
    ensures var s := PrintedAmount(cents, separator);
            && IsNegative(s) == (cents < 0)
            && Whole(s) == Printed(Magnitude(cents) / 100)
            && Fraction(s) == Padded(Magnitude(cents) % 100, 2)
            && IsAmount(s)
  {
    var s := PrintedAmount(cents, separator);
    var whole, fraction := Printed(Magnitude(cents) / 100), Padded(Magnitude(cents) % 100, 2);
    var body := whole + [separator] + fraction;
    assert s == (if cents < 0 then "-" else "") + body;
    assert IsDigit(whole[0]) && body[0] == whole[0];
    assert Unsigned(s) == body;
    SeparatorIsAt(whole, separator, fraction);
    assert body[..|whole|] == whole && body[|whole| + 1..] == fraction;
  }

  lemma PrintedValue(cents: int, separator: char)
    requires IsSeparator(separator)
    ensures var s := PrintedAmount(cents, separator); IsAmount(s) && Value(s) * 100.0 == cents as real
  {
    var s := PrintedAmount(cents, separator);
    var n := Magnitude(cents);
    PrintedParts(cents, separator);
    DecimalOfPrinted(n / 100);
    assert Pow10(2) == 100;
    DecimalOfPadded(n % 100, 2);
    hide IsAmount, Value, PrintedAmount, Pow10, Decimal;
    var read := ValueIsWholeCents(s);
    assert read == cents;
  }

  /** Printed cents, with any spaces and thousands marks thrown in, read back as the same cents. */
  lemma PrintThenParse(fl: real -> real, cents: int, separator: char, raw: string)
    requires RoundsToNearest(fl) && IsSeparator(separator)
    requires -2251799813685248 < cents < 2251799813685248
    requires StripMarks(raw) == PrintedAmount(cents, separator)
    ensures ParseAmount(fl, raw) == Some(cents)
  {
    hide *;
    PrintedValue(cents, separator);
    ParsedIsRounded(fl, raw);
    ReadsCents(fl, Value(PrintedAmount(cents, separator)), cents);
  }

  lemma {:induction false} StripMarksKeeps(s: string)
    requires forall i | 0 <= i < |s| :: !IsSpace(s[i]) && s[i] != '\''
    ensures StripMarks(s) == s
  {
    if s != [] {
      StripMarksKeeps(s[1..]);
    }
  }

  /** The printed text itself is such a cell. */
  lemma PrintedHasNoMarks(cents: int, separator: char)
    requires IsSeparator(separator)
    ensures StripMarks(PrintedAmount(cents, separator)) == PrintedAmount(cents, separator)
  {
    StripMarksKeeps(PrintedAmount(cents, separator));
  }
}
