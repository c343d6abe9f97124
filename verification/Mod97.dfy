/**
 * ISO 7064 MOD 97-10 over alphanumeric text: the mathematical definition, the per-character loop
 * that computes it, and exactly which single errors it detects.
 */
module Mod97 {
  import opened Wrappers
  import opened Text
  import opened Numerals

  function CodeOf(c: char): nat
    requires IsAlnum(c)
  {
    if IsDigit(c) then DigitOf(c) else (c - 'A') as nat + 10
  }

  function Width(c: char): nat {
    if IsDigit(c) then 1 else 2
  }

  /** The text with every letter written out as its two-digit number, A = 10 up to Z = 35. */
  function Expansion(s: string): (r: string)
    requires AllAlnum(s)
    ensures AllDigits(r)
  {
    if s == [] then []
    else if IsDigit(s[0]) then [s[0]] + Expansion(s[1..])
    else [DigitChar(CodeOf(s[0]) / 10), DigitChar(CodeOf(s[0]) % 10)] + Expansion(s[1..])
  }

  function Residue(s: string): nat
    requires AllAlnum(s)
  {
    Decimal(Expansion(s)) % 97
  }

  // ----- The expanded numeral, piece by piece -----

  lemma {:induction false} ExpansionConcat(s: string, t: string)
    requires AllAlnum(s) && AllAlnum(t)
    ensures AllAlnum(s + t) && Expansion(s + t) == Expansion(s) + Expansion(t)
  {
    if s == [] {
      assert s + t == t;
    } else {
      ExpansionConcat(s[1..], t);
      assert (s + t)[1..] == s[1..] + t;
    }
  }

  lemma ExpansionOfOne(c: char)
    requires IsAlnum(c)
    ensures AllAlnum([c]) && |Expansion([c])| == Width(c) && Decimal(Expansion([c])) == CodeOf(c)
  {
    assert Expansion([c][1..]) == [];
    if IsDigit(c) {
      assert Expansion([c]) == [c];
    } else {
      var hi, lo := DigitChar(CodeOf(c) / 10), DigitChar(CodeOf(c) % 10);
      assert Expansion([c]) == [hi, lo];
      assert [hi, lo][..1] == [hi] && [hi][..0] == [];
      assert Decimal([hi]) == CodeOf(hi);
    }
  }

  function Number(s: string): nat
    requires AllAlnum(s)
  {
    Decimal(Expansion(s))
  }

  function Digits(s: string): nat
    requires AllAlnum(s)
  {
    |Expansion(s)|
  }

  lemma NumberConcat(s: string, t: string)
    requires AllAlnum(s) && AllAlnum(t)
    ensures AllAlnum(s + t) && Number(s + t) == Number(s) * Pow10(Digits(t)) + Number(t)
    ensures Digits(s + t) == Digits(s) + Digits(t)
  {
    ExpansionConcat(s, t);
    DecimalConcat(Expansion(s), Expansion(t));
  }

  lemma NumberSnoc(s: string, c: char)
    requires AllAlnum(s) && IsAlnum(c)
    ensures AllAlnum(s + [c]) && Number(s + [c]) == Number(s) * (if IsDigit(c) then 10 else 100) + CodeOf(c)
  {
    ExpansionOfOne(c);
    NumberConcat(s, [c]);
    assert Pow10(1) == 10 && Pow10(2) == 100;
  }

  // ----- What the texts denote, read off the alphabet -----

  /** The character of value `k`: a numeral below ten, else a letter. */
  function Symbol(k: nat): char
    requires k < 36
  {
    if k < 10 then NUMERALS[k] else UPPERS[k - 10]
  }

  ghost predicate AreValues(ks: seq<nat>) {
    forall i | 0 <= i < |ks| :: ks[i] < 36
  }

  function Spelt(ks: seq<nat>): (s: string)
    requires AreValues(ks)
    ensures |s| == |ks| && forall i | 0 <= i < |ks| :: s[i] == Symbol(ks[i])
  {
    seq(|ks|, i requires 0 <= i < |ks| => Symbol(ks[i]))
  }

  /** Values written one after the other in decimal: one place below ten, two above. */
  function Reading(ks: seq<nat>): nat {
    if ks == [] then 0
    else Reading(ks[..|ks| - 1]) * (if ks[|ks| - 1] < 10 then 10 else 100) + ks[|ks| - 1]
  }

  lemma CodeOfSymbol(k: nat)
    requires k < 36
    ensures IsAlnum(Symbol(k)) && CodeOf(Symbol(k)) == k
    ensures IsDigit(Symbol(k)) <==> k < 10
    ensures IsUpper(Symbol(k)) <==> k >= 10
  {
    if k < 10 {
      NumeralAt(k);
    } else {
      LetterAt(k - 10);
    }
  }

  /** Every character that the loop takes is one of the 36, and no other is. */
  lemma ValueOfSymbol(c: char) returns (k: nat)
    requires IsAlnum(c)
    ensures k < 36 && c == Symbol(k)
  {
    if IsDigit(c) {
      k := (c - '0') as nat;
      NumeralAt(k);
    } else {
      k := (c - 'A') as nat + 10;
      LetterAt(k - 10);
    }
  }

  /** The number that the check is made on is the text read off the alphabet. */
  lemma {:induction false} NumberIsReading(ks: seq<nat>)
    requires AreValues(ks)
    ensures AllAlnum(Spelt(ks)) && Number(Spelt(ks)) == Reading(ks)
  {
    if ks != [] {
      var n := |ks| - 1;
      NumberIsReading(ks[..n]);
      CodeOfSymbol(ks[n]);
      NumberSnoc(Spelt(ks[..n]), Symbol(ks[n]));
      assert Spelt(ks) == Spelt(ks[..n]) + [Symbol(ks[n])];
    }
  }

  lemma {:induction false} EveryTextIsSpelt(s: string) returns (ks: seq<nat>)
    requires AllAlnum(s)
    ensures AreValues(ks) && s == Spelt(ks)
  {
    ks := [];
    if s != [] {
      var n := |s| - 1;
      var k := ValueOfSymbol(s[n]);
      ks := EveryTextIsSpelt(s[..n]);
      ks := ks + [k];
      assert s == s[..n] + [s[n]];
    }
  }

  // ----- The loop -----

  /** None stands for NaN: the text holds a character outside `[0-9A-Z]`. */
  method ComputeMod97(payload: string) returns (remainder: Option<nat>)
    ensures remainder == if AllAlnum(payload) then Some(Residue(payload)) else None
  {
    var acc := 0;
    for i := 0 to |payload|
      invariant AllAlnum(payload[..i]) && acc == Residue(payload[..i])
    {
      var ch := payload[i];
      if !IsAlnum(ch) {
        return None;
      }
      var digit := CodeOf(ch);
      assert payload[..i + 1] == payload[..i] + [ch];
      NumberSnoc(payload[..i], ch);
      StepMod(Number(payload[..i]), if digit > 9 then 100 else 10, digit);
      acc := (acc * (if digit > 9 then 100 else 10) + digit) % 97;
    }
    assert payload[..|payload|] == payload;
    return Some(acc);
  }

  lemma StepMod(n: nat, factor: nat, digit: nat)
    ensures ((n % 97) * factor + digit) % 97 == (n * factor + digit) % 97
  {
    var q := n / 97;
    assert n == 97 * q + n % 97;
    assert n * factor + digit == 97 * (q * factor) + ((n % 97) * factor + digit);
    ModShift((n % 97) * factor + digit, q * factor);
  }

  lemma ModShift(a: int, k: int)
    ensures (97 * k + a) % 97 == a % 97
  {
  }

  // ----- 97 is prime, and 10 has order 96 modulo 97 -----

  predicate Divides97(n: int) {
    n % 97 == 0
  }

  lemma {:induction false} EuclidFor97(d: int, w: int)
    requires 0 < d < 97 && Divides97(d * w)
    ensures Divides97(w)
    decreases d
  {
    if d > 1 {
      var q, r := 97 / d, 97 % d;
      NoDivisor(d);
      var k := d * w / 97;
      EuclidStep(d, w, k, q, r);
      EuclidFor97(r, w);
    }
  }

  lemma EuclidStep(d: int, w: int, k: int, q: int, r: int)
    requires d * w == 97 * k && 97 == q * d + r
    ensures r * w == 97 * (w - q * k)
  {
    MulAssoc(q, d, w);
    MulAssoc(q, 97, k);
    assert r * w == 97 * w - (q * d) * w;
  }

  lemma NoDivisor(d: int)
    requires 1 < d < 97
    ensures 97 % d != 0
  {
    var q := 97 / d;
    assert 97 == q * d + 97 % d;
    if d >= 10 {
      assert 1 <= q < 10;
      assert 97 % 2 != 0 && 97 % 3 != 0 && 97 % 5 != 0 && 97 % 7 != 0;
    }
  }

  function PowResidue(k: nat): (r: nat)
  {
    Pow10(k) % 97
  }

  lemma ModMul(a: nat, b: nat)
    ensures (a * b) % 97 == ((a % 97) * (b % 97)) % 97
  {
    StepMod(a, b, 0);
    StepMod(b, a % 97, 0);
    assert b * (a % 97) == (a % 97) * b && (b % 97) * (a % 97) == (a % 97) * (b % 97);
  }

  lemma {:induction false} PowSum(a: nat, b: nat)
    ensures Pow10(a + b) == Pow10(a) * Pow10(b)
  {
    if a > 0 {
      PowSum(a - 1, b);
      MulAssoc(10, Pow10(a - 1), Pow10(b));
    }
  }

  lemma MulAssoc(a: int, b: int, c: int)
    ensures (a * b) * c == a * (b * c)
  {
  }

  lemma PowResidueSum(a: nat, b: nat)
    ensures PowResidue(a + b) == PowResidue(a) * PowResidue(b) % 97
  {
    PowSum(a, b);
    ModMul(Pow10(a), Pow10(b));
  }

  lemma OneByDifference(a: nat, b: nat)
    requires a >= b && PowResidue(a) == 1 && PowResidue(b) == 1
    ensures PowResidue(a - b) == 1
  {
    PowResidueSum(a - b, b);
  }

  lemma {:induction false} OneByMultiple(g: nat, m: nat)
    requires PowResidue(g) == 1
    ensures PowResidue(g * m) == 1
  {
    if m > 0 {
      OneByMultiple(g, m - 1);
      assert g * m == g * (m - 1) + g;
      PowResidueSum(g * (m - 1), g);
    }
  }

  /** Exponents giving 1 have a common divisor that gives 1. */
  lemma {:induction false} OneByDivisor(a: nat, b: nat) returns (g: nat, ma: nat, mb: nat)
    requires a > 0 && b > 0 && PowResidue(a) == 1 && PowResidue(b) == 1
    ensures g > 0 && a == g * ma && b == g * mb && PowResidue(g) == 1
    decreases a + b
  {
    if a == b {
      g, ma, mb := a, 1, 1;
    } else if a > b {
      OneByDifference(a, b);
      g, ma, mb := OneByDivisor(a - b, b);
      Distribute(g, ma, mb);
      ma := ma + mb;
    } else {
      OneByDifference(b, a);
      g, ma, mb := OneByDivisor(a, b - a);
      Distribute(g, ma, mb);
      mb := ma + mb;
    }
  }

  lemma Distribute(g: int, a: int, b: int)
    ensures g * a + g * b == g * (a + b)
  {
  }

  lemma SumResidue(a: nat, b: nat, ra: nat, rb: nat)
    requires PowResidue(a) == ra && PowResidue(b) == rb
    ensures PowResidue(a + b) == ra * rb % 97
  {
    PowResidueSum(a, b);
  }

  lemma FourthPower()
    ensures PowResidue(4) == 9
  {
    assert Pow10(4) == 10000;
  }

  /** Residues at 32, 48 and 96, as multiples of `n` = 4. */
  lemma SomePowers(n: nat)
    requires n == 4
    ensures PowResidue(8 * n) == 61 && PowResidue(12 * n) == 96 && PowResidue(24 * n) == 1
  {
    hide PowResidue;
    FourthPower();
    SumResidue(n, n, 9, 9);
    SumResidue(2 * n, 2 * n, 81, 81);
    SumResidue(4 * n, 4 * n, 62, 62);
    SumResidue(8 * n, 4 * n, 61, 62);
    SumResidue(12 * n, 12 * n, 96, 96);
  }

  /** A proper divisor of 96 divides 48 or 32. */
  lemma ProperDivisorOf96(g: nat, m: nat) returns (k: nat)
    requires g * m == 96 && 0 < g < 96
    ensures g * k == 48 || g * k == 32
  {
    if g < 10 {
      k := if g == 3 || g == 6 then 48 / g else 32 / g;
      assert g == 1 || g == 2 || g == 3 || g == 4 || g == 6 || g == 8;
    } else {
      assert m < 10;
      assert m == 2 || m == 3 || m == 4 || m == 6 || m == 8;
      k := if m == 3 then 1 else m / 2;
    }
  }

  lemma NotOneBelow96(r: nat, n: nat)
    requires 0 < r < 96 && n == 4
    ensures PowResidue(r) != 1
  {
    if PowResidue(r) == 1 {
      SomePowers(n);
      var g, mr, m := OneByDivisor(r, 24 * n);
      DivisorAtMost(g, mr, r);
      var k := ProperDivisorOf96(g, m);
      OneByMultiple(g, k);
      assert false;
    }
  }

  lemma PowResidueHasPeriod96(q: nat, r: nat, n: nat)
    requires n == 4
    ensures PowResidue(96 * q + r) == PowResidue(r)
  {
    SomePowers(n);
    OneByMultiple(24 * n, q);
    assert 24 * n * q == 96 * q;
    PowResidueSum(96 * q, r);
  }

  /** 10 has multiplicative order exactly 96 modulo 97. */
  lemma OrderOfTen(k: nat)
    ensures PowResidue(k) == 1 <==> k % 96 == 0
  {
    PowResidueHasPeriod96(k / 96, k % 96, 4);
    assert PowResidue(0) == 1;
    if k % 96 > 0 {
      NotOneBelow96(k % 96, 4);
    }
  }

  lemma DivisorAtMost(g: nat, m: nat, r: nat)
    requires r == g * m && r > 0
    ensures g <= r
  {
    assert m >= 1;
  }

  // ----- Which single errors change the residue -----

  predicate SameClass(a: char, b: char) {
    (IsDigit(a) && IsDigit(b)) || (IsUpper(a) && IsUpper(b))
  }

  function Swapped(s: string, i: nat, j: nat): string
    requires i < j < |s|
  {
    s[i := s[j]][j := s[i]]
  }

  lemma CongruentIff(a: int, b: int)
    ensures a % 97 == b % 97 <==> Divides97(a - b)
  {
    if Divides97(a - b) {
      var k := (a - b) / 97;
      assert a == 97 * k + b;
      ModShift(b, k);
    }
  }

  /** `d` times a power of ten is no multiple of 97, for any difference `d` of two codes. */
  lemma CodeDifferenceSurvives(d: int, n: nat)
    requires d != 0 && -97 < d < 97
    ensures !Divides97(d * Pow10(n))
  {
    if Divides97(d * Pow10(n)) {
      UnitPower(n, d);
      assert false;
    }
  }

  lemma EuclidSigned(d: int, w: int)
    requires d != 0 && -97 < d < 97 && Divides97(d * w)
    ensures Divides97(w)
  {
    if d > 0 {
      EuclidFor97(d, w);
    } else {
      var k := d * w / 97;
      assert (-d) * w == 97 * (-k);
      EuclidFor97(-d, w);
    }
  }

  lemma CodesDiffer(a: char, b: char)
    requires SameClass(a, b) && a != b
    ensures IsAlnum(a) && IsAlnum(b) && CodeOf(b) - CodeOf(a) != 0 && -97 < CodeOf(b) - CodeOf(a) < 97
  {
  }

  lemma Middle(u: string, c: char, v: string)
    requires AllAlnum(u) && IsAlnum(c) && AllAlnum(v)
    ensures AllAlnum(u + [c] + v)
    ensures Number(u + [c] + v) == Number(u) * Pow10(Width(c) + Digits(v)) + CodeOf(c) * Pow10(Digits(v)) + Number(v)
    ensures Digits(u + [c] + v) == Digits(u) + Width(c) + Digits(v)
  {
    ExpansionOfOne(c);
    NumberConcat([c], v);
    NumberConcat(u, [c] + v);
    assert u + [c] + v == u + ([c] + v);
  }

  /** What a substitution adds is no multiple of 97. */
  lemma SubstitutionDivides(u: string, a: char, b: char, v: string)
    requires AllAlnum(u) && AllAlnum(v) && SameClass(a, b) && a != b
    ensures AllAlnum(u + [a] + v) && AllAlnum(u + [b] + v)
    ensures !Divides97(Number(u + [b] + v) - Number(u + [a] + v))
  {
    Middle(u, a, v);
    Middle(u, b, v);
    CodesDiffer(a, b);
    hide Pow10, Divides97, Number, Digits, CodeOf;
    var p: int, ca: int, cb: int := Pow10(Digits(v)), CodeOf(a), CodeOf(b);
    Subtract(cb, ca, p);
    CodeDifferenceSurvives(cb - ca, Digits(v));
  }

  /** Replacing one character by another of its class always changes the residue. */
  lemma SubstitutionChangesResidue(s: string, i: nat, c: char)
    requires AllAlnum(s) && i < |s| && SameClass(s[i], c) && c != s[i]
    ensures AllAlnum(s[i := c]) && Residue(s[i := c]) != Residue(s)
  {
    var u, v := s[..i], s[i + 1..];
    assert s == u + [s[i]] + v && s[i := c] == u + [c] + v;
    SubstitutionDivides(u, s[i], c, v);
    hide Expansion, Decimal, Divides97, SameClass, AllAlnum;
    CongruentIff(Number(s[i := c]), Number(s));
  }

  /**
   * Swapping two unequal characters of one class goes unnoticed exactly when the expanded distance
   * between them is a multiple of 96.
   */
  lemma SwapUnnoticedIff(s: string, i: nat, j: nat)
    requires AllAlnum(s) && i < j < |s| && SameClass(s[i], s[j]) && s[i] != s[j]
    ensures AllAlnum(Swapped(s, i, j)) && AllAlnum(s[i..j])
    ensures Residue(Swapped(s, i, j)) == Residue(s) <==> Digits(s[i..j]) % 96 == 0
  {
    hide Expansion, Decimal, SameClass;
    var t := Swapped(s, i, j);
    AroundTwo(s, i, j);
    AroundTwo(t, i, j);
    SwappedParts(s, i, j);
    BetweenTwo(s, i, j);
    SwapOfParts(s[..i], s[i], s[i + 1..j], s[j], s[j + 1..]);
  }

  /** What the swap adds is a multiple of 97 exactly if the power of ten between the two is one more than such. */
  lemma SwapDivides(u: string, a: char, m: string, b: char, v: string)
    requires AllAlnum(u) && AllAlnum(m) && AllAlnum(v) && SameClass(a, b) && a != b
    ensures AllAlnum([a] + m) && AllAlnum(u + [a] + (m + [b] + v)) && AllAlnum(u + [b] + (m + [a] + v))
    ensures Divides97(Number(u + [b] + (m + [a] + v)) - Number(u + [a] + (m + [b] + v)))
            <==> Divides97(Pow10(Digits([a] + m)) - 1)
  {
    hide Pow10, Divides97, Number, Digits, CodeOf;
    SwapDifference(u, a, m, b, v);
    CodesDiffer(a, b);
    UnitsCancel(CodeOf(b) - CodeOf(a), Pow10(Digits([a] + m)) - 1, Digits(v));
  }

  lemma SwapOfParts(u: string, a: char, m: string, b: char, v: string)
    requires AllAlnum(u) && AllAlnum(m) && AllAlnum(v) && SameClass(a, b) && a != b
    ensures AllAlnum([a] + m) && AllAlnum(u + [a] + (m + [b] + v)) && AllAlnum(u + [b] + (m + [a] + v))
    ensures Residue(u + [b] + (m + [a] + v)) == Residue(u + [a] + (m + [b] + v)) <==> Digits([a] + m) % 96 == 0
  {
    hide Pow10, Divides97, Expansion, Decimal, SameClass, Digits;
    SwapDivides(u, a, m, b, v);
    var d := Digits([a] + m);
    CongruentIff(Number(u + [b] + (m + [a] + v)), Number(u + [a] + (m + [b] + v)));
    CongruentIff(Pow10(d), 1);
    OrderOfTen(d);
  }

  lemma AroundOne(s: string, i: nat)
    requires i < |s|
    ensures s == s[..i] + [s[i]] + s[i + 1..]
  {
  }

  lemma TailParts(s: string, i: nat, j: nat)
    requires i < j < |s|
    ensures var (r, k) := (s[i + 1..], j - i - 1); r[..k] == s[i + 1..j] && r[k] == s[j] && r[k + 1..] == s[j + 1..]
  {
  }

  /** The text around two positions. */
  lemma AroundTwo(s: string, i: nat, j: nat)
    requires i < j < |s|
    ensures s == s[..i] + [s[i]] + (s[i + 1..j] + [s[j]] + s[j + 1..])
  {
    AroundOne(s, i);
    AroundOne(s[i + 1..], j - i - 1);
    TailParts(s, i, j);
  }

  lemma SwappedParts(s: string, i: nat, j: nat)
    requires i < j < |s|
    ensures var t := Swapped(s, i, j);
            |t| == |s| && t[..i] == s[..i] && t[i] == s[j] && t[i + 1..j] == s[i + 1..j] && t[j] == s[i]
            && t[j + 1..] == s[j + 1..]
  {
  }

  lemma BetweenTwo(s: string, i: nat, j: nat)
    requires i < j < |s|
    ensures s[i..j] == [s[i]] + s[i + 1..j]
  {
  }

  lemma SwapDifference(u: string, a: char, m: string, b: char, v: string)
    requires AllAlnum(u) && AllAlnum(m) && AllAlnum(v) && SameClass(a, b)
    ensures AllAlnum([a] + m) && AllAlnum(u + [a] + (m + [b] + v)) && AllAlnum(u + [b] + (m + [a] + v))
    ensures (Number(u + [b] + (m + [a] + v)) - Number(u + [a] + (m + [b] + v)))
         == ((CodeOf(b) - CodeOf(a)) * (Pow10(Digits([a] + m)) - 1)) * Pow10(Digits(v))
  {
    TwoMiddles(u, a, m, b, v);
    TwoMiddles(u, b, m, a, v);
    ExpansionOfOne(a);
    NumberConcat([a], m);
    Factor(CodeOf(a), CodeOf(b), Pow10(Digits(v)), Pow10(Digits([a] + m)));
  }

  /** The number of a text as its two marked characters contribute to it. */
  lemma TwoMiddles(u: string, a: char, m: string, b: char, v: string)
    requires AllAlnum(u) && IsAlnum(a) && AllAlnum(m) && IsAlnum(b) && AllAlnum(v) && Width(a) == Width(b)
    ensures var (s, p, d) := (u + [a] + (m + [b] + v), Pow10(Digits(v)), Digits(m) + Width(a));
            AllAlnum(s) && Number(s) == Number(u) * Pow10(d + Digits(v) + Width(a))
                                        + CodeOf(a) * (Pow10(d) * p)
                                        + (Number(m) * Pow10(Width(a) + Digits(v)) + CodeOf(b) * p + Number(v))
  {
    Middle(m, b, v);
    Middle(u, a, m + [b] + v);
    PowSum(Digits(m) + Width(a), Digits(v));
  }

  lemma Subtract(a: int, b: int, p: int)
    ensures a * p - b * p == (a - b) * p
  {
  }

  lemma UnitsCancel(c: int, x: int, w: nat)
    requires c != 0 && -97 < c < 97
    ensures Divides97((c * x) * Pow10(w)) <==> Divides97(x)
  {
    if Divides97((c * x) * Pow10(w)) {
      UnitPower(w, c * x);
      EuclidSigned(c, x);
    }
    if Divides97(x) {
      MultipleTimes(x, c);
      MultipleTimes(x * c, Pow10(w));
    }
  }

  lemma MultipleTimes(n: int, k: int)
    requires Divides97(n)
    ensures Divides97(n * k)
  {
    var m := n / 97;
    assert n * k == 97 * (m * k);
  }

  lemma Factor(ca: int, cb: int, p: int, q: int)
    ensures (cb * (q * p) + ca * p) - (ca * (q * p) + cb * p) == ((cb - ca) * (q - 1)) * p
  {
  }

  /** A power of ten can be cancelled modulo 97. */
  lemma {:induction false} UnitPower(w: nat, x: int)
    requires Divides97(x * Pow10(w))
    ensures Divides97(x)
  {
    if w > 0 {
      assert x * Pow10(w) == 10 * (x * Pow10(w - 1));
      EuclidFor97(10, x * Pow10(w - 1));
      UnitPower(w - 1, x);
    }
  }
}
