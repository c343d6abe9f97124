/** QRR: the recursive modulo-10 check digit over 26 digits. */
module Qrr {
  import opened Wrappers
  import opened Text
  import opened Numerals

  const CARRY_TABLE: seq<seq<nat>> := [
    [0, 9, 4, 6, 8, 2, 7, 1, 3, 5],
    [9, 4, 6, 8, 2, 7, 1, 3, 5, 0],
    [4, 6, 8, 2, 7, 1, 3, 5, 0, 9],
    [6, 8, 2, 7, 1, 3, 5, 0, 9, 4],
    [8, 2, 7, 1, 3, 5, 0, 9, 4, 6],
    [2, 7, 1, 3, 5, 0, 9, 4, 6, 8],
    [7, 1, 3, 5, 0, 9, 4, 6, 8, 2],
    [1, 3, 5, 0, 9, 4, 6, 8, 2, 7],
    [3, 5, 0, 9, 4, 6, 8, 2, 7, 1],
    [5, 0, 9, 4, 6, 8, 2, 7, 1, 3]]

  const CHECK_DIGIT_TABLE: seq<nat> := [0, 9, 8, 7, 6, 5, 4, 3, 2, 1]

  /** The first row, which the others rotate. */
  function Row(i: nat): nat
    requires i < 10
  {
    if i == 0 then 0 else if i == 1 then 9 else if i == 2 then 4 else if i == 3 then 6 else if i == 4 then 8
    else if i == 5 then 2 else if i == 6 then 7 else if i == 7 then 1 else if i == 8 then 3 else 5
  }

  /** Carry plus digit, modulo 10. */
  function Column(carry: nat, digit: nat): (r: nat)
    requires carry < 10 && digit < 10
    ensures r < 10
  {
    if carry + digit < 10 then carry + digit else carry + digit - 10
  }

  /** Annex B's recursion: the next carry depends on carry plus digit modulo 10 only. */
  function Next(carry: nat, digit: nat): (r: nat)
    requires carry < 10 && digit < 10
    ensures r < 10
  {
    Row(Column(carry, digit))
  }

  function Carry(s: string): (r: nat)
    requires AllDigits(s)
    ensures r < 10
  {
    if s == [] then 0 else Next(Carry(s[..|s| - 1]), DigitOf(s[|s| - 1]))
  }

  /** What is missing to the next multiple of 10. */
  function Complement(carry: nat): (d: nat)
    requires carry < 10
    ensures d < 10
  {
    if carry == 0 then 0 else 10 - carry
  }

  function CheckDigit(s: string): (d: nat)
    requires AllDigits(s)
    ensures d < 10
  {
    Complement(Carry(s))
  }

  lemma ColumnIsModulo10(carry: nat, digit: nat)
    requires carry < 10 && digit < 10
    ensures Column(carry, digit) == (carry + digit) % 10 && Complement(carry) == (10 - carry) % 10
  {
  }

  lemma TableIsNext(carry: nat, digit: nat)
    requires carry < 10 && digit < 10
    ensures |CARRY_TABLE[carry]| == 10 && CARRY_TABLE[carry][digit] == Next(carry, digit)
  {
    if carry < 5 {
      assert carry == 0 || carry == 1 || carry == 2 || carry == 3 || carry == 4;
    } else {
      assert carry == 5 || carry == 6 || carry == 7 || carry == 8 || carry == 9;
    }
  }

  lemma CheckTableIsComplement(carry: nat)
    requires carry < 10
    ensures CHECK_DIGIT_TABLE[carry] == Complement(carry)
  {
  }

  predicate IsQrr(s: string) {
    |s| == 27 && AllDigits(s) && DigitOf(s[26]) == CheckDigit(s[..26])
  }

  method CarryOver(s: string) returns (carry: nat)
    requires |s| >= 26 && AllDigits(s)
    ensures carry == Carry(s[..26])
  {
    carry := 0;
    for i := 0 to 26
      invariant carry == Carry(s[..i])
    {
      var digit := DigitOf(s[i]);
      TableIsNext(carry, digit);
      assert s[..i + 1][..i] == s[..i];
      carry := CARRY_TABLE[carry][digit];
    }
  }

  method IsValidQrr(input: string) returns (valid: bool)
    ensures valid <==> IsQrr(WithoutSpaces(input))
  {
    var ref := WithoutSpaces(input);
    if !(|ref| == 27 && AllDigits(ref)) {
      return false;
    }
    var carry := CarryOver(ref);
    CheckTableIsComplement(carry);
    var expected := CHECK_DIGIT_TABLE[carry];
    return expected == DigitOf(ref[26]);
  }

  /** None when the body is not exactly 26 digits. */
  method ComputeQrr(body: string) returns (r: Option<string>)
    ensures r == if |body| == 26 && AllDigits(body) then Some(body + [DigitChar(CheckDigit(body))]) else None
  {
    if !(|body| == 26 && AllDigits(body)) {
      return None;
    }
    var carry := CarryOver(body);
    assert body[..26] == body;
    CheckTableIsComplement(carry);
    var check := CHECK_DIGIT_TABLE[carry];
    return Some(body + [DigitChar(check)]);
  }

  /** Accepted strings are the generated ones. */
  lemma ValidIffComputed(s: string)
    requires |s| == 27 && AllDigits(s)
    ensures IsQrr(s) <==> s == s[..26] + [DigitChar(CheckDigit(s[..26]))]
  {
    assert s == s[..26] + [s[26]];
    assert DigitChar(DigitOf(s[26])) == s[26];
  }

  /** The check digit is the one that carries the recursion back to 0. */
  lemma ValidIffCarriesToZero(s: string)
    requires |s| == 27 && AllDigits(s)
    ensures IsQrr(s) <==> Carry(s) == 0
  {
  }

  function Zeros(k: nat): string {
    seq(k, _ => '0')
  }

  /** Leading zeros, which fill a shorter reference up to 26 digits, do not matter. */
  lemma {:induction false} LeadingZerosDoNotMatter(k: nat, s: string)
    requires AllDigits(s)
    ensures AllDigits(Zeros(k) + s) && CheckDigit(Zeros(k) + s) == CheckDigit(s) && Carry(Zeros(k) + s) == Carry(s)
    decreases k + |s|
  {
    var t := Zeros(k) + s;
    if s != [] {
      LeadingZerosDoNotMatter(k, s[..|s| - 1]);
      assert t[..|t| - 1] == Zeros(k) + s[..|s| - 1];
    } else if k > 0 {
      LeadingZerosDoNotMatter(k - 1, []);
      assert t[..|t| - 1] == Zeros(k - 1) + [];
    } else {
      assert t == s;
    }
  }

  /** So the reference that is all zeros is valid. */
  lemma ZeroIsValid()
    ensures IsQrr(Zeros(27))
  {
    LeadingZerosDoNotMatter(27, []);
    assert Zeros(27) + [] == Zeros(27);
    ValidIffCarriesToZero(Zeros(27));
  }

  // ----- Error detection -----

  lemma RowInjective(x: nat, y: nat)
    requires x < 10 && y < 10
    ensures Row(x) == Row(y) <==> x == y
  {
  }

  lemma NextInjective(c: nat, c': nat, d: nat, d': nat)
    requires c < 10 && c' < 10 && d < 10 && d' < 10
    ensures c == c' ==> (Next(c, d) == Next(c', d') <==> d == d')
    ensures d == d' ==> (Next(c, d) == Next(c', d') <==> c == c')
  {
    RowInjective(Column(c, d), Column(c', d'));
  }

  /** Different carries never meet again over the same digits. */
  lemma {:induction false} CarriesStayApart(s: string, t: string, k: nat)
    requires k <= |s| == |t| && AllDigits(s) && AllDigits(t)
    requires forall i | k <= i < |s| :: s[i] == t[i]
    ensures Carry(s) == Carry(t) <==> Carry(s[..k]) == Carry(t[..k])
    decreases |s| - k
  {
    if k == |s| {
      assert s[..k] == s && t[..k] == t;
    } else {
      CarriesStayApart(s, t, k + 1);
      assert s[..k + 1][..k] == s[..k] && t[..k + 1][..k] == t[..k];
      NextInjective(Carry(s[..k]), Carry(t[..k]), DigitOf(s[k]), DigitOf(t[k]));
    }
  }

  lemma CarryParts(s: string, i: nat, c: char)
    requires AllDigits(s) && i < |s| && IsDigit(c) && c != s[i]
    ensures AllDigits(s[i := c]) && Carry(s[i := c][..i + 1]) != Carry(s[..i + 1])
  {
    var t := s[i := c];
    assert s[..i + 1][..i] == s[..i] == t[..i + 1][..i];
    NextInjective(Carry(s[..i]), Carry(s[..i]), DigitOf(s[i]), DigitOf(c));
  }

  lemma SubstitutionDetected(s: string, i: nat, c: char)
    requires IsQrr(s) && i < 27 && IsDigit(c) && c != s[i]
    ensures !IsQrr(s[i := c])
  {
    ValidIffCarriesToZero(s);
    CarryParts(s, i, c);
    ValidIffCarriesToZero(s[i := c]);
    CarriesStayApart(s, s[i := c], i + 1);
  }

  predicate ConfusedPair(x: nat, y: nat) {
    (x == 4 && y == 7) || (x == 7 && y == 4)
  }

  /** The one pair of columns that a swap of neighbours can confuse. */
  lemma SwapTable(c: nat, a: nat, b: nat)
    requires c < 10 && a < 10 && b < 10 && a != b
    ensures Next(Next(c, a), b) == Next(Next(c, b), a) <==> ConfusedPair(Column(c, a), Column(c, b))
  {
    var x, y := Column(c, a), Column(c, b);
    RowInjective(Column(Row(x), b), Column(Row(y), a));
    SwapShift(Row(x), Row(y), c, a, b);
    RowDifferences(x, y);
  }

  lemma SwapShift(m: nat, n: nat, c: nat, a: nat, b: nat)
    requires m < 10 && n < 10 && c < 10 && a < 10 && b < 10
    ensures Column(m, b) == Column(n, a) <==> Column(m, Column(c, b)) == Column(n, Column(c, a))
  {
  }

  lemma RowDifferences(x: nat, y: nat)
    requires x < 10 && y < 10 && x != y
    ensures Column(Row(x), y) == Column(Row(y), x) <==> ConfusedPair(x, y)
  {
  }

  lemma CarrySplit(s: string, i: nat)
    requires AllDigits(s) && i < |s|
    ensures Carry(s[..i + 1]) == Next(Carry(s[..i]), DigitOf(s[i]))
  {
    assert s[..i + 1][..i] == s[..i];
  }

  /** Swapping unequal neighbours, check digit included, goes unnoticed in exactly these cases. */
  lemma AdjacentSwapUnnoticedIff(s: string, i: nat)
    requires IsQrr(s) && i < 26 && s[i] != s[i + 1]
    ensures var c := Carry(s[..i]);
            IsQrr(s[i := s[i + 1]][i + 1 := s[i]])
            <==> ConfusedPair(Column(c, DigitOf(s[i])), Column(c, DigitOf(s[i + 1])))
  {
    hide Carry, Next, Column, Row, ConfusedPair;
    var t := s[i := s[i + 1]][i + 1 := s[i]];
    ValidIffCarriesToZero(s);
    ValidIffCarriesToZero(t);
    CarriesStayApart(s, t, i + 2);
    CarrySplit(s, i + 1);
    CarrySplit(s, i);
    CarrySplit(t, i + 1);
    CarrySplit(t, i);
    assert t[..i] == s[..i];
    SwapTable(Carry(s[..i]), DigitOf(s[i]), DigitOf(s[i + 1]));
  }
}
