/** IBAN and SCOR: normalisation, shape and the rotated MOD 97-10 check. */
module References {
  import opened Wrappers
  import opened Text
  import opened Numerals
  import opened Mod97

  function Normalise(input: string): string {
    Upper(WithoutSpaces(input))
  }

  function Rotated(s: string): string
    requires |s| >= 4
  {
    s[4..] + s[..4]
  }

  /** `^[A-Z]{2}[0-9]{2}[A-Z0-9]+$` with the overall length bounds of ISO 13616. */
  predicate IbanShape(s: string) {
    5 <= |s| <= 34 && IsUpper(s[0]) && IsUpper(s[1]) && IsDigit(s[2]) && IsDigit(s[3]) && AllAlnum(s)
  }

  /** What ISO 13616 asks: the expanded number of the rotated text leaves remainder 1. */
  predicate IsIban(s: string) {
    IbanShape(s) && Residue(Rotated(s)) == 1
  }

  method IsValidIban(input: string) returns (valid: bool)
    ensures valid <==> IsIban(Normalise(input))
  {
    var iban := Normalise(input);
    if |iban| < 5 || |iban| > 34 {
      return false;
    }
    if !IbanShape(iban) {
      return false;
    }
    var rotated := iban[4..] + iban[..4];
    var remainder := ComputeMod97(rotated);
    return remainder == Some(1);
  }

  // ----- Which texts are IBANs, read off the alphabet -----

  /** Two letters, two check digits and one to thirty more characters, by their values. */
  ghost predicate IbanParts(country: seq<nat>, n: nat, account: seq<nat>) {
    && |country| == 2 && 10 <= country[0] < 36 && 10 <= country[1] < 36
    && n < 100
    && 1 <= |account| <= 30 && AreValues(account)
  }

  function WithCheck(start: seq<nat>, n: nat, rest: seq<nat>): seq<nat> {
    start + [n / 10, n % 10] + rest
  }

  lemma ReadingWithCheck(ks: seq<nat>, n: nat)
    requires n < 100
    ensures Reading(ks + [n / 10, n % 10]) == Reading(ks) * 100 + n
  {
    var more := ks + [n / 10];
    assert (more + [n % 10])[..|more|] == more && more[..|ks|] == ks;
    assert ks + [n / 10, n % 10] == more + [n % 10];
  }

  lemma RotatedReading(start: seq<nat>, n: nat, rest: seq<nat>)
    requires |start| == 2 && AreValues(start) && AreValues(rest) && n < 100
    ensures var s := Spelt(WithCheck(start, n, rest));
            AllAlnum(s) && AllAlnum(Rotated(s)) && Residue(Rotated(s)) == (Reading(rest + start) * 100 + n) % 97
  {
    hide Reading, Expansion, Decimal, CodeOf, Symbol;
    var s := Spelt(WithCheck(start, n, rest));
    var ks := rest + start + [n / 10, n % 10];
    assert Rotated(s) == Spelt(ks);
    NumberIsReading(WithCheck(start, n, rest));
    NumberIsReading(ks);
    ReadingWithCheck(rest + start, n);
  }

  /** Which check digits an account has: those that make the number of account, country and check 1 modulo 97. */
  lemma AcceptedCheckDigits(country: seq<nat>, n: nat, account: seq<nat>)
    requires IbanParts(country, n, account)
    ensures IsIban(Spelt(WithCheck(country, n, account))) <==> (Reading(account + country) * 100 + n) % 97 == 1
  {
    hide Reading, Residue, Rotated, CodeOf, Symbol;
    var ks := WithCheck(country, n, account);
    RotatedReading(country, n, account);
    CodeOfSymbol(ks[0]);
    CodeOfSymbol(ks[1]);
    CodeOfSymbol(ks[2]);
    CodeOfSymbol(ks[3]);
  }

  /** The IBANs are the texts of that form and no others. */
  lemma IbansAreSpelt(s: string) returns (country: seq<nat>, n: nat, account: seq<nat>)
    requires IsIban(s)
    ensures IbanParts(country, n, account) && s == Spelt(WithCheck(country, n, account))
    ensures (Reading(account + country) * 100 + n) % 97 == 1
  {
    hide Reading, Residue, Rotated, CodeOf, Symbol;
    var ks := EveryTextIsSpelt(s);
    CodeOfSymbol(ks[0]);
    CodeOfSymbol(ks[1]);
    CodeOfSymbol(ks[2]);
    CodeOfSymbol(ks[3]);
    country, n, account := ks[..2], ks[2] * 10 + ks[3], ks[4..];
    assert ks == WithCheck(country, n, account);
    AcceptedCheckDigits(country, n, account);
  }

  // ----- Single errors in an IBAN -----

  lemma {:induction false} DigitsBounds(s: string)
    requires AllAlnum(s)
    ensures |s| <= Digits(s) <= 2 * |s|
  {
    if s != [] {
      DigitsBounds(s[1..]);
    }
  }

  /** Where a position of the text ends up after the rotation. */
  function RotatedIndex(s: string, i: nat): nat
    requires 4 <= |s| && i < |s|
  {
    if i < 4 then |s| - 4 + i else i - 4
  }

  lemma SubstitutionInIban(s: string, i: nat, c: char)
    requires IsIban(s) && i < |s| && SameClass(s[i], c) && c != s[i]
    ensures !IsIban(s[i := c])
  {
    var t := s[i := c];
    var k := RotatedIndex(s, i);
    assert Rotated(t) == Rotated(s)[k := c];
    SubstitutionChangesResidue(Rotated(s), k, c);
  }

  lemma RotatedSwap(s: string, i: nat, j: nat)
    requires 4 <= |s| && i < j < |s|
    ensures var (p, q) := (RotatedIndex(s, i), RotatedIndex(s, j));
            p != q && Rotated(Swapped(s, i, j)) == Swapped(Rotated(s), Min(p, q), Max(p, q))
  {
    var r, t := Rotated(s), Swapped(s, i, j);
    var p, q := RotatedIndex(s, i), RotatedIndex(s, j);
    assert r[p] == s[i] && r[q] == s[j];
    forall k | 0 <= k < |s| ensures Rotated(t)[k] == Swapped(r, Min(p, q), Max(p, q))[k] {
    }
  }

  /** Also across the rotation point, where the two positions change order. */
  lemma SwapInIban(s: string, i: nat, j: nat)
    requires IsIban(s) && i < j < |s| && SameClass(s[i], s[j]) && s[i] != s[j]
    ensures !IsIban(Swapped(s, i, j))
  {
    var r := Rotated(s);
    var p, q := RotatedIndex(s, i), RotatedIndex(s, j);
    var lo, hi := Min(p, q), Max(p, q);
    RotatedSwap(s, i, j);
    SwapUnnoticedIff(r, lo, hi);
    DigitsBounds(r[lo..hi]);
    NoMultipleOf96(Digits(r[lo..hi]));
  }

  lemma NoMultipleOf96(n: nat)
    requires 0 < n < 96
    ensures n % 96 != 0
  {
  }

  // ----- The same for raw input, with its spaces and lower-case letters -----

  lemma NormaliseConcat(s: string, t: string)
    ensures Normalise(s + t) == Normalise(s) + Normalise(t)
  {
    WithoutSpacesConcat(s, t);
  }

  /** Spaces and the case of letters do not matter to any of the checks. */
  lemma SpacesAndCaseDoNotMatter(u: string, c: char, v: string)
    ensures c as int in {9, 10, 11, 12, 13, 32} ==> Normalise(u + [c] + v) == Normalise(u + v)
    ensures Normalise(u + [ToLower(c)] + v) == Normalise(u + [c] + v) == Normalise(u + [ToUpper(c)] + v)
  {
    NormaliseConcat(u + [c], v);
    NormaliseConcat(u, [c]);
    NormaliseConcat(u, v);
    NormaliseConcat(u + [ToLower(c)], v);
    NormaliseConcat(u, [ToLower(c)]);
    NormaliseConcat(u + [ToUpper(c)], v);
    NormaliseConcat(u, [ToUpper(c)]);
    OneNormalised(c);
    OneNormalised(ToLower(c));
    OneNormalised(ToUpper(c));
    hide Normalise;
  }

  lemma OneNormalised(c: char)
    ensures Normalise([c]) == if IsSpace(c) then "" else [ToUpper(c)]
    ensures IsSpace(ToLower(c)) == IsSpace(c) == IsSpace(ToUpper(c))
    ensures ToUpper(ToLower(c)) == ToUpper(c) == ToUpper(ToUpper(c))
  {
    assert WithoutSpaces([c][1..]) == "";
  }

  lemma NormaliseMiddle(u: string, c: char, v: string)
    requires !IsSpace(c)
    ensures Normalise(u + [c] + v) == Normalise(u) + [ToUpper(c)] + Normalise(v)
  {
    NormaliseConcat(u + [c], v);
    NormaliseConcat(u, [c]);
    assert WithoutSpaces([c]) == [c];
  }

  /** Replacing one character of a valid input by an unequal one of its class makes it invalid. */
  lemma SubstitutionMakesIbanInvalid(input: string, i: nat, c: char)
    requires IsIban(Normalise(input)) && i < |input|
    requires SameClass(ToUpper(input[i]), ToUpper(c)) && ToUpper(c) != ToUpper(input[i])
    ensures !IsIban(Normalise(input[i := c]))
  {
    var u, v := input[..i], input[i + 1..];
    assert input == u + [input[i]] + v && input[i := c] == u + [c] + v;
    NoSpaces(input[i], c);
    NormaliseMiddle(u, input[i], v);
    NormaliseMiddle(u, c, v);
    hide Normalise, IsIban, SameClass, ToUpper;
    SubstitutionInNormalForm(Normalise(u), ToUpper(input[i]), ToUpper(c), Normalise(v));
  }

  lemma NoSpaces(a: char, b: char)
    requires SameClass(ToUpper(a), ToUpper(b))
    ensures !IsSpace(a) && !IsSpace(b)
  {
  }

  lemma SubstitutionInNormalForm(u: string, a: char, b: char, v: string)
    requires IsIban(u + [a] + v) && SameClass(a, b) && b != a
    ensures !IsIban(u + [b] + v)
  {
    var s := u + [a] + v;
    assert s[|u|] == a && s[|u| := b] == u + [b] + v;
    SubstitutionInIban(s, |u|, b);
  }

  lemma NormaliseTwoMiddles(u: string, a: char, m: string, b: char, v: string)
    requires !IsSpace(a) && !IsSpace(b)
    ensures Normalise(u + [a] + (m + [b] + v))
         == Normalise(u) + [ToUpper(a)] + (Normalise(m) + [ToUpper(b)] + Normalise(v))
  {
    NormaliseMiddle(u, a, m + [b] + v);
    NormaliseMiddle(m, b, v);
  }

  lemma SwappedMiddles(u: string, a: char, m: string, b: char, v: string)
    ensures Swapped(u + [a] + (m + [b] + v), |u|, |u| + 1 + |m|) == u + [b] + (m + [a] + v)
  {
  }

  /** So does swapping any two characters of one class that differ. */
  lemma SwapMakesIbanInvalid(input: string, i: nat, j: nat)
    requires IsIban(Normalise(input)) && i < j < |input|
    requires SameClass(ToUpper(input[i]), ToUpper(input[j])) && ToUpper(input[i]) != ToUpper(input[j])
    ensures !IsIban(Normalise(Swapped(input, i, j)))
  {
    var u, a, m, b, v := input[..i], input[i], input[i + 1..j], input[j], input[j + 1..];
    assert input == u + [a] + (m + [b] + v);
    SwappedMiddles(u, a, m, b, v);
    NormaliseTwoMiddles(u, a, m, b, v);
    NormaliseTwoMiddles(u, b, m, a, v);
    SwapInNormalForm(Normalise(u), ToUpper(a), Normalise(m), ToUpper(b), Normalise(v));
  }

  lemma SwapInNormalForm(u: string, a: char, m: string, b: char, v: string)
    requires IsIban(u + [a] + (m + [b] + v)) && SameClass(a, b) && a != b
    ensures !IsIban(u + [b] + (m + [a] + v))
  {
    var s := u + [a] + (m + [b] + v);
    SwappedMiddles(u, a, m, b, v);
    assert s[|u|] == a && s[|u| + 1 + |m|] == b;
    SwapInIban(s, |u|, |u| + 1 + |m|);
  }

  // ----- SCOR -----

  /** ISO 11649 reserves these check digits. */
  const RESERVED: set<string> := {"00", "01", "99"}

  predicate ScorShape(s: string) {
    5 <= |s| <= 25 && s[..2] == "RF" && IsDigit(s[2]) && IsDigit(s[3]) && AllAlnum(s)
  }

  predicate IsScor(s: string) {
    ScorShape(s) && s[2..4] !in RESERVED && Residue(Rotated(s)) == 1
  }

  method IsValidScor(input: string) returns (valid: bool)
    ensures valid <==> IsScor(Normalise(input))
  {
    var ref := Normalise(input);
    if |ref| < 5 || |ref| > 25 {
      return false;
    }
    if !ScorShape(ref) {
      return false;
    }
    if ref[2..4] in RESERVED {
      return false;
    }
    var rotated := ref[4..] + ref[..4];
    var remainder := ComputeMod97(rotated);
    return remainder == Some(1);
  }

  /** The values of the letters R and F. */
  predicate IsRf(start: seq<nat>) {
    |start| == 2 && start[0] == 27 && start[1] == 15
  }

  /** The creditor references: "RF", a check number from 2 to 98 and one to 21 more characters. */
  lemma AcceptedScorDigits(rf: seq<nat>, n: nat, body: seq<nat>)
    requires IsRf(rf) && n < 100 && 1 <= |body| <= 21 && AreValues(body)
    ensures IsScor(Spelt(WithCheck(rf, n, body)))
            <==> 2 <= n <= 98 && (Reading(body + rf) * 100 + n) % 97 == 1
  {
    hide Reading, Residue, Rotated, CodeOf, Symbol, IsScor, ScorShape;
    RotatedReading(rf, n, body);
    ScorShapeSpelt(rf, n, body);
    ScorIffResidue(Spelt(WithCheck(rf, n, body)), n);
  }

  lemma ScorIffResidue(s: string, n: nat)
    requires ScorShape(s) && n < 100 && s[2..4] == [Symbol(n / 10), Symbol(n % 10)]
    ensures IsScor(s) <==> 2 <= n <= 98 && Residue(Rotated(s)) == 1
  {
    ReservedSpelt(n);
    hide ScorShape, Symbol;
  }

  lemma ScorShapeSpelt(rf: seq<nat>, n: nat, body: seq<nat>)
    requires IsRf(rf) && n < 100 && 1 <= |body| <= 21 && AreValues(body)
    ensures var s := Spelt(WithCheck(rf, n, body));
            ScorShape(s) && s[2..4] == [Symbol(n / 10), Symbol(n % 10)]
  {
    hide CodeOf, Symbol, Reading;
    var ks := WithCheck(rf, n, body);
    var s := Spelt(ks);
    NumberIsReading(ks);
    CodeOfSymbol(ks[2]);
    CodeOfSymbol(ks[3]);
    StartsWithRf(s);
    assert s[2..4] == [s[2], s[3]];
  }

  lemma StartsWithRf(s: string)
    requires |s| >= 2
    ensures s[..2] == "RF" <==> s[0] == Symbol(27) && s[1] == Symbol(15)
  {
    LetterAt(17);
    LetterAt(5);
    assert s[..2] == [s[0], s[1]];
  }

  lemma ReservedSpelt(n: nat)
    requires n < 100
    ensures [Symbol(n / 10), Symbol(n % 10)] in RESERVED <==> n == 0 || n == 1 || n == 99
  {
    NumeralAt(n / 10);
    NumeralAt(n % 10);
    var cc := [Symbol(n / 10), Symbol(n % 10)];
    assert cc == "00" <==> cc[0] == '0' && cc[1] == '0';
    assert cc == "01" <==> cc[0] == '0' && cc[1] == '1';
    assert cc == "99" <==> cc[0] == '9' && cc[1] == '9';
  }

  lemma ScorsAreSpelt(s: string) returns (rf: seq<nat>, n: nat, body: seq<nat>)
    requires IsScor(s)
    ensures IsRf(rf) && 2 <= n <= 98 && 1 <= |body| <= 21 && AreValues(body)
    ensures s == Spelt(WithCheck(rf, n, body))
    ensures (Reading(body + rf) * 100 + n) % 97 == 1
  {
    hide Reading, Residue, Rotated, CodeOf, Symbol;
    var ks := EveryTextIsSpelt(s);
    CodeOfSymbol(ks[0]);
    CodeOfSymbol(ks[1]);
    CodeOfSymbol(ks[2]);
    CodeOfSymbol(ks[3]);
    CodeOfSymbol(27);
    CodeOfSymbol(15);
    StartsWithRf(s);
    rf, n, body := ks[..2], ks[2] * 10 + ks[3], ks[4..];
    assert ks == WithCheck(rf, n, body);
    AcceptedScorDigits(rf, n, body);
  }

  /** `n.toString().padStart(2, "0")` */
  function TwoDigits(n: nat): (r: string)
    requires n < 100
    ensures |r| == 2 && AllDigits(r)
  {
    [DigitChar(n / 10), DigitChar(n % 10)]
  }

  predicate IsScorPayload(payload: string) {
    1 <= |payload| <= 21 && AllAlnum(Upper(payload))
  }

  datatype ScorError = MalformedPayload | NotANumber | ReservedCheckDigits

  /** The two reserved-looking throws are in the code; the contract says they never happen. */
  method ComputeScor(payload: string) returns (r: Result<string, ScorError>)
    ensures r == if IsScorPayload(payload)
                 then Ok("RF" + TwoDigits(CheckValue(Upper(payload))) + Upper(payload))
                 else Err(MalformedPayload)
  {
    var body := Upper(payload);
    if !(1 <= |body| <= 21 && AllAlnum(body)) {
      return Err(MalformedPayload);
    }
    var remainder := ComputeMod97(body + "RF00");
    if remainder == None {
      return Err(NotANumber);
    }
    var check := 98 - remainder.value;
    CheckIsNeverReserved(body);
    if TwoDigits(check) in RESERVED {
      return Err(ReservedCheckDigits);
    }
    return Ok("RF" + TwoDigits(check) + body);
  }

  function CheckValue(body: string): (n: nat)
    requires AllAlnum(body)
    ensures 2 <= n <= 98
  {
    98 - Residue(body + "RF00")
  }

  lemma CheckIsNeverReserved(body: string)
    requires AllAlnum(body)
    ensures TwoDigits(CheckValue(body)) !in RESERVED
  {
    var n := CheckValue(body);
    TwoDigitsInjective(n, 0);
    TwoDigitsInjective(n, 1);
    TwoDigitsInjective(n, 99);
  }

  lemma TwoDigitsInjective(m: nat, n: nat)
    requires m < 100 && n < 100
    ensures TwoDigits(m) == TwoDigits(n) <==> m == n
  {
    var s, t := TwoDigits(m), TwoDigits(n);
    assert s == t ==> s[0] == t[0] && s[1] == t[1];
  }

  /** Every pair of digits is some number below 100. */
  lemma TwoDigitsSurjective(cc: string) returns (n: nat)
    requires |cc| == 2 && AllDigits(cc)
    ensures n < 100 && cc == TwoDigits(n)
  {
    n := CodeOf(cc[0]) * 10 + CodeOf(cc[1]);
  }

  /** The check digits shift the residue of the placeholder text by their own value. */
  lemma ResidueWithCheckDigits(body: string, n: nat)
    requires AllAlnum(body) && n < 100
    ensures AllAlnum(body + "RF" + TwoDigits(n))
    ensures Residue(body + "RF" + TwoDigits(n)) == (Residue(body + "RF00") + n) % 97
  {
    TwoDigitsAppended(body + "RF", n);
    TwoDigitsAppended(body + "RF", 0);
    assert "RF" + "00" == "RF00" && TwoDigits(0) == "00";
    assert body + "RF" + "00" == body + "RF00";
    StepMod(Number(body + "RF") * 100, 1, n);
  }

  lemma TwoDigitsAppended(stem: string, n: nat)
    requires AllAlnum(stem) && n < 100
    ensures AllAlnum(stem + TwoDigits(n)) && Number(stem + TwoDigits(n)) == Number(stem) * 100 + n
  {
    var hi, lo := DigitChar(n / 10), DigitChar(n % 10);
    NumberSnoc(stem, hi);
    NumberSnoc(stem + [hi], lo);
    assert stem + [hi] + [lo] == stem + TwoDigits(n);
  }

  /** The solutions of the congruence are the check value and its neighbours 97 away. */
  lemma SolutionsOfCongruence(body: string, n: nat)
    requires AllAlnum(body) && n < 100
    ensures AllAlnum(body + "RF" + TwoDigits(n))
    ensures Residue(body + "RF" + TwoDigits(n)) == 1
            <==> n == CheckValue(body) || n == CheckValue(body) + 97 || n + 97 == CheckValue(body)
  {
    ResidueWithCheckDigits(body, n);
  }

  /** The reserved set takes away exactly the second solutions. */
  lemma ReservedAreTheSecondSolutions(body: string, cc: string)
    requires AllAlnum(body) && |cc| == 2 && AllDigits(cc)
    ensures AllAlnum(body + "RF" + cc)
    ensures Residue(body + "RF" + cc) == 1 ==> (cc in RESERVED <==> cc != TwoDigits(CheckValue(body)))
  {
    var n := TwoDigitsSurjective(cc);
    SolutionsOfCongruence(body, n);
    CheckIsNeverReserved(body);
    assert TwoDigits(0) == "00" && TwoDigits(1) == "01" && TwoDigits(99) == "99";
    TwoDigitsInjective(n, CheckValue(body));
  }

  /** For every payload exactly one pair of check digits is accepted, the one `ComputeScor` emits. */
  lemma ExactlyOneScor(payload: string, cc: string)
    requires IsScorPayload(payload) && |cc| == 2 && AllDigits(cc)
    ensures IsScor(Normalise("RF" + cc + payload)) <==> cc == TwoDigits(CheckValue(Upper(payload)))
  {
    var body := Upper(payload);
    var s := "RF" + cc + body;
    assert Normalise("RF" + cc + payload) == s by {
      var raw := "RF" + cc + payload;
      assert forall i | 0 <= i < |payload| :: !IsSpace(payload[i]) by {
        forall i | 0 <= i < |payload| ensures !IsSpace(payload[i]) {
          assert IsAlnum(body[i]);
        }
      }
      WithoutSpacesKeeps(raw);
      assert Upper(raw) == s;
    }
    assert s[2..4] == cc && Rotated(s) == body + "RF" + cc;
    ReservedAreTheSecondSolutions(body, cc);
    var n := TwoDigitsSurjective(cc);
    SolutionsOfCongruence(body, n);
  }
}
