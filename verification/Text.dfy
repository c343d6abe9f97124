/** ASCII text: the character classes, case maps and white-space handling the sources use. */
module Text {

  predicate IsDigit(c: char) {
    '0' <= c <= '9'
  }

  predicate IsUpper(c: char) {
    'A' <= c <= 'Z'
  }

  predicate IsLower(c: char) {
    'a' <= c <= 'z'
  }

  predicate IsAlnum(c: char) {
    IsDigit(c) || IsUpper(c)
  }

  /** `\s` over ASCII: tab, line feed, vertical tab, form feed, carriage return and space. */
  predicate IsSpace(c: char) {
    c == ' ' || 9 <= c as int <= 13
  }

  function ToUpper(c: char): char {
    if IsLower(c) then c - ('a' - 'A') else c
  }

  function ToLower(c: char): char {
    if IsUpper(c) then c + ('a' - 'A') else c
  }

  function Upper(s: string): (r: string)
    ensures |r| == |s| && forall i | 0 <= i < |s| :: r[i] == ToUpper(s[i])
  {
    seq(|s|, i requires 0 <= i < |s| => ToUpper(s[i]))
  }

  function Lower(s: string): (r: string)
    ensures |r| == |s| && forall i | 0 <= i < |s| :: r[i] == ToLower(s[i])
  {
    seq(|s|, i requires 0 <= i < |s| => ToLower(s[i]))
  }

  // ----- The classes and cases, letter by letter -----

  const NUMERALS := "0123456789"
  const UPPERS := "ABCDEFGHIJKLMNOPQRSTUVWXYZ"
  const LOWERS := "abcdefghijklmnopqrstuvwxyz"

  lemma NumeralAt(k: nat)
    requires k < 10
    ensures NUMERALS[k] == '0' + k as char
  {
    if k < 5 {
      assert k == 0 || k == 1 || k == 2 || k == 3 || k == 4;
    } else {
      assert k == 5 || k == 6 || k == 7 || k == 8 || k == 9;
    }
  }

  lemma LetterAt(k: nat)
    requires k < 26
    ensures UPPERS[k] == 'A' + k as char && LOWERS[k] == 'a' + k as char
  {
    if k < 7 {
      assert k == 0 || k == 1 || k == 2 || k == 3 || k == 4 || k == 5 || k == 6;
    } else if k < 14 {
      assert k == 7 || k == 8 || k == 9 || k == 10 || k == 11 || k == 12 || k == 13;
    } else if k < 20 {
      assert k == 14 || k == 15 || k == 16 || k == 17 || k == 18 || k == 19;
    } else {
      assert k == 20 || k == 21 || k == 22 || k == 23 || k == 24 || k == 25;
    }
  }

  /** A character is of a class exactly if it is one of the class's. */
  lemma ClassesAre(c: char)
    ensures IsDigit(c) <==> c in NUMERALS
    ensures IsUpper(c) <==> c in UPPERS
    ensures IsLower(c) <==> c in LOWERS
    ensures IsSpace(c) <==> c as int in {9, 10, 11, 12, 13, 32}
  {
    if IsDigit(c) {
      NumeralAt((c - '0') as int);
    } else if IsUpper(c) {
      LetterAt((c - 'A') as int);
    } else if IsLower(c) {
      LetterAt((c - 'a') as int);
    }
    MembersAre(c);
  }

  lemma MemberAt(s: string, c: char) returns (k: nat)
    requires c in s
    ensures k < |s| && s[k] == c
  {
    k :| k < |s| && s[k] == c;
  }

  lemma MembersAre(c: char)
    ensures c in NUMERALS ==> IsDigit(c)
    ensures c in UPPERS ==> IsUpper(c)
    ensures c in LOWERS ==> IsLower(c)
  {
    if c in NUMERALS {
      var k := MemberAt(NUMERALS, c);
      NumeralAt(k);
    }
    if c in UPPERS {
      var k := MemberAt(UPPERS, c);
      LetterAt(k);
    }
    if c in LOWERS {
      var k := MemberAt(LOWERS, c);
      LetterAt(k);
    }
  }

  /** The case maps pair the letters and leave every other character alone. */
  lemma CasesPair(c: char, k: nat)
    requires k < 26
    ensures ToUpper(LOWERS[k]) == ToUpper(UPPERS[k]) == UPPERS[k]
    ensures ToLower(UPPERS[k]) == ToLower(LOWERS[k]) == LOWERS[k]
    ensures c !in LOWERS ==> ToUpper(c) == c
    ensures c !in UPPERS ==> ToLower(c) == c
  {
    LetterAt(k);
    ClassesAre(c);
  }

  predicate AllDigits(s: string) {
    forall i | 0 <= i < |s| :: IsDigit(s[i])
  }

  predicate AllAlnum(s: string) {
    forall i | 0 <= i < |s| :: IsAlnum(s[i])
  }

  /** `s.replace(/\s+/g, "")` */
  function WithoutSpaces(s: string): string {
    if s == [] then []
    else if IsSpace(s[0]) then WithoutSpaces(s[1..])
    else [s[0]] + WithoutSpaces(s[1..])
  }

  lemma {:induction false} WithoutSpacesKeeps(s: string)
    requires forall i | 0 <= i < |s| :: !IsSpace(s[i])
    ensures WithoutSpaces(s) == s
  {
    if s != [] {
      WithoutSpacesKeeps(s[1..]);
    }
  }

  lemma {:induction false} WithoutSpacesConcat(s: string, t: string)
    ensures WithoutSpaces(s + t) == WithoutSpaces(s) + WithoutSpaces(t)
  {
    if s == [] {
      assert s + t == t;
    } else {
      var tail := s[1..];
      WithoutSpacesConcat(tail, t);
      assert s + t == [s[0]] + (tail + t);
      WithoutSpacesCons(s[0], tail + t);
      WithoutSpacesCons(s[0], tail);
      assert s == [s[0]] + tail;
    }
  }

  lemma WithoutSpacesCons(c: char, s: string)
    ensures WithoutSpaces([c] + s) == (if IsSpace(c) then [] else [c]) + WithoutSpaces(s)
  {
    assert ([c] + s)[1..] == s;
  }

  function TrimLeft(s: string): string {
    if s != [] && IsSpace(s[0]) then TrimLeft(s[1..]) else s
  }

  function TrimRight(s: string): string {
    if s != [] && IsSpace(s[|s| - 1]) then TrimRight(s[..|s| - 1]) else s
  }

  /** Nothing to trim at either end. */
  predicate IsTrimmed(s: string) {
    s == [] || (!IsSpace(s[0]) && !IsSpace(s[|s| - 1]))
  }

  function Trim(s: string): string {
    TrimRight(TrimLeft(s))
  }

  lemma {:induction false} TrimLeftStarts(s: string)
    ensures TrimLeft(s) != [] ==> !IsSpace(TrimLeft(s)[0])
  {
    if s != [] && IsSpace(s[0]) {
      TrimLeftStarts(s[1..]);
    }
  }

  lemma {:induction false} TrimRightEnds(s: string)
    ensures TrimRight(s) <= s
    ensures TrimRight(s) != [] ==> !IsSpace(TrimRight(s)[|TrimRight(s)| - 1])
  {
    if s != [] && IsSpace(s[|s| - 1]) {
      TrimRightEnds(s[..|s| - 1]);
    }
  }

  lemma TrimTrims(s: string)
    ensures IsTrimmed(Trim(s))
  {
    TrimLeftStarts(s);
    TrimRightEnds(TrimLeft(s));
  }

  /** `t` is what stands between positions of `s` outside which there is only white space. */
  ghost predicate IsTrimmingAt(s: string, t: string, i: int, j: int) {
    && 0 <= i <= j <= |s| && s[i..j] == t
    && (forall k | 0 <= k < i :: IsSpace(s[k])) && forall k | j <= k < |s| :: IsSpace(s[k])
  }

  /** `t` is `s` without the white space at its ends. */
  ghost predicate IsTrimming(s: string, t: string) {
    IsTrimmed(t) && exists i, j :: IsTrimmingAt(s, t, i, j)
  }

  lemma {:induction false} TrimLeftDrops(s: string)
    ensures |TrimLeft(s)| <= |s|
    ensures var i := |s| - |TrimLeft(s)|; s[i..] == TrimLeft(s) && forall k | 0 <= k < i :: IsSpace(s[k])
  {
    if s != [] && IsSpace(s[0]) {
      var rest := s[1..];
      TrimLeftDrops(rest);
      assert forall k | 0 < k < |s| :: s[k] == rest[k - 1];
    }
  }

  lemma {:induction false} TrimRightDrops(s: string)
    ensures var j := |TrimRight(s)|; j <= |s| && s[..j] == TrimRight(s) && forall k | j <= k < |s| :: IsSpace(s[k])
  {
    if s != [] && IsSpace(s[|s| - 1]) {
      TrimRightDrops(s[..|s| - 1]);
    }
  }

  lemma TrimIsTrimming(s: string)
    ensures IsTrimming(s, Trim(s))
  {
    TrimTrims(s);
    TrimLeftDrops(s);
    TrimRightDrops(TrimLeft(s));
    var t := TrimLeft(s);
    var i := |s| - |t|;
    var j := i + |Trim(s)|;
    assert forall k | j <= k < |s| :: s[k] == t[k - i];
    assert IsTrimmingAt(s, Trim(s), i, j);
  }

  lemma TrimmingStartsAt(s: string, t: string, i: int, j: int, t': string, i': int, j': int)
    requires IsTrimmingAt(s, t, i, j) && IsTrimmingAt(s, t', i', j') && t != "" && !IsSpace(t[0]) && !IsSpace(t[|t| - 1])
    ensures i' <= i < j <= j'
  {
    assert s[i] == t[0] && s[j - 1] == t[|t| - 1];
  }

  /** There is only one way to trim a text. */
  lemma TrimmingIsTrim(s: string, t: string)
    requires IsTrimming(s, t)
    ensures Trim(s) == t
  {
    var i, j :| IsTrimmingAt(s, t, i, j);
    TrimIsTrimming(s);
    var i', j' :| IsTrimmingAt(s, Trim(s), i', j');
    hide Trim, IsSpace;
    if t != "" {
      TrimmingStartsAt(s, t, i, j, Trim(s), i', j');
    }
    if Trim(s) != "" {
      TrimmingStartsAt(s, Trim(s), i', j', t, i, j);
    }
  }

  lemma TrimmedToNothingIff(s: string)
    ensures Trim(s) == "" <==> forall c | c in s :: IsSpace(c)
  {
    TrimIsTrimming(s);
    var i, j :| IsTrimmingAt(s, Trim(s), i, j);
    if Trim(s) != "" {
      assert s[i] == Trim(s)[0] && s[i] in s;
    } else {
      assert i == j;
    }
  }

  lemma TrimKeeps(s: string)
    requires IsTrimmed(s)
    ensures Trim(s) == s
  {
  }

  function ColonAt(s: string): nat {
    if s == [] || s[0] == ':' then 0 else 1 + ColonAt(s[1..])
  }

  lemma {:induction false} ColonAfter(a: string, s: string)
    requires ':' !in a
    ensures ColonAt(a + ":" + s) == |a|
  {
    if a == [] {
      assert a + ":" + s == ":" + s;
    } else {
      ColonAfter(a[1..], s);
      assert (a + ":" + s)[1..] == a[1..] + ":" + s;
    }
  }

  /** What stands before the first colon, and what after it, can be told from the whole. */
  lemma FirstColon(a: string, b: string, s: string, t: string)
    requires ':' !in a && ':' !in b && a + ":" + s == b + ":" + t
    ensures a == b && s == t
  {
    var u := a + ":" + s;
    ColonAfter(a, s);
    ColonAfter(b, t);
    assert u[..|a|] == a && u[..|b|] == b && u[|a| + 1..] == s && u[|b| + 1..] == t;
  }
}
