/** List cells: joining labels for the export and splitting them again on import. */
module CellLists {
  import opened Text
  import opened ImportCells

  function Join(pieces: seq<string>): string {
    if pieces == [] then ""
    else if |pieces| == 1 then pieces[0]
    else pieces[0] + "; " + Join(pieces[1..])
  }

  predicate IsOnePiece(piece: string) {
    forall i | 0 <= i < |piece| :: !IsListSeparator(piece[i])
  }

  lemma Associative(a: seq<string>, b: seq<string>, c: seq<string>)
    ensures a + (b + c) == (a + b) + c
  {
  }

  lemma {:induction false} KeptConcat(a: seq<string>, b: seq<string>)
    ensures Kept(a + b) == Kept(a) + Kept(b)
  {
    hide TrimmedPiece;
    if a == [] {
      assert a + b == b;
    } else {
      KeptConcat(a[1..], b);
      assert (a + b)[0] == a[0] && (a + b)[1..] == a[1..] + b;
      Associative(TrimmedPiece(a[0]), Kept(a[1..]), Kept(b));
    }
  }

  /** Trimmed pieces are kept as they are, blank ones lost. */
  lemma {:induction false} KeptOfTrimmed(pieces: seq<string>)
    requires forall piece | piece in pieces :: IsTrimmed(piece)
    ensures "" !in pieces ==> Kept(pieces) == pieces
    ensures "" in pieces ==> |Kept(pieces)| < |pieces|
    ensures |Kept(pieces)| <= |pieces|
  {
    if pieces != [] {
      assert pieces[0] in pieces;
      TrimKeeps(pieces[0]);
      KeptOfTrimmed(pieces[1..]);
      assert pieces == [pieces[0]] + pieces[1..];
    }
  }

  lemma TrimIgnoresLeadingSpace(c: char, s: string)
    requires IsSpace(c)
    ensures Trim([c] + s) == Trim(s)
  {
    assert ([c] + s)[1..] == s;
  }

  lemma {:induction false} TrimLeftSnoc(s: string, c: char)
    requires IsSpace(c)
    ensures TrimLeft(s + [c]) == if TrimLeft(s) == [] then [] else TrimLeft(s) + [c]
  {
    var t := s + [c];
    if s == [] {
      assert t == [c] && t[1..] == [] && TrimLeft(t[1..]) == [];
    } else {
      assert t[0] == s[0] && t[1..] == s[1..] + [c];
      if IsSpace(s[0]) {
        TrimLeftSnoc(s[1..], c);
        assert TrimLeft(t) == TrimLeft(t[1..]);
      } else {
        assert TrimLeft(t) == t && TrimLeft(s) == s;
      }
    }
  }

  lemma TrimIgnoresTrailingSpace(s: string, c: char)
    requires IsSpace(c)
    ensures Trim(s + [c]) == Trim(s)
  {
    TrimLeftSnoc(s, c);
    var left := TrimLeft(s);
    assert (left + [c])[..|left|] == left;
  }

  lemma PartsIgnoreLeadingSpace(c: char, s: string)
    requires IsSpace(c)
    ensures Parts([c] + s) == Parts(s)
  {
    var rest := Split(s);
    assert ([c] + s)[1..] == s;
    assert Split([c] + s) == [[c] + rest[0]] + rest[1..];
    TrimIgnoresLeadingSpace(c, rest[0]);
  }

  /** The last piece takes the appended character. */
  function Appended(pieces: seq<string>, c: char): seq<string>
    requires pieces != []
  {
    pieces[..|pieces| - 1] + [pieces[|pieces| - 1] + [c]]
  }

  lemma {:induction false} SplitSnoc(s: string, c: char)
    requires !IsListSeparator(c)
    ensures Split(s + [c]) == Appended(Split(s), c)
  {
    if s == [] {
      assert s + [c] == [c] && [c][1..] == "" && Split("") == [""];
      assert Split([c]) == [[c] + ""] && "" + [c] == [c] + "";
    } else {
      var (t, r) := (s[1..], Split(s[1..]));
      SplitSnoc(t, c);
      assert (s + [c])[0] == s[0] && (s + [c])[1..] == t + [c];
      if IsListSeparator(s[0]) {
        assert [""] + Appended(r, c) == Appended([""] + r, c);
      } else {
        AppendedToHead(s[0], r, c);
      }
    }
  }

  lemma AppendedToHead(a: char, r: seq<string>, c: char)
    requires r != []
    ensures [[a] + Appended(r, c)[0]] + Appended(r, c)[1..] == Appended([[a] + r[0]] + r[1..], c)
  {
    if |r| == 1 {
      assert [a] + (r[0] + [c]) == ([a] + r[0]) + [c];
    }
  }

  lemma PartsIgnoreTrailingSpace(s: string, c: char)
    requires IsSpace(c)
    ensures Parts(s + [c]) == Parts(s)
  {
    var (r, n) := (Split(s), |Split(s)| - 1);
    SplitSnoc(s, c);
    KeptConcat(r[..n], [r[n] + [c]]);
    KeptConcat(r[..n], [r[n]]);
    assert r == r[..n] + [r[n]];
    TrimIgnoresTrailingSpace(r[n], c);
  }

  lemma {:induction false} PartsOfTrimLeft(s: string)
    ensures Parts(TrimLeft(s)) == Parts(s)
  {
    if s != [] && IsSpace(s[0]) {
      PartsOfTrimLeft(s[1..]);
      PartsIgnoreLeadingSpace(s[0], s[1..]);
      assert [s[0]] + s[1..] == s;
    }
  }

  lemma {:induction false} PartsOfTrimRight(s: string)
    ensures Parts(TrimRight(s)) == Parts(s)
  {
    var n := |s| - 1;
    if s != [] && IsSpace(s[n]) {
      PartsOfTrimRight(s[..n]);
      PartsIgnoreTrailingSpace(s[..n], s[n]);
      assert s[..n] + [s[n]] == s;
    }
  }

  lemma {:induction false} SplitAtSeparator(piece: string, rest: string)
    requires IsOnePiece(piece)
    ensures Split(piece + ";" + rest) == [piece] + Split(rest)
    ensures Split(piece) == [piece]
  {
    if piece == [] {
      assert piece + ";" + rest == ";" + rest && (";" + rest)[1..] == rest;
    } else {
      SplitAtSeparator(piece[1..], rest);
      assert (piece + ";" + rest)[1..] == piece[1..] + ";" + rest;
      assert [piece[0]] + piece[1..] == piece;
    }
  }

  /** Joined labels split back into the labels, less the blank ones. */
  lemma {:induction false} PartsOfJoin(pieces: seq<string>)
    requires forall piece | piece in pieces :: IsOnePiece(piece)
    ensures Parts(Join(pieces)) == Kept(pieces)
  {
    if pieces != [] {
      var (piece, rest) := (pieces[0], Join(pieces[1..]));
      PartsOfJoin(pieces[1..]);
      SplitAtSeparator(piece, " " + rest);
      if |pieces| == 1 {
        assert pieces == [piece];
      } else {
        assert piece + "; " + rest == piece + ";" + (" " + rest);
        PartsIgnoreLeadingSpace(' ', rest);
      }
    }
  }
}
