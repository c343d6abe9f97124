/** A stored custom value exported to a file and imported again. */
module ExportRoundTrip {
  import opened Wrappers
  import opened Text
  import opened Numerals
  import opened CustomValidator
  import opened ImportHeaders
  import opened ImportCells
  import opened CellLists
  import Amounts
  import Calendar

  // ----- The export cell -----

  /** `options.find(o => o.id === id)?.label ?? id` */
  function OptionLabel(def: Definition, id: string): string {
    match FindOption(def.options, id)
    case Some(option) => option.labelText
    case None => id
  }

  function ItemLabels(def: Definition, items: seq<Json>): (r: seq<string>)
    requires forall x | x in items :: x.Str?
    ensures |r| == |items| && forall i | 0 <= i < |r| :: r[i] == OptionLabel(def, items[i].s)
  {
    seq(|items|, i requires 0 <= i < |items| => assert items[i] in items; OptionLabel(def, items[i].s))
  }

  /** `(cents / 100).toFixed(2)`: the two-decimal numeral nearest to the rounded quotient. */
  function MajorUnits(round: real -> real, cents: int): string {
    var quotient := round(cents as real / 100.0);
    Amounts.PrintedAmount(if quotient < 0.0 then -Amounts.Round(-quotient * 100.0) else Amounts.Round(quotient * 100.0), '.')
  }

  /** The shape that a well-formed value of each kind has. */
  predicate IsPrintable(def: Definition, v: Json) {
    match def.kind
    case Number => v.Numeric? && v.n.Finite?
    case Currency => v.Numeric? && v.n.Finite?
    case Boolean => v.Bool?
    case MultiPicklist => v.Arr? && forall x | x in v.items :: x.Str?
    case _ => v.Str?
  }

  function Exported(host: Host, def: Definition, v: Json): string
    requires IsPrintable(def, v)
  {
    match def.kind
    case Number => host.text(v.n.value)
    case Currency => MajorUnits(host.round, v.n.value.Floor)
    case Boolean => if v.b then "true" else "false"
    case Picklist => OptionLabel(def, v.s)
    case MultiPicklist => Join(ItemLabels(def, v.items))
    case _ => v.s
  }

  /** A leading `= + - @`, tab or carriage return would start a formula. */
  predicate IsFormula(s: string) {
    s != [] && (s[0] in "=+-@" || s[0] as int == 9 || s[0] as int == 13)
  }

  /** Both the export and the import put an apostrophe before a formula. */
  function Guarded(s: string): string {
    if IsFormula(s) then "'" + s else s
  }

  /** The cell as the row parser hands it on; None when it is blank. */
  function CellText(exported: string): Option<string> {
    var trimmed := Trim(Guarded(exported));
    if trimmed == "" then None else Some(Guarded(trimmed))
  }

  /** The characters that would start a formula in a spreadsheet. */
  predicate LeadsFormula(s: string) {
    s != "" && (s[0] == '=' || s[0] == '+' || s[0] == '-' || s[0] == '@' || s[0] == '\t' || s[0] == '\r')
  }

  /** Whatever is stored, no exported cell starts a formula, and none that the row parser hands on does. */
  lemma NoCellLeadsFormula(exported: string)
    ensures !LeadsFormula(Guarded(exported))
    ensures CellText(exported).Some? ==> !LeadsFormula(CellText(exported).value)
    ensures !LeadsFormula(exported) ==> Guarded(exported) == exported
    ensures LeadsFormula(exported) ==> Guarded(exported) == "'" + exported
  {
  }

  lemma {:induction false} FindsFirst(options: seq<PicklistOption>, id: string, i: nat)
    requires i < |options| && options[i].id == id && forall j | 0 <= j < i :: options[j].id != id
    ensures FindOption(options, id) == Some(options[i])
  {
    if i > 0 {
      assert options[0].id != id;
      assert forall j | 0 <= j < i - 1 :: options[1..][j] == options[j + 1];
      FindsFirst(options[1..], id, i - 1);
    }
  }

  /** The export prints the label of the first option with the id; an id that no option has stands for itself. */
  lemma OptionLabelIs(def: Definition, id: string, i: nat)
    ensures (forall o | o in def.options :: o.id != id) ==> OptionLabel(def, id) == id
    ensures i < |def.options| && def.options[i].id == id && (forall j | 0 <= j < i :: def.options[j].id != id)
            ==> OptionLabel(def, id) == def.options[i].labelText
  {
    FindOptionIsFirst(def.options, id);
    if i < |def.options| && def.options[i].id == id && (forall j | 0 <= j < i :: def.options[j].id != id) {
      FindsFirst(def.options, id, i);
    }
    hide FindOption;
  }

  /** Parsed, then validated. */
  function FromCell(host: Host, def: Definition, cell: string): Option<Json> {
    match ParseCell(host, def, cell)
    case Err(_) => None
    case Ok(raw) =>
      match Normalize(def, raw)
      case Refuse(_) => None
      case Accept(w) => w
  }

  /** The value the import stores for an exported one; None if it stores nothing. */
  function Reimported(host: Host, def: Definition, v: Json): Option<Json>
    requires IsPrintable(def, v)
  {
    match CellText(Exported(host, def, v))
    case None => None
    case Some(cell) => FromCell(host, def, cell)
  }

  // ----- The option catalogs the API admits -----

  predicate IsIdChar(c: char) {
    IsAlnum(c) || IsLower(c) || c == '_' || c == '-'
  }

  /** `^opt_[A-Za-z0-9_-]{8}$` */
  predicate IsOptionId(id: string) {
    |id| == 12 && "opt_" <= id && forall i | 4 <= i < 12 :: IsIdChar(id[i])
  }

  /** Generated ids, and labels trimmed and free of the list separators. */
  ghost predicate IsAdmitted(options: seq<PicklistOption>) {
    && DistinctIds(options)
    && forall o | o in options ::
         IsOptionId(o.id) && IsTrimmed(o.labelText) && IsOnePiece(o.labelText)
  }

  /** The label is not blank and no earlier active option answers to it. */
  predicate OwnsItsLabel(def: Definition, id: string) {
    var token := NormaliseHeader(OptionLabel(def, id));
    token != "" && ByLabel(def.options, token).Some? && ByLabel(def.options, token).value.id == id
  }

  /** When the round trip succeeds. Amounts keep their minus sign, because their parser drops the guard. */
  predicate Survives(def: Definition, v: Json)
    requires IsPrintable(def, v)
  {
    match def.kind
    case Number => v.n.value >= 0.0
    case Currency => true
    case Boolean => true
    case Date => true
    case Picklist => OwnsItsLabel(def, v.s) && !IsFormula(OptionLabel(def, v.s))
    case MultiPicklist =>
      (forall x | x in v.items :: OwnsItsLabel(def, x.s)) && !IsFormula(Join(ItemLabels(def, v.items)))
    case _ => !IsFormula(v.s)
  }

  // ----- Normalised headers and white space -----

  lemma {:induction false} TrimLeftWithout(s: string)
    ensures WithoutSpaces(TrimLeft(s)) == WithoutSpaces(s)
  {
    if s != [] && IsSpace(s[0]) {
      TrimLeftWithout(s[1..]);
    }
  }

  lemma {:induction false} TrimRightWithout(s: string)
    ensures WithoutSpaces(TrimRight(s)) == WithoutSpaces(s)
  {
    var n := |s| - 1;
    if s != [] && IsSpace(s[n]) {
      TrimRightWithout(s[..n]);
      WithoutSpacesConcat(s[..n], [s[n]]);
      WithoutSpacesCons(s[n], []);
      assert s == s[..n] + [s[n]] && [s[n]] + [] == [s[n]];
    }
  }

  lemma {:induction false} LowerWithout(s: string)
    ensures |WithoutSpaces(Lower(s))| == |WithoutSpaces(s)|
  {
    if s != [] {
      LowerWithout(s[1..]);
      assert Lower(s)[1..] == Lower(s[1..]);
    }
  }

  lemma {:induction false} CollapseWithout(s: string)
    ensures WithoutSpaces(Collapse(s)) == WithoutSpaces(s)
  {
    if s != [] {
      CollapseWithout(s[1..]);
      if !IsSpace(s[0]) {
        WithoutSpacesCons(s[0], Collapse(s[1..]));
      } else {
        WithoutSpacesCons(' ', Collapse(s[1..]));
      }
    }
  }

  /** Normalising keeps the number of characters that are not white space. */
  lemma NormaliseKeepsCount(s: string)
    ensures |WithoutSpaces(NormaliseHeader(s))| == |WithoutSpaces(s)|
  {
    TrimLeftWithout(s);
    TrimRightWithout(TrimLeft(s));
    LowerWithout(Trim(s));
    CollapseWithout(Lower(Trim(s)));
  }

  /** An apostrophe in front makes a different header. */
  lemma ApostropheChangesHeader(s: string)
    ensures NormaliseHeader("'" + s) != NormaliseHeader(s)
  {
    NormaliseKeepsCount(s);
    NormaliseKeepsCount("'" + s);
    WithoutSpacesCons('\'', s);
  }

  // ----- What the host promises -----

  predicate StartsWithDigit(s: string) {
    s != "" && IsDigit(s[0])
  }

  /** The doubles are the numbers that rounding leaves alone. */
  predicate IsDouble(host: Host, x: real) {
    host.round(x) == x
  }

  /** Rounding is faithful; printed doubles read back; an apostrophe is no part of any number. */
  ghost predicate IsFaithful(host: Host) {
    && Amounts.RoundsToNearest(host.round)
    && (forall x | IsDouble(host, x) :: host.number(host.text(x)) == Finite(x))
    && (forall x, i | 0 <= i < |host.text(x)| :: !IsSpace(host.text(x)[i]) && host.text(x)[i] != ',')
    && (forall x | x >= 0.0 :: StartsWithDigit(host.text(x)))
    && (forall x | x < 0.0 :: host.text(x) != "" && host.text(x)[0] == '-')
    && (forall s :: host.number("'" + s).NotFinite?)
  }

  // ----- The kinds without options -----

  lemma CellOfTrimmed(s: string)
    requires IsTrimmed(s) && s != ""
    ensures CellText(s) == Some(Guarded(s))
  {
    assert IsTrimmed(Guarded(s));
    assert !IsFormula(Guarded(s)) || Guarded(s) == s;
  }

  lemma ReimportedFrom(host: Host, def: Definition, v: Json, s: string)
    requires IsPrintable(def, v) && Exported(host, def, v) == s && IsTrimmed(s) && s != ""
    ensures Reimported(host, def, v) == FromCell(host, def, Guarded(s))
  {
    CellOfTrimmed(s);
  }

  lemma TextSurvivesIff(host: Host, def: Definition, v: Json)
    requires (def.kind == ShortText || def.kind == LongText) && WellFormed(def, v)
    ensures Reimported(host, def, v) == Some(v) <==> !IsFormula(v.s)
  {
    ReimportedFrom(host, def, v, v.s);
    var cell := Guarded(v.s);
    TrimKeeps(cell);
    assert IsTrimmed(cell) && (IsFormula(v.s) ==> |cell| == |v.s| + 1);
    assert FromCell(host, def, cell) == if |cell| <= MaxLength(def.kind) then Some(Str(cell)) else None;
  }

  lemma DateSurvives(host: Host, def: Definition, v: Json)
    requires def.kind == Date && WellFormed(def, v)
    ensures Reimported(host, def, v) == Some(v)
  {
    DateIsPlain(v.s);
    ReimportedFrom(host, def, v, v.s);
  }

  lemma DateIsPlain(s: string)
    requires Calendar.IsValidCalendarDate(s)
    ensures s != "" && IsTrimmed(s) && !IsFormula(s)
  {
    assert Calendar.DatePattern(s);
    assert s[..4][0] == s[0] && s[8..10][1] == s[9];
  }

  lemma BooleanSurvives(host: Host, def: Definition, v: Json)
    requires def.kind == Boolean && WellFormed(def, v)
    ensures Reimported(host, def, v) == Some(v)
  {
    var s := if v.b then "true" else "false";
    assert IsTrimmed(s) && !IsFormula(s);
    ReimportedFrom(host, def, v, s);
    assert Lower(s) == s;
    assert ParseBoolean(s) == Ok(v);
  }

  lemma {:induction false} NothingDotted(s: string)
    requires forall i | 0 <= i < |s| :: s[i] != ','
    ensures FirstCommaDotted(s) == s
  {
    if s != [] {
      NothingDotted(s[1..]);
    }
  }

  /** A negative number comes back guarded, and its parser does not drop the apostrophe. */
  lemma NumberSurvivesIff(host: Host, def: Definition, v: Json)
    requires IsFaithful(host) && def.kind == Number && WellFormed(def, v) && IsDouble(host, v.n.value)
    ensures Reimported(host, def, v) == Some(v) <==> v.n.value >= 0.0
  {
    hide Reimported, WithoutSpaces, FirstCommaDotted;
    var s := host.text(v.n.value);
    var cell := Guarded(s);
    assert IsTrimmed(s);
    ReimportedFrom(host, def, v, s);
    assert forall i | 0 <= i < |cell| :: !IsSpace(cell[i]) && cell[i] != ',';
    WithoutSpacesKeeps(cell);
    NothingDotted(cell);
    assert cell == if v.n.value < 0.0 then "'" + s else s;
  }

  lemma QuotientKeepsCents(quotient: real, cents: int)
    requires -2251799813685248 < cents < 2251799813685248
    requires Amounts.Abs(quotient - cents as real / 100.0) * 9007199254740992.0 <= Amounts.Abs(cents as real / 100.0)
    ensures quotient < 0.0 <==> cents < 0
    ensures cents >= 0 ==> Amounts.Round(quotient * 100.0) == cents
    ensures cents < 0 ==> Amounts.Round(-quotient * 100.0) == -cents
  {
    assert Amounts.Abs(quotient * 100.0 - cents as real) < 0.5;
  }

  lemma MajorUnitsArePrinted(round: real -> real, cents: int)
    requires Amounts.RoundsToNearest(round) && -2251799813685248 < cents < 2251799813685248
    ensures MajorUnits(round, cents) == Amounts.PrintedAmount(cents, '.')
  {
    QuotientKeepsCents(round(cents as real / 100.0), cents);
  }

  lemma CurrencySurvives(host: Host, def: Definition, v: Json)
    requires IsFaithful(host) && def.kind == Currency && WellFormed(def, v)
    requires -2251799813685248.0 < v.n.value < 2251799813685248.0
    ensures Reimported(host, def, v) == Some(v)
  {
    hide Reimported, Amounts.PrintedAmount, Amounts.ParseAmount, MajorUnits, Amounts.RoundsToNearest;
    var cents := v.n.value.Floor;
    var s := Amounts.PrintedAmount(cents, '.');
    MajorUnitsArePrinted(host.round, cents);
    PrintedEnds(cents);
    ReimportedFrom(host, def, v, s);
    Amounts.PrintedHasNoMarks(cents, '.');
    assert ("'" + s)[1..] == s;
    Amounts.PrintThenParse(host.round, cents, '.', Guarded(s));
  }

  lemma PrintedEnds(cents: int)
    ensures var s := Amounts.PrintedAmount(cents, '.'); s != "" && IsTrimmed(s)
  {
    var n := Amounts.Magnitude(cents);
    var (s, whole, fraction) := (Amounts.PrintedAmount(cents, '.'), Printed(n / 100), Padded(n % 100, 2));
    assert IsDigit(whole[0]) && IsDigit(fraction[1]);
    assert s[|s| - 1] == fraction[1];
    assert s[0] == if cents < 0 then '-' else whole[0];
  }

  // ----- Options -----

  lemma QuoteComesFirst(s: string)
    ensures NormaliseHeader("'" + s) != "" && NormaliseHeader("'" + s)[0] == '\''
  {
    var q := "'" + s;
    assert TrimLeft(q) == q;
    TrimRightKeepsPrefix(q, "'");
    var t := Lower(Trim(q));
    assert t[0] == '\'';
    CollapseStep(t);
  }

  lemma {:induction false} FoundIsThere(options: seq<PicklistOption>, id: string)
    requires FindOption(options, id).Some?
    ensures FindOption(options, id).value in options && FindOption(options, id).value.id == id
  {
    if options[0].id != id {
      FoundIsThere(options[1..], id);
    }
  }

  lemma ResolvesItsLabelIff(def: Definition, id: string)
    requires IsActiveOption(def, Str(id))
    ensures var r := ResolveOption(def, OptionLabel(def, id));
            r.Some? && r.value.id == id <==> OwnsItsLabel(def, id)
  {
    FoundIsThere(def.options, id);
  }

  /** With the guard in front, a label never names its own option. */
  lemma QuotedLabelResolvesElsewhere(def: Definition, id: string)
    requires IsAdmitted(def.options) && IsActiveOption(def, Str(id))
    ensures var r := ResolveOption(def, "'" + OptionLabel(def, id)); r.Some? ==> r.value.id != id
  {
    var text := OptionLabel(def, id);
    FoundIsThere(def.options, id);
    ApostropheChangesHeader(text);
    QuoteComesFirst(text);
    IdsHaveNoQuote(def.options);
    assert forall o | o in def.options && o.id == id :: o.labelText == text;
  }

  lemma IdsHaveNoQuote(options: seq<PicklistOption>)
    requires IsAdmitted(options)
    ensures forall o | o in options :: o.id != "" && Lower(o.id)[0] != '\''
  {
    forall o | o in options ensures o.id != "" && Lower(o.id)[0] != '\'' {
      assert IsOptionId(o.id) && o.id[0] == 'o';
    }
  }

  lemma AdmittedLabel(def: Definition, id: string)
    requires IsAdmitted(def.options) && IsActiveOption(def, Str(id))
    ensures IsTrimmed(OptionLabel(def, id)) && IsOnePiece(OptionLabel(def, id))
  {
    FoundIsThere(def.options, id);
  }

  lemma BlankOwnsNothing(def: Definition, id: string)
    requires OptionLabel(def, id) == ""
    ensures !OwnsItsLabel(def, id)
  {
    assert NormaliseHeader("") == "";
  }

  lemma PicklistSurvivesIff(host: Host, def: Definition, v: Json)
    requires def.kind == Picklist && WellFormed(def, v) && IsAdmitted(def.options)
    ensures Reimported(host, def, v) == Some(v) <==> OwnsItsLabel(def, v.s) && !IsFormula(OptionLabel(def, v.s))
  {
    var text := OptionLabel(def, v.s);
    AdmittedLabel(def, v.s);
    if text == "" {
      BlankOwnsNothing(def, v.s);
      assert CellText("") == None;
      assert Exported(host, def, v) == "";
    } else {
      ReimportedFrom(host, def, v, text);
      ResolvesItsLabelIff(def, v.s);
      QuotedLabelResolvesElsewhere(def, v.s);
      PickedFromCell(host, def, Guarded(text), v);
    }
  }

  /** A picklist cell stores the id that it resolves to. */
  lemma PickedFromCell(host: Host, def: Definition, cell: string, v: Json)
    requires def.kind == Picklist && v.Str? && DistinctIds(def.options)
    ensures FromCell(host, def, cell) == Some(v)
            <==> ResolveOption(def, cell).Some? && ResolveOption(def, cell).value.id == v.s
  {
    if ResolveOption(def, cell).Some? {
      FoundById(def.options, ResolveOption(def, cell).value);
    }
  }

  // ----- Multi-picklists -----

  lemma {:induction false} NoMoreIdsThanParts(def: Definition, parts: seq<string>)
    ensures OptionIds(def, parts).Some? ==> |OptionIds(def, parts).value| <= |parts|
  {
    hide ResolveOption;
    if parts != [] {
      NoMoreIdsThanParts(def, parts[..|parts| - 1]);
    }
  }

  ghost predicate ResolvesTo(def: Definition, parts: seq<string>, ids: seq<string>, i: nat)
    requires i < |parts| && i < |ids|
  {
    ResolveOption(def, parts[i]).Some? && ResolveOption(def, parts[i]).value.id == ids[i]
  }

  /** As many different ids as parts come out only if every part names its own. */
  lemma {:induction false} OptionIdsIff(def: Definition, parts: seq<string>, ids: seq<string>)
    requires NoRepeats(ids) && |ids| >= |parts|
    ensures OptionIds(def, parts) == Some(ids)
            <==> |ids| == |parts| && forall i | 0 <= i < |parts| :: ResolvesTo(def, parts, ids, i)
  {
    hide ResolveOption;
    var n := |parts| - 1;
    if parts == [] {
    } else {
      NoMoreIdsThanParts(def, parts[..n]);
      OptionIdsIff(def, parts[..n], ids[..n]);
      assert forall i | 0 <= i < n :: ResolvesTo(def, parts[..n], ids[..n], i) <==> ResolvesTo(def, parts, ids, i);
      assert ids[n] !in ids[..n];
      if OptionIds(def, parts) == Some(ids) {
        assert OptionIds(def, parts[..n]).value == ids[..n];
        assert ResolvesTo(def, parts, ids, n);
      } else if |ids| == |parts| && ResolvesTo(def, parts, ids, n) {
        assert ids == ids[..n] + [ids[n]];
      }
    }
  }

  function ItemIds(items: seq<Json>): (r: seq<string>)
    requires forall x | x in items :: x.Str?
    ensures |r| == |items| && forall i | 0 <= i < |r| :: r[i] == items[i].s
  {
    seq(|items|, i requires 0 <= i < |items| => assert items[i] in items; items[i].s)
  }

  /** The labels as they arrive, the first one guarded if it starts a formula. */
  function Arriving(labels: seq<string>): (r: seq<string>)
    ensures |r| == |labels|
  {
    if labels != [] && IsFormula(labels[0]) then ["'" + labels[0]] + labels[1..] else labels
  }

  ghost predicate ArePieces(pieces: seq<string>) {
    forall piece | piece in pieces :: IsTrimmed(piece) && IsOnePiece(piece)
  }

  lemma ArrivingArePieces(labels: seq<string>)
    requires ArePieces(labels)
    ensures ArePieces(Arriving(labels))
  {
    if labels != [] && IsFormula(labels[0]) {
      var q := "'" + labels[0];
      assert labels[0] in labels && IsTrimmed(q) && IsOnePiece(q);
    }
  }

  /** The guard of the joined text is the guard of its first label. */
  lemma GuardedJoin(labels: seq<string>)
    requires ArePieces(labels)
    ensures Guarded(Join(labels)) == Join(Arriving(labels))
    ensures IsFormula(Join(labels)) <==> labels != [] && IsFormula(labels[0])
  {
    if |labels| == 1 {
      assert Join(labels) == labels[0];
    } else if |labels| > 1 {
      assert labels[0] in labels;
      JoinedHead(labels[0], "; " + Join(labels[1..]));
      JoinStep(labels);
      JoinStep(Arriving(labels));
      assert Arriving(labels)[1..] == labels[1..];
    }
  }

  lemma JoinStep(pieces: seq<string>)
    requires |pieces| > 1
    ensures Join(pieces) == pieces[0] + ("; " + Join(pieces[1..]))
  {
  }

  lemma JoinedHead(head: string, tail: string)
    requires tail != "" && tail[0] == ';' && IsTrimmed(head)
    ensures IsFormula(head + tail) <==> IsFormula(head)
    ensures "'" + (head + tail) == ("'" + head) + tail
  {
    assert head == "" ==> head + tail == tail;
  }

  lemma JoinStarts(pieces: seq<string>)
    requires ArePieces(pieces)
    ensures Join(pieces) != "" ==> !IsSpace(Join(pieces)[0])
    ensures TrimLeft(Join(pieces)) == Join(pieces)
  {
    if pieces != [] {
      assert pieces[0] in pieces;
    }
  }

  lemma CellOfJoin(labels: seq<string>)
    requires ArePieces(labels)
    ensures var text := TrimRight(Join(Arriving(labels)));
            CellText(Join(labels)) == if text == "" then None else Some(text)
  {
    var text := Join(Arriving(labels));
    GuardedJoin(labels);
    ArrivingArePieces(labels);
    JoinStarts(Arriving(labels));
    TrimRightEnds(text);
    assert Trim(text) == TrimRight(text);
    GuardedOnce(Join(labels), TrimRight(text));
  }

  /** The import's guard finds nothing left to do. */
  lemma GuardedOnce(s: string, t: string)
    requires t <= Guarded(s)
    ensures Guarded(t) == t
  {
    assert t != "" ==> t[0] == Guarded(s)[0];
  }

  /** The arriving cell has the arriving labels as its parts, blank ones lost. */
  lemma PartsOfCell(labels: seq<string>)
    requires ArePieces(labels)
    ensures match CellText(Join(labels))
            case None => Kept(Arriving(labels)) == []
            case Some(cell) => Parts(cell) == Kept(Arriving(labels))
  {
    var pieces := Arriving(labels);
    CellOfJoin(labels);
    ArrivingArePieces(labels);
    PartsOfTrimRight(Join(pieces));
    PartsOfJoin(pieces);
    BlankHasNoParts();
  }

  lemma BlankHasNoParts()
    ensures Parts("") == []
  {
    assert Split("") == [""] && TrimmedPiece("") == [] && [""][1..] == [];
    assert Kept([""]) == TrimmedPiece("") + Kept([]);
  }

  /** What a list of labels is stored as: nothing, or the ids its parts name. */
  lemma ListFromCell(host: Host, def: Definition, v: Json)
    requires def.kind == MultiPicklist && IsPrintable(def, v) && DistinctIds(def.options)
    requires ArePieces(ItemLabels(def, v.items))
    ensures var ids := OptionIds(def, Kept(Arriving(ItemLabels(def, v.items))));
            Reimported(host, def, v) == if ids == None || ids == Some([]) then None else Some(Arr(AsStrings(ids.value)))
  {
    var labels := ItemLabels(def, v.items);
    PartsOfCell(labels);
    match CellText(Join(labels))
    case None => NoPartsNoIds(def);
    case Some(cell) =>
      var ids := OptionIds(def, Parts(cell));
      if ids.Some? {
        ParsedIdsAreAccepted(def, ids.value, Parts(cell));
      }
  }

  lemma NoPartsNoIds(def: Definition)
    ensures OptionIds(def, []) == Some([])
  {
  }

  lemma ItemsAreTheirIds(items: seq<Json>, ids: seq<string>)
    requires forall x | x in items :: x.Str?
    ensures AsStrings(ids) == items <==> ids == ItemIds(items)
  {
    forall i | 0 <= i < |items| ensures AsStrings(ItemIds(items))[i] == items[i] {
      assert items[i] in items;
    }
    assert AsStrings(ids) == items ==> |ids| == |items| && forall i | 0 <= i < |ids| :: AsStrings(ids)[i] == items[i];
  }

  lemma ItemFacts(def: Definition, v: Json)
    requires def.kind == MultiPicklist && WellFormed(def, v) && IsAdmitted(def.options)
    ensures IsPrintable(def, v) && NoRepeats(ItemIds(v.items)) && ArePieces(ItemLabels(def, v.items))
    ensures forall i | 0 <= i < |v.items| :: IsActiveOption(def, Str(ItemIds(v.items)[i]))
    ensures forall i | 0 <= i < |v.items| :: ItemLabels(def, v.items)[i] == OptionLabel(def, ItemIds(v.items)[i])
  {
    var (items, ids) := (v.items, ItemIds(v.items));
    forall i | 0 <= i < |items|
      ensures IsActiveOption(def, Str(ids[i])) && items[i] == Str(ids[i])
      ensures IsTrimmed(OptionLabel(def, ids[i])) && IsOnePiece(OptionLabel(def, ids[i]))
    {
      assert items[i] in items && IsActiveOption(def, items[i]);
      AdmittedLabel(def, ids[i]);
    }
    forall i, j | 0 <= i < j < |ids| ensures ids[i] != ids[j] {
      assert items[i] != items[j];
    }
  }

  /** Which arriving label names its own option. */
  lemma ArrivesIff(def: Definition, labels: seq<string>, ids: seq<string>, i: nat)
    requires IsAdmitted(def.options) && i < |labels| == |ids|
    requires IsActiveOption(def, Str(ids[i])) && labels[i] == OptionLabel(def, ids[i])
    ensures ResolvesTo(def, Arriving(labels), ids, i) <==> OwnsItsLabel(def, ids[i]) && !(i == 0 && IsFormula(labels[0]))
    ensures OwnsItsLabel(def, ids[i]) ==> labels[i] != ""
  {
    hide OptionLabel, OwnsItsLabel, ResolveOption, IsAdmitted, IsFormula;
    ResolvesItsLabelIff(def, ids[i]);
    QuotedLabelResolvesElsewhere(def, ids[i]);
    if labels[i] == "" {
      BlankOwnsNothing(def, ids[i]);
    }
  }

  lemma MultiPicklistSurvivesIff(host: Host, def: Definition, v: Json)
    requires def.kind == MultiPicklist && WellFormed(def, v) && IsAdmitted(def.options)
    ensures Reimported(host, def, v) == Some(v)
            <==> (forall x | x in v.items :: OwnsItsLabel(def, x.s)) && !IsFormula(Join(ItemLabels(def, v.items)))
  {
    ItemFacts(def, v);
    var (labels, ids) := (ItemLabels(def, v.items), ItemIds(v.items));
    var (arriving, parts) := (Arriving(labels), Kept(Arriving(labels)));
    ListFromCell(host, def, v);
    ItemsAreTheirIds(v.items, ids);
    ItemsAreTheirIds(v.items, if OptionIds(def, parts).Some? then OptionIds(def, parts).value else []);
    GuardedJoin(labels);
    ArrivingSurvivesIff(def, labels, ids);
    assert forall i | 0 <= i < |ids| :: v.items[i] in v.items && ids[i] == v.items[i].s;
    assert (forall x | x in v.items :: OwnsItsLabel(def, x.s)) <==> forall i | 0 <= i < |ids| :: OwnsItsLabel(def, ids[i]);
  }

  lemma ArrivingSurvivesIff(def: Definition, labels: seq<string>, ids: seq<string>)
    requires IsAdmitted(def.options) && 0 < |labels| == |ids| && NoRepeats(ids) && ArePieces(labels)
    requires forall i | 0 <= i < |ids| :: IsActiveOption(def, Str(ids[i])) && labels[i] == OptionLabel(def, ids[i])
    ensures OptionIds(def, Kept(Arriving(labels))) == Some(ids)
            <==> (forall i | 0 <= i < |ids| :: OwnsItsLabel(def, ids[i])) && !IsFormula(labels[0])
  {
    var (arriving, parts) := (Arriving(labels), Kept(Arriving(labels)));
    ArrivingArePieces(labels);
    KeptOfTrimmed(arriving);
    OptionIdsIff(def, parts, ids);
    forall i | 0 <= i < |ids|
      ensures ResolvesTo(def, arriving, ids, i) <==> OwnsItsLabel(def, ids[i]) && !(i == 0 && IsFormula(labels[0]))
      ensures OwnsItsLabel(def, ids[i]) ==> labels[i] != ""
    {
      ArrivesIff(def, labels, ids, i);
    }
  }

  /** Export then import gives the stored value back exactly when `Survives` says so. */
  lemma RoundTripIff(host: Host, def: Definition, v: Json)
    requires IsFaithful(host) && WellFormed(def, v)
    requires def.kind == Picklist || def.kind == MultiPicklist ==> IsAdmitted(def.options)
    requires def.kind == Number ==> IsDouble(host, v.n.value)
    requires def.kind == Currency ==> -2251799813685248.0 < v.n.value < 2251799813685248.0
    ensures Reimported(host, def, v) == Some(v) <==> Survives(def, v)
  {
    match def.kind
    case ShortText => TextSurvivesIff(host, def, v);
    case LongText => TextSurvivesIff(host, def, v);
    case Number => NumberSurvivesIff(host, def, v);
    case Currency => CurrencySurvives(host, def, v);
    case Date => DateSurvives(host, def, v);
    case Boolean => BooleanSurvives(host, def, v);
    case Picklist => PicklistSurvivesIff(host, def, v);
    case MultiPicklist => MultiPicklistSurvivesIff(host, def, v);
  }
}
