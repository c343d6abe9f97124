/** Cells of custom columns: from the text of an import file to the values a patch holds. */
module ImportCells {
  import opened Wrappers
  import opened Text
  import opened CustomValidator
  import opened ImportHeaders
  import Amounts

  // ----- Options -----

  function ByLabel(options: seq<PicklistOption>, token: string): (o: Option<PicklistOption>)
    ensures o.Some? ==> o.value in options && o.value.active && NormaliseHeader(o.value.labelText) == token
    ensures o.None? ==> forall p | p in options && p.active :: NormaliseHeader(p.labelText) != token
  {
    if options == [] then None
    else if options[0].active && NormaliseHeader(options[0].labelText) == token then Some(options[0])
    else ByLabel(options[1..], token)
  }

  function ById(options: seq<PicklistOption>, token: string): (o: Option<PicklistOption>)
    ensures o.Some? ==> o.value in options && o.value.active && Lower(o.value.id) == token
  {
    if options == [] then None
    else if options[0].active && Lower(options[0].id) == token then Some(options[0])
    else ById(options[1..], token)
  }

  /** Labels first, then ids; the blank token matches nothing. */
  function ResolveOption(def: Definition, raw: string): (o: Option<PicklistOption>)
    ensures o.Some? ==> o.value in def.options && o.value.active
  {
    var token := NormaliseHeader(raw);
    if token == "" then None
    else if ByLabel(def.options, token).Some? then ByLabel(def.options, token)
    else ById(def.options, token)
  }

  /** The first active option whose normalised label is the token. */
  ghost predicate IsFirstLabelled(options: seq<PicklistOption>, token: string, i: int) {
    && 0 <= i < |options| && options[i].active && NormaliseHeader(options[i].labelText) == token
    && forall j | 0 <= j < i :: !(options[j].active && NormaliseHeader(options[j].labelText) == token)
  }

  /** The first active option whose id is the token, whatever its case. */
  ghost predicate IsFirstNamed(options: seq<PicklistOption>, token: string, i: int) {
    && 0 <= i < |options| && options[i].active && Lower(options[i].id) == token
    && forall j | 0 <= j < i :: !(options[j].active && Lower(options[j].id) == token)
  }

  lemma {:induction false} ByLabelIsFirst(options: seq<PicklistOption>, token: string)
    ensures ByLabel(options, token).Some? ==>
              exists i :: IsFirstLabelled(options, token, i) && options[i] == ByLabel(options, token).value
    ensures ByLabel(options, token).None? ==> forall i :: !IsFirstLabelled(options, token, i)
  {
    hide NormaliseHeader;
    if options != [] && ByLabel(options, token).Some? {
      if options[0].active && NormaliseHeader(options[0].labelText) == token {
        assert IsFirstLabelled(options, token, 0);
      } else {
        ByLabelIsFirst(options[1..], token);
        var i :| IsFirstLabelled(options[1..], token, i) && options[1..][i] == ByLabel(options, token).value;
        assert forall j | 0 < j <= i + 1 :: options[j] == options[1..][j - 1];
        assert IsFirstLabelled(options, token, i + 1);
      }
    }
  }

  lemma {:induction false} ByIdIsFirst(options: seq<PicklistOption>, token: string)
    ensures ById(options, token).Some? ==>
              exists i :: IsFirstNamed(options, token, i) && options[i] == ById(options, token).value
    ensures ById(options, token).None? ==> forall p | p in options && p.active :: Lower(p.id) != token
  {
    hide Lower;
    if options != [] {
      if options[0].active && Lower(options[0].id) == token {
        assert IsFirstNamed(options, token, 0);
      } else {
        ByIdIsFirst(options[1..], token);
        assert options == [options[0]] + options[1..];
        if ById(options, token).Some? {
          var i :| IsFirstNamed(options[1..], token, i) && options[1..][i] == ById(options, token).value;
          assert forall j | 0 < j <= i + 1 :: options[j] == options[1..][j - 1];
          assert IsFirstNamed(options, token, i + 1);
        }
      }
    }
  }

  /** A cell names the first active option with its label, else the first with its id; a blank one names none. */
  lemma ResolvedIff(def: Definition, raw: string, o: PicklistOption)
    ensures var token := NormaliseHeader(raw);
            ResolveOption(def, raw) == Some(o)
            <==> token != ""
                 && ((exists i :: IsFirstLabelled(def.options, token, i) && def.options[i] == o)
                     || ((forall i :: !IsFirstLabelled(def.options, token, i))
                         && exists i :: IsFirstNamed(def.options, token, i) && def.options[i] == o))
  {
    var token := NormaliseHeader(raw);
    ByLabelIsFirst(def.options, token);
    ByIdIsFirst(def.options, token);
    hide NormaliseHeader, Lower, ByLabel, ById;
    forall i, j | IsFirstLabelled(def.options, token, i) && IsFirstLabelled(def.options, token, j) ensures i == j {
    }
    forall i, j | IsFirstNamed(def.options, token, i) && IsFirstNamed(def.options, token, j) ensures i == j {
    }
  }

  // ----- Multi-picklist cells -----

  predicate IsListSeparator(c: char) {
    c == ';' || c == '|'
  }

  /** `raw.split(/[;|]/)` */
  function Split(raw: string): (pieces: seq<string>)
    ensures pieces != []
  {
    if raw == [] then [""]
    else
      var rest := Split(raw[1..]);
      if IsListSeparator(raw[0]) then [""] + rest else [[raw[0]] + rest[0]] + rest[1..]
  }

  lemma SplitCons(c: char, raw: string)
    ensures Split([c] + raw) == if IsListSeparator(c) then [""] + Split(raw) else [[c] + Split(raw)[0]] + Split(raw)[1..]
  {
    assert ([c] + raw)[1..] == raw;
  }

  lemma SplitStep(c: char, text: string, piece: string, rest: seq<string>)
    requires !IsListSeparator(c) && Split(text) == [piece] + rest
    ensures Split([c] + text) == [[c] + piece] + rest
  {
    SplitCons(c, text);
    hide Split;
  }

  lemma {:induction false} SplitAt(piece: string, separator: char, raw: string)
    requires IsListSeparator(separator) && forall c | c in piece :: !IsListSeparator(c)
    ensures Split(piece) == [piece] && Split(piece + [separator] + raw) == [piece] + Split(raw)
  {
    if piece == "" {
      assert "" + [separator] + raw == [separator] + raw;
      SplitCons(separator, raw);
    } else {
      hide Split;
      var (c, rest) := (piece[0], piece[1..]);
      SplitAt(rest, separator, raw);
      SplitStep(c, rest, rest, []);
      SplitStep(c, rest + [separator] + raw, rest, Split(raw));
      assert piece == [c] + rest;
      assert piece + [separator] + raw == [c] + (rest + [separator] + raw);
    }
  }

  /** A list cell is cut at each semicolon and each bar, and nowhere else. */
  lemma SplitAtFirst(piece: string, raw: string)
    requires ';' !in piece && '|' !in piece
    ensures Split(piece) == [piece]
    ensures Split(piece + ";" + raw) == Split(piece + "|" + raw) == [piece] + Split(raw)
  {
    SplitAt(piece, ';', raw);
    SplitAt(piece, '|', raw);
  }

  function TrimmedPiece(piece: string): seq<string> {
    if Trim(piece) == "" then [] else [Trim(piece)]
  }

  /** Trimmed, and empty ones dropped. */
  function Kept(pieces: seq<string>): seq<string> {
    if pieces == [] then [] else TrimmedPiece(pieces[0]) + Kept(pieces[1..])
  }

  function Parts(raw: string): seq<string> {
    Kept(Split(raw))
  }

  /** The ids the parts name, first occurrences in order; None if some part names no option. */
  function OptionIds(def: Definition, parts: seq<string>): Option<seq<string>> {
    if parts == [] then Some([])
    else match OptionIds(def, parts[..|parts| - 1])
      case None => None
      case Some(ids) =>
        match ResolveOption(def, parts[|parts| - 1])
        case None => None
        case Some(option) => Some(if option.id in ids then ids else ids + [option.id])
  }

  lemma {:induction false} UnknownPartStays(def: Definition, parts: seq<string>, k: nat)
    requires k <= |parts| && OptionIds(def, parts[..k]) == None
    ensures OptionIds(def, parts) == None
    decreases |parts|
  {
    if k == |parts| {
      assert parts[..k] == parts;
    } else {
      assert parts[..|parts| - 1][..k] == parts[..k];
      UnknownPartStays(def, parts[..|parts| - 1], k);
    }
  }

  method ParseMultiPicklist(def: Definition, raw: string) returns (r: Option<seq<string>>)
    ensures r == OptionIds(def, Parts(raw))
  {
    hide ResolveOption, Parts;
    var parts := Parts(raw);
    var ids: seq<string> := [];
    for i := 0 to |parts|
      invariant OptionIds(def, parts[..i]) == Some(ids)
    {
      assert parts[..i + 1][..i] == parts[..i];
      var option := ResolveOption(def, parts[i]);
      if option.None? {
        UnknownPartStays(def, parts, i + 1);
        return None;
      }
      if option.value.id !in ids {
        ids := ids + [option.value.id];
      }
    }
    assert parts[..|parts|] == parts;
    return Some(ids);
  }

  // ----- One cell -----

  datatype CellCode = BadNumber | BadAmount | BadBoolean | NoSuchOption

  /** The host's arithmetic: rounding to a double, `Number` on text, and `String` on a finite number. */
  datatype Host = Host(round: real -> real, number: string -> Num, text: real -> string)

  const TRUE_TOKENS: set<string> := {"true", "yes", "oui", "ja", "1", "x"}
  const FALSE_TOKENS: set<string> := {"false", "no", "non", "nein", "0"}

  function ParseBoolean(raw: string): Result<Json, CellCode> {
    var token := Lower(Trim(raw));
    if token in TRUE_TOKENS then Ok(Bool(true))
    else if token in FALSE_TOKENS then Ok(Bool(false))
    else Err(BadBoolean)
  }

  /** The six ways to say yes and the five to say no, in any case and spacing. */
  lemma BooleanCells(raw: string, t: string)
    requires IsTrimming(raw, t)
    ensures ParseBoolean(raw) == Ok(Bool(true))
            <==> Lower(t) == "true" || Lower(t) == "yes" || Lower(t) == "oui" || Lower(t) == "ja" || Lower(t) == "1" || Lower(t) == "x"
    ensures ParseBoolean(raw) == Ok(Bool(false))
            <==> Lower(t) == "false" || Lower(t) == "no" || Lower(t) == "non" || Lower(t) == "nein" || Lower(t) == "0"
    ensures ParseBoolean(raw).Err? ==> ParseBoolean(raw) == Err(BadBoolean)
  {
    TrimmingIsTrim(raw, t);
  }

  /** `raw.replace(",", ".")`: the first comma only. */
  function FirstCommaDotted(s: string): string {
    if s == [] then [] else if s[0] == ',' then "." + s[1..] else [s[0]] + FirstCommaDotted(s[1..])
  }

  /** A number cell means the same with its first comma as a point and without its spaces. */
  lemma {:induction false} FirstCommaIsPoint(u: string, v: string)
    requires ',' !in u
    ensures FirstCommaDotted(u) == u && FirstCommaDotted(u + "," + v) == u + "." + v
  {
    if u == "" {
      assert "" + "," + v == [','] + v && ([','] + v)[1..] == v;
    } else {
      assert (u + "," + v)[1..] == u[1..] + "," + v;
      FirstCommaIsPoint(u[1..], v);
    }
  }

  function AsStrings(ids: seq<string>): (r: seq<Json>)
    ensures |r| == |ids| && forall i | 0 <= i < |r| :: r[i] == Str(ids[i])
  {
    seq(|ids|, i requires 0 <= i < |ids| => Str(ids[i]))
  }

  function ParseCell(host: Host, def: Definition, raw: string): Result<Json, CellCode> {
    match def.kind
    case ShortText => Ok(Str(raw))
    case LongText => Ok(Str(raw))
    case Date => Ok(Str(raw))
    case Number =>
      var n := host.number(FirstCommaDotted(WithoutSpaces(raw)));
      if n.NotFinite? then Err(BadNumber) else Ok(Numeric(n))
    case Currency =>
      (match Amounts.ParseAmount(host.round, raw)
       case None => Err(BadAmount)
       case Some(cents) => Ok(Numeric(Finite(cents as real))))
    case Boolean => ParseBoolean(raw)
    case Picklist =>
      (match ResolveOption(def, raw)
       case None => Err(NoSuchOption)
       case Some(option) => Ok(Str(option.id)))
    case MultiPicklist =>
      (match OptionIds(def, Parts(raw))
       case None => Err(NoSuchOption)
       case Some(ids) => Ok(Arr(AsStrings(ids))))
  }

  /** Which cells are refused, and with which code. */
  lemma CellRefusedIff(host: Host, def: Definition, raw: string, code: CellCode)
    ensures ParseCell(host, def, raw) == Err(code) <==>
      match def.kind
      case Number => code == BadNumber && host.number(FirstCommaDotted(WithoutSpaces(raw))) == NotFinite
      case Currency => code == BadAmount && !Amounts.IsAmount(Amounts.StripMarks(raw))
      case Boolean => code == BadBoolean && ParseBoolean(raw).Err?
      case Picklist => code == NoSuchOption && ResolveOption(def, raw).None?
      case MultiPicklist => code == NoSuchOption && exists part :: part in Parts(raw) && ResolveOption(def, part).None?
      case _ => false
  {
    hide ResolveOption, Parts, Amounts.IsAmount, Amounts.Value;
    if def.kind == MultiPicklist {
      OptionIdsAre(def, Parts(raw));
    }
  }

  /** The ids of the options that the parts name, part by part. */
  function AllIds(def: Definition, parts: seq<string>): seq<Json> {
    if parts == [] then []
    else AllIds(def, parts[..|parts| - 1])
         + (match ResolveOption(def, parts[|parts| - 1]) case Some(option) => [Str(option.id)] case None => [])
  }

  lemma {:induction false} OptionIdsExistIff(def: Definition, parts: seq<string>)
    ensures OptionIds(def, parts).Some? <==> forall part | part in parts :: ResolveOption(def, part).Some?
  {
    hide ResolveOption;
    if parts != [] {
      OptionIdsExistIff(def, parts[..|parts| - 1]);
      assert parts == parts[..|parts| - 1] + [parts[|parts| - 1]];
    }
  }

  lemma DedupeSnoc(items: seq<Json>, ids: seq<string>, id: string)
    requires Dedupe(items) == AsStrings(ids)
    ensures Dedupe(items + [Str(id)]) == AsStrings(if id in ids then ids else ids + [id])
  {
    StringsMember(ids, id);
    assert (items + [Str(id)])[..|items|] == items;
    hide AsStrings;
  }

  lemma {:induction false} OptionIdsAreDeduped(def: Definition, parts: seq<string>)
    requires OptionIds(def, parts).Some?
    ensures AsStrings(OptionIds(def, parts).value) == Dedupe(AllIds(def, parts))
  {
    if parts == [] {
      assert AsStrings([]) == [];
    } else {
      var first := parts[..|parts| - 1];
      OptionIdsSnoc(def, parts);
      OptionIdsAreDeduped(def, first);
      DedupeSnoc(AllIds(def, first), OptionIds(def, first).value, ResolveOption(def, parts[|parts| - 1]).value.id);
      hide ResolveOption, OptionIds, Dedupe, AsStrings;
    }
  }

  lemma OptionIdsSnoc(def: Definition, parts: seq<string>)
    requires parts != [] && OptionIds(def, parts).Some?
    ensures var (first, last) := (OptionIds(def, parts[..|parts| - 1]), ResolveOption(def, parts[|parts| - 1]));
            && first.Some? && last.Some?
            && OptionIds(def, parts).value
               == if last.value.id in first.value then first.value else first.value + [last.value.id]
  {
    hide ResolveOption;
  }

  /** A list cell gives those ids, each once and in the order in which they first occur, if every part names an option. */
  lemma OptionIdsAre(def: Definition, parts: seq<string>)
    ensures OptionIds(def, parts).Some? <==> forall part | part in parts :: ResolveOption(def, part).Some?
    ensures OptionIds(def, parts).Some? ==>
              AreFirstOccurrences(AllIds(def, parts), AsStrings(OptionIds(def, parts).value))
  {
    OptionIdsExistIff(def, parts);
    if OptionIds(def, parts).Some? {
      OptionIdsAreDeduped(def, parts);
      DedupeIsClean(AllIds(def, parts));
      DedupeKeepsOrder(AllIds(def, parts));
    }
    hide ResolveOption, OptionIds, Dedupe;
  }

  lemma StringsMember(ids: seq<string>, id: string)
    ensures id in ids <==> Str(id) in AsStrings(ids)
    ensures AsStrings(ids + [id]) == AsStrings(ids) + [Str(id)]
  {
    if id in ids {
      var i :| 0 <= i < |ids| && ids[i] == id;
      assert AsStrings(ids)[i] == Str(id);
    }
  }

  // ----- Whatever a cell parses to, the validator takes as it is -----

  ghost predicate DistinctIds(options: seq<PicklistOption>) {
    forall i, j | 0 <= i < j < |options| :: options[i].id != options[j].id
  }

  lemma {:induction false} FoundById(options: seq<PicklistOption>, o: PicklistOption)
    requires DistinctIds(options) && o in options
    ensures FindOption(options, o.id) == Some(o)
  {
    if options[0] != o {
      var j :| 1 <= j < |options| && options[j] == o;
      assert o == options[1..][j - 1];
      FoundById(options[1..], o);
    }
  }

  lemma {:induction false} OptionIdsAreActive(def: Definition, parts: seq<string>)
    requires DistinctIds(def.options) && OptionIds(def, parts).Some?
    ensures NoRepeats(OptionIds(def, parts).value)
    ensures forall id | id in OptionIds(def, parts).value :: IsActiveOption(def, Str(id))
  {
    if parts != [] {
      OptionIdsAreActive(def, parts[..|parts| - 1]);
      FoundById(def.options, ResolveOption(def, parts[|parts| - 1]).value);
    }
  }

  /** The kinds whose cells are coerced; text and dates pass through unchecked. */
  predicate IsCoerced(kind: FieldType) {
    kind != ShortText && kind != LongText && kind != Date
  }

  lemma ParsedCellIsAccepted(host: Host, def: Definition, raw: string)
    requires IsCoerced(def.kind) && DistinctIds(def.options) && ParseCell(host, def, raw).Ok?
    ensures var v := ParseCell(host, def, raw).value;
            Normalize(def, v) == Accept(if v == Arr([]) then None else Some(v))
  {
    var v := ParseCell(host, def, raw).value;
    match def.kind
    case Picklist => FoundById(def.options, ResolveOption(def, raw).value);
    case MultiPicklist => ParsedIdsAreAccepted(def, OptionIds(def, Parts(raw)).value, Parts(raw));
    case _ =>
  }

  lemma ParsedIdsAreAccepted(def: Definition, ids: seq<string>, parts: seq<string>)
    requires def.kind == MultiPicklist && DistinctIds(def.options) && OptionIds(def, parts) == Some(ids)
    ensures Normalize(def, Arr(AsStrings(ids))) == Accept(if ids == [] then None else Some(Arr(AsStrings(ids))))
  {
    var items := AsStrings(ids);
    OptionIdsAreActive(def, parts);
    forall x | x in items ensures IsActiveOption(def, x) {
      var i :| 0 <= i < |items| && items[i] == x;
      assert ids[i] in ids;
    }
    NoBadItemIff(def, items);
    DedupeKeepsClean(items);
  }

  // ----- One row -----

  datatype CellError = CellError(field: string, code: CellCode)

  datatype Reading = Skipped | Parsed(value: Json) | Refused(code: CellCode)

  /** Blank and absent cells are skipped. */
  function ReadCell(host: Host, values: map<string, string>, def: Definition): Reading {
    var alias := Alias(def.key);
    if alias !in values || Trim(values[alias]) == "" then Skipped
    else match ParseCell(host, def, values[alias])
      case Ok(v) => Parsed(v)
      case Err(code) => Refused(code)
  }

  function RowPatch(host: Host, values: map<string, string>, defs: seq<Definition>): Blob {
    if defs == [] then map[]
    else
      var (rest, def) := (RowPatch(host, values, defs[..|defs| - 1]), defs[|defs| - 1]);
      match ReadCell(host, values, def)
      case Parsed(v) => rest[def.key := v]
      case _ => rest
  }

  function RowErrors(host: Host, values: map<string, string>, defs: seq<Definition>): seq<CellError> {
    if defs == [] then []
    else
      var (rest, def) := (RowErrors(host, values, defs[..|defs| - 1]), defs[|defs| - 1]);
      match ReadCell(host, values, def)
      case Refused(code) => rest + [CellError(Alias(def.key), code)]
      case _ => rest
  }

  method BuildPatchFromRow(host: Host, values: map<string, string>, defs: seq<Definition>)
    returns (patch: Blob, errors: seq<CellError>)
    ensures patch == RowPatch(host, values, defs) && errors == RowErrors(host, values, defs)
  {
    patch, errors := map[], [];
    for i := 0 to |defs|
      invariant patch == RowPatch(host, values, defs[..i]) && errors == RowErrors(host, values, defs[..i])
    {
      assert defs[..i + 1][..i] == defs[..i];
      var alias := Alias(defs[i].key);
      if alias in values && Trim(values[alias]) != "" {
        match ParseCell(host, defs[i], values[alias]) {
          case Ok(v) => patch := patch[defs[i].key := v];
          case Err(code) => errors := errors + [CellError(alias, code)];
        }
      }
    }
    assert defs[..|defs|] == defs;
  }

  /** Each column on its own: skipped, in the patch under its key, or named in an error. */
  lemma {:induction false} RowAt(host: Host, values: map<string, string>, defs: seq<Definition>, k: nat)
    requires DistinctKeys(defs) && k < |defs|
    ensures var (def, patch, reading) := (defs[k], RowPatch(host, values, defs), ReadCell(host, values, defs[k]));
            && (def.key in patch <==> reading.Parsed?)
            && (reading.Parsed? ==> patch[def.key] == reading.value)
    ensures forall code :: CellError(Alias(defs[k].key), code) in RowErrors(host, values, defs)
                           <==> ReadCell(host, values, defs[k]) == Refused(code)
  {
    var n := |defs| - 1;
    if k < n {
      RowAt(host, values, defs[..n], k);
      AliasInjective(defs[k].key, defs[n].key);
    } else {
      OthersAlone(host, values, defs[..n], defs[n].key);
    }
  }

  lemma AliasInjective(a: string, b: string)
    ensures Alias(a) == Alias(b) <==> a == b
  {
    assert Alias(a)[3..] == a && Alias(b)[3..] == b;
  }

  lemma {:induction false} OthersAlone(host: Host, values: map<string, string>, defs: seq<Definition>, key: string)
    requires forall def | def in defs :: def.key != key
    ensures key !in RowPatch(host, values, defs)
    ensures forall e | e in RowErrors(host, values, defs) :: e.field != Alias(key)
  {
    if defs != [] {
      var n := |defs| - 1;
      OthersAlone(host, values, defs[..n], key);
      assert defs[n] in defs;
      AliasInjective(key, defs[n].key);
    }
  }
}
