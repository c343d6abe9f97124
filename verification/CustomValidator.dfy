/** Custom-field values: what each field type accepts, and merge-patches over a stored blob. */
module CustomValidator {
  import opened Wrappers
  import opened Text
  import Calendar

  datatype FieldType = ShortText | LongText | Number | Currency | Date | Boolean | Picklist | MultiPicklist

  datatype PicklistOption = PicklistOption(id: string, labelText: string, active: bool)

  datatype Definition = Definition(key: string, labelText: string, kind: FieldType, options: seq<PicklistOption>, required: bool)

  /** Any JavaScript value a patch may hold. */
  datatype Json =
    | Null
    | Undefined
    | Bool(b: bool)
    | Numeric(n: Num)
    | Str(s: string)
    | Arr(items: seq<Json>)
    | Obj

  type Blob = map<string, Json>

  datatype Entry = Entry(key: string, raw: Json)

  datatype Code =
    | UnknownKey
    | InvalidType
    | TooLong
    | NotFiniteNumber
    | NotInteger
    | InvalidDate
    | UnknownOption
    | InactiveOption
    | RequiredMissing

  datatype ValueError = ValueError(key: string, code: Code)

  /** `Accept(None)` clears the key. */
  datatype Outcome = Accept(value: Option<Json>) | Refuse(code: Code)

  function MaxLength(kind: FieldType): nat {
    if kind == ShortText then 2000 else 10000
  }

  function NormalizeText(def: Definition, raw: Json): Outcome {
    if !raw.Str? then Refuse(InvalidType)
    else
      var trimmed := Trim(raw.s);
      if trimmed == "" then Accept(None)
      else if |trimmed| > MaxLength(def.kind) then Refuse(TooLong)
      else Accept(Some(Str(trimmed)))
  }

  predicate IsInteger(r: real) {
    r.Floor as real == r
  }

  function NormalizeNumeric(def: Definition, raw: Json): Outcome {
    if !raw.Numeric? then Refuse(InvalidType)
    else if raw.n.NotFinite? then Refuse(NotFiniteNumber)
    else if def.kind == Currency && !IsInteger(raw.n.value) then Refuse(NotInteger)
    else Accept(Some(raw))
  }

  function NormalizeDate(raw: Json): Outcome {
    if !raw.Str? then Refuse(InvalidType)
    else if !Calendar.IsValidCalendarDate(raw.s) then Refuse(InvalidDate)
    else Accept(Some(raw))
  }

  function NormalizeBoolean(raw: Json): Outcome {
    if raw.Bool? then Accept(Some(raw)) else Refuse(InvalidType)
  }

  /** `options.find(o => o.id === id)` */
  function FindOption(options: seq<PicklistOption>, id: string): Option<PicklistOption> {
    if options == [] then None
    else if options[0].id == id then Some(options[0])
    else FindOption(options[1..], id)
  }

  function CheckOption(def: Definition, id: string): Option<Code> {
    match FindOption(def.options, id)
    case None => Some(UnknownOption)
    case Some(option) => if option.active then None else Some(InactiveOption)
  }

  function NormalizePicklist(def: Definition, raw: Json): Outcome {
    if !raw.Str? then Refuse(InvalidType)
    else match CheckOption(def, raw.s)
      case Some(code) => Refuse(code)
      case None => Accept(Some(raw))
  }

  function CheckItem(def: Definition, item: Json): Option<Code> {
    if item.Str? then CheckOption(def, item.s) else Some(InvalidType)
  }

  /** The error of the first bad item. */
  function FirstBadItem(def: Definition, items: seq<Json>): Option<Code> {
    if items == [] then None
    else match FirstBadItem(def, items[..|items| - 1])
      case Some(code) => Some(code)
      case None => CheckItem(def, items[|items| - 1])
  }

  /** First occurrences, in order. */
  function Dedupe(items: seq<Json>): seq<Json> {
    if items == [] then []
    else
      var rest := Dedupe(items[..|items| - 1]);
      if items[|items| - 1] in rest then rest else rest + [items[|items| - 1]]
  }

  function NormalizeMultiPicklist(def: Definition, raw: Json): Outcome {
    if !raw.Arr? then Refuse(InvalidType)
    else match FirstBadItem(def, raw.items)
      case Some(code) => Refuse(code)
      case None => Accept(if Dedupe(raw.items) == [] then None else Some(Arr(Dedupe(raw.items))))
  }

  function Normalize(def: Definition, raw: Json): Outcome {
    match def.kind
    case ShortText => NormalizeText(def, raw)
    case LongText => NormalizeText(def, raw)
    case Number => NormalizeNumeric(def, raw)
    case Currency => NormalizeNumeric(def, raw)
    case Date => NormalizeDate(raw)
    case Boolean => NormalizeBoolean(raw)
    case Picklist => NormalizePicklist(def, raw)
    case MultiPicklist => NormalizeMultiPicklist(def, raw)
  }

  lemma {:induction false} FirstBadStays(def: Definition, items: seq<Json>, k: nat)
    requires k <= |items| && FirstBadItem(def, items[..k]).Some?
    ensures FirstBadItem(def, items) == FirstBadItem(def, items[..k])
    decreases |items|
  {
    if k == |items| {
      assert items[..k] == items;
    } else {
      var n := |items| - 1;
      assert items[..n][..k] == items[..k];
      FirstBadStays(def, items[..n], k);
    }
  }

  /** The loop of the multi-picklist normaliser. */
  method ComputeMultiPicklist(def: Definition, raw: Json) returns (outcome: Outcome)
    ensures outcome == NormalizeMultiPicklist(def, raw)
  {
    if !raw.Arr? {
      return Refuse(InvalidType);
    }
    var items := raw.items;
    var deduped: seq<Json> := [];
    for i := 0 to |items|
      invariant FirstBadItem(def, items[..i]) == None
      invariant deduped == Dedupe(items[..i])
    {
      assert items[..i + 1][..i] == items[..i];
      var code := CheckItem(def, items[i]);
      if code.Some? {
        FirstBadStays(def, items, i + 1);
        return Refuse(code.value);
      }
      if items[i] !in deduped {
        deduped := deduped + [items[i]];
      }
    }
    assert items[..|items|] == items;
    return Accept(if deduped == [] then None else Some(Arr(deduped)));
  }

  // ----- What a stored value must look like -----

  ghost predicate NoRepeats<T>(s: seq<T>) {
    forall i, j | 0 <= i < j < |s| :: s[i] != s[j]
  }

  ghost predicate IsActiveOption(def: Definition, v: Json) {
    v.Str? && FindOption(def.options, v.s).Some? && FindOption(def.options, v.s).value.active
  }

  ghost predicate WellFormed(def: Definition, v: Json) {
    match def.kind
    case ShortText => v.Str? && v.s != "" && IsTrimmed(v.s) && |v.s| <= 2000
    case LongText => v.Str? && v.s != "" && IsTrimmed(v.s) && |v.s| <= 10000
    case Number => v.Numeric? && v.n.Finite?
    case Currency => v.Numeric? && v.n.Finite? && IsInteger(v.n.value)
    case Date => v.Str? && Calendar.IsValidCalendarDate(v.s)
    case Boolean => v.Bool?
    case Picklist => IsActiveOption(def, v)
    case MultiPicklist =>
      v.Arr? && v.items != [] && NoRepeats(v.items) && forall x | x in v.items :: IsActiveOption(def, x)
  }

  lemma {:induction false} DedupeIsClean(items: seq<Json>)
    ensures NoRepeats(Dedupe(items))
    ensures forall x :: x in Dedupe(items) <==> x in items
    ensures Dedupe(items) == [] <==> items == []
  {
    if items != [] {
      var n := |items| - 1;
      DedupeIsClean(items[..n]);
      assert items == items[..n] + [items[n]];
    }
  }

  lemma {:induction false} DedupeKeepsClean(items: seq<Json>)
    requires NoRepeats(items)
    ensures Dedupe(items) == items
  {
    if items != [] {
      var n := |items| - 1;
      DedupeKeepsClean(items[..n]);
      assert items == items[..n] + [items[n]];
      assert items[n] !in items[..n];
    }
  }

  lemma {:induction false} NoBadItemIff(def: Definition, items: seq<Json>)
    ensures FirstBadItem(def, items) == None <==> forall x | x in items :: IsActiveOption(def, x)
  {
    if items != [] {
      var n := |items| - 1;
      NoBadItemIff(def, items[..n]);
      assert items == items[..n] + [items[n]];
      assert CheckItem(def, items[n]) == None <==> IsActiveOption(def, items[n]);
    }
  }

  /** Normalising changes nothing exactly on the well-formed values. */
  lemma FixpointIffWellFormed(def: Definition, v: Json)
    ensures Normalize(def, v) == Accept(Some(v)) <==> WellFormed(def, v)
  {
    match def.kind
    case MultiPicklist => MultiPicklistFixpoint(def, v);
    case ShortText => TextFixpoint(def, v);
    case LongText => TextFixpoint(def, v);
    case _ =>
  }

  lemma TextFixpoint(def: Definition, v: Json)
    ensures NormalizeText(def, v) == Accept(Some(v)) <==>
            v.Str? && v.s != "" && IsTrimmed(v.s) && |v.s| <= MaxLength(def.kind)
  {
    if v.Str? {
      TrimTrims(v.s);
    }
  }

  lemma MultiPicklistFixpoint(def: Definition, v: Json)
    ensures NormalizeMultiPicklist(def, v) == Accept(Some(v)) <==>
            v.Arr? && v.items != [] && NoRepeats(v.items) && forall x | x in v.items :: IsActiveOption(def, x)
  {
    if v.Arr? {
      NoBadItemIff(def, v.items);
      DedupeIsClean(v.items);
      if NoRepeats(v.items) {
        DedupeKeepsClean(v.items);
      }
    }
  }

  /** What comes out is well-formed, so normalising it again changes nothing. */
  lemma NormalizedIsWellFormed(def: Definition, raw: Json)
    requires Normalize(def, raw).Accept? && Normalize(def, raw).value.Some?
    ensures var v := Normalize(def, raw).value.value; WellFormed(def, v) && Normalize(def, v) == Accept(Some(v))
  {
    var v := Normalize(def, raw).value.value;
    if def.kind == MultiPicklist {
      NoBadItemIff(def, raw.items);
      DedupeIsClean(raw.items);
    }
    if def.kind == ShortText || def.kind == LongText {
      TrimTrims(raw.s);
    }
    FixpointIffWellFormed(def, v);
  }

  // ----- What normalising does to each value -----

  /** The first option with the id, which is not active. */
  ghost predicate IsInactiveAt(options: seq<PicklistOption>, id: string, i: int) {
    && 0 <= i < |options| && options[i].id == id && !options[i].active
    && forall j | 0 <= j < i :: options[j].id != id
  }

  /** The options refuse an item: no text, no option's id, or the id of an option that is not active. */
  ghost predicate IsRefusedItem(options: seq<PicklistOption>, item: Json, code: Code) {
    match code
    case InvalidType => !item.Str?
    case UnknownOption => item.Str? && forall o | o in options :: o.id != item.s
    case InactiveOption => item.Str? && exists i :: IsInactiveAt(options, item.s, i)
    case _ => false
  }

  ghost predicate IsFineItem(options: seq<PicklistOption>, item: Json) {
    forall c :: !IsRefusedItem(options, item, c)
  }

  /** The item is refused and the ones before it are fine. */
  ghost predicate IsRefusedAt(options: seq<PicklistOption>, items: seq<Json>, code: Code, k: int) {
    && 0 <= k < |items| && IsRefusedItem(options, items[k], code)
    && forall j | 0 <= j < k :: IsFineItem(options, items[j])
  }

  /** The first item that the options refuse decides. */
  ghost predicate IsRefusedList(options: seq<PicklistOption>, items: seq<Json>, code: Code) {
    exists k :: IsRefusedAt(options, items, code, k)
  }

  ghost predicate IsRefused(def: Definition, raw: Json, code: Code) {
    match def.kind
    case ShortText => if raw.Str? then code == TooLong && |Trim(raw.s)| > 2000 else code == InvalidType
    case LongText => if raw.Str? then code == TooLong && |Trim(raw.s)| > 10000 else code == InvalidType
    case Number => if raw.Numeric? then code == NotFiniteNumber && raw.n.NotFinite? else code == InvalidType
    case Currency =>
      if !raw.Numeric? then code == InvalidType
      else if raw.n.NotFinite? then code == NotFiniteNumber
      else code == NotInteger && raw.n.value.Floor as real != raw.n.value
    case Date => if raw.Str? then code == InvalidDate && !Calendar.IsValidCalendarDate(raw.s) else code == InvalidType
    case Boolean => code == InvalidType && !raw.Bool?
    case Picklist => IsRefusedItem(def.options, raw, code)
    case MultiPicklist => if raw.Arr? then IsRefusedList(def.options, raw.items, code) else code == InvalidType
  }

  lemma {:induction false} FindOptionIsFirst(options: seq<PicklistOption>, id: string)
    ensures FindOption(options, id).None? <==> forall o | o in options :: o.id != id
    ensures FindOption(options, id).Some? && !FindOption(options, id).value.active
            <==> exists i :: IsInactiveAt(options, id, i)
  {
    if options != [] {
      var rest := options[1..];
      FindOptionIsFirst(rest, id);
      assert options == [options[0]] + rest;
      if options[0].id != id {
        InactiveMoves(options, id);
      } else {
        assert !options[0].active ==> IsInactiveAt(options, id, 0);
      }
    }
  }

  lemma InactiveMoves(options: seq<PicklistOption>, id: string)
    requires options != [] && options[0].id != id
    ensures (exists i :: IsInactiveAt(options, id, i)) <==> exists i :: IsInactiveAt(options[1..], id, i)
  {
    var rest := options[1..];
    if i :| IsInactiveAt(options, id, i) {
      assert forall j | 0 <= j < i - 1 :: rest[j] == options[j + 1];
      assert IsInactiveAt(rest, id, i - 1);
    }
    if i :| IsInactiveAt(rest, id, i) {
      assert forall j | 0 < j < i + 1 :: options[j] == rest[j - 1];
      assert IsInactiveAt(options, id, i + 1);
    }
  }

  lemma ItemRefusedIff(def: Definition, item: Json, code: Code)
    ensures CheckItem(def, item) == Some(code) <==> IsRefusedItem(def.options, item, code)
  {
    if item.Str? {
      FindOptionIsFirst(def.options, item.s);
    }
  }

  lemma ItemFineIff(def: Definition, item: Json)
    ensures CheckItem(def, item).None? <==> IsFineItem(def.options, item)
  {
    forall c ensures CheckItem(def, item) == Some(c) <==> IsRefusedItem(def.options, item, c) {
      ItemRefusedIff(def, item, c);
    }
  }

  lemma {:induction false} ListFineIff(def: Definition, items: seq<Json>)
    ensures FirstBadItem(def, items).None? <==> forall x | x in items :: IsFineItem(def.options, x)
  {
    if items != [] {
      var n := |items| - 1;
      ListFineIff(def, items[..n]);
      ItemFineIff(def, items[n]);
      assert items == items[..n] + [items[n]];
    }
  }

  lemma RefusedInPrefix(options: seq<PicklistOption>, items: seq<Json>, code: Code, k: int)
    requires items != []
    ensures k != |items| - 1 ==>
              (IsRefusedAt(options, items, code, k) <==> IsRefusedAt(options, items[..|items| - 1], code, k))
  {
    var first := items[..|items| - 1];
    assert forall j | 0 <= j < |first| :: first[j] == items[j];
    hide IsRefusedItem, IsFineItem;
  }

  lemma RefusedAtLast(options: seq<PicklistOption>, items: seq<Json>, code: Code)
    requires items != []
    ensures IsRefusedAt(options, items, code, |items| - 1)
            <==> IsRefusedItem(options, items[|items| - 1], code)
                 && forall x | x in items[..|items| - 1] :: IsFineItem(options, x)
  {
    var first := items[..|items| - 1];
    assert forall j | 0 <= j < |first| :: first[j] == items[j] && first[j] in first;
    hide IsRefusedItem, IsFineItem;
  }

  lemma {:induction false} ListRefusedIff(def: Definition, items: seq<Json>, code: Code)
    ensures FirstBadItem(def, items) == Some(code) <==> IsRefusedList(def.options, items, code)
  {
    if items != [] {
      var first := items[..|items| - 1];
      ListRefusedIff(def, first, code);
      ListFineIff(def, first);
      ItemRefusedIff(def, items[|items| - 1], code);
      RefusedAtLast(def.options, items, code);
      forall k ensures k != |items| - 1 ==>
        (IsRefusedAt(def.options, items, code, k) <==> IsRefusedAt(def.options, first, code, k))
      {
        RefusedInPrefix(def.options, items, code, k);
      }
      if k :| IsRefusedAt(def.options, first, code, k) {
        RefusedIsNotFine(def.options, first, code, k);
      }
    }
    hide CheckItem, IsRefusedItem, IsFineItem, IsRefusedAt;
  }

  lemma RefusedIsNotFine(options: seq<PicklistOption>, items: seq<Json>, code: Code, k: int)
    requires IsRefusedAt(options, items, code, k)
    ensures k < |items| && !forall x | x in items :: IsFineItem(options, x)
  {
    hide IsRefusedItem;
    assert items[k] in items && !IsFineItem(options, items[k]);
  }

  /** Which values are refused, and with which code. */
  lemma RefusedIff(def: Definition, raw: Json, code: Code)
    ensures Normalize(def, raw) == Refuse(code) <==> IsRefused(def, raw, code)
  {
    match def.kind
    case Picklist => ItemRefusedIff(def, raw, code);
    case MultiPicklist => if raw.Arr? { ListRefusedIff(def, raw.items, code); }
    case _ =>
  }

  /** Blank texts and empty lists clear the key, and nothing else does. */
  lemma ClearedIff(def: Definition, raw: Json)
    ensures Normalize(def, raw) == Accept(None)
            <==> ((def.kind == ShortText || def.kind == LongText) && raw.Str? && forall c | c in raw.s :: IsSpace(c))
                 || (def.kind == MultiPicklist && raw == Arr([]))
  {
    if raw.Str? {
      TrimmedToNothingIff(raw.s);
    }
    if raw.Arr? {
      DedupeIsClean(raw.items);
    }
  }

  /** Accepted texts lose the white space around them, lists their repetitions; other values stay as they are. */
  lemma AcceptedValue(def: Definition, raw: Json, v: Json)
    requires Normalize(def, raw) == Accept(Some(v))
    ensures match def.kind
            case ShortText => raw.Str? && v.Str? && IsTrimming(raw.s, v.s)
            case LongText => raw.Str? && v.Str? && IsTrimming(raw.s, v.s)
            case MultiPicklist => raw.Arr? && v.Arr? && AreFirstOccurrences(raw.items, v.items)
            case _ => v == raw
  {
    match def.kind
    case ShortText => AcceptedText(def, raw, v);
    case LongText => AcceptedText(def, raw, v);
    case MultiPicklist => AcceptedList(def, raw, v);
    case _ =>
  }

  lemma AcceptedText(def: Definition, raw: Json, v: Json)
    requires NormalizeText(def, raw) == Accept(Some(v))
    ensures raw.Str? && v.Str? && IsTrimming(raw.s, v.s)
  {
    TrimIsTrimming(raw.s);
    hide Trim, IsTrimming;
  }

  lemma AcceptedList(def: Definition, raw: Json, v: Json)
    requires NormalizeMultiPicklist(def, raw) == Accept(Some(v))
    ensures raw.Arr? && v.Arr? && AreFirstOccurrences(raw.items, v.items)
  {
    DedupeIsClean(raw.items);
    DedupeKeepsOrder(raw.items);
    hide Dedupe, FirstBadItem;
  }

  /** The same items, each once, in the order in which they first occur. */
  ghost predicate AreFirstOccurrences(items: seq<Json>, r: seq<Json>) {
    && NoRepeats(r)
    && (forall x :: x in r <==> x in items)
    && forall p, q | 0 <= p < q < |r| :: OccursBefore(items, r[p], r[q])
  }

  ghost predicate OccursBefore(items: seq<Json>, x: Json, y: Json) {
    exists k | 0 <= k < |items| :: items[k] == x && y !in items[..k + 1]
  }

  lemma {:induction false} DedupeKeepsOrder(items: seq<Json>)
    ensures forall p, q | 0 <= p < q < |Dedupe(items)| :: OccursBefore(items, Dedupe(items)[p], Dedupe(items)[q])
  {
    if items != [] {
      var n := |items| - 1;
      var (first, r) := (items[..n], Dedupe(items));
      DedupeKeepsOrder(first);
      DedupeIsClean(first);
      forall p, q | 0 <= p < q < |r| ensures OccursBefore(items, r[p], r[q]) {
        if q < |Dedupe(first)| {
          var k :| 0 <= k < n && first[k] == r[p] && r[q] !in first[..k + 1];
          assert items[..k + 1] == first[..k + 1] && items[k] == r[p];
        } else {
          assert r[p] in first;
          var k :| 0 <= k < n && first[k] == r[p];
          assert items[..k + 1] == first[..k + 1] && items[k] == r[p];
        }
      }
    }
  }

  // ----- The catalog -----

  /** `new Map(defs.map(d => [d.key, d]))`: the last definition of a key wins. */
  function Catalog(defs: seq<Definition>): map<string, Definition> {
    if defs == [] then map[] else Catalog(defs[..|defs| - 1])[defs[|defs| - 1].key := defs[|defs| - 1]]
  }

  /** The keys of that map in its iteration order, first insertion first. */
  function CatalogKeys(defs: seq<Definition>): seq<string> {
    if defs == [] then []
    else
      var rest := CatalogKeys(defs[..|defs| - 1]);
      if defs[|defs| - 1].key in rest then rest else rest + [defs[|defs| - 1].key]
  }

  lemma {:induction false} CatalogKeysAreItsKeys(defs: seq<Definition>)
    ensures NoRepeats(CatalogKeys(defs))
    ensures forall k :: k in CatalogKeys(defs) <==> k in Catalog(defs)
    ensures forall k | k in Catalog(defs) :: Catalog(defs)[k].key == k
  {
    if defs != [] {
      CatalogKeysAreItsKeys(defs[..|defs| - 1]);
    }
  }

  method BuildCatalog(defs: seq<Definition>) returns (cat: map<string, Definition>, keys: seq<string>)
    ensures cat == Catalog(defs) && keys == CatalogKeys(defs)
  {
    cat, keys := map[], [];
    for i := 0 to |defs|
      invariant cat == Catalog(defs[..i]) && keys == CatalogKeys(defs[..i])
    {
      assert defs[..i + 1][..i] == defs[..i];
      cat := cat[defs[i].key := defs[i]];
      if defs[i].key !in keys {
        keys := keys + [defs[i].key];
      }
    }
    assert defs[..|defs|] == defs;
  }

  // ----- Merge-patches -----

  function Stored(blob: Blob, key: string, v: Option<Json>): Blob {
    match v
    case None => blob - {key}
    case Some(value) => blob[key := value]
  }

  predicate IsNullish(raw: Json) {
    raw.Null? || raw.Undefined?
  }

  /** The unvalidated patch of `applyCustomMergePatch`, entry by entry. */
  function Patched(existing: Blob, patch: seq<Entry>): Blob {
    if patch == [] then existing
    else
      var e := patch[|patch| - 1];
      Stored(Patched(existing, patch[..|patch| - 1]), e.key, if IsNullish(e.raw) then None else Some(e.raw))
  }

  method ApplyCustomMergePatch(existing: Blob, patch: seq<Entry>) returns (merged: Blob)
    ensures merged == Patched(existing, patch)
  {
    merged := existing;
    for i := 0 to |patch|
      invariant merged == Patched(existing, patch[..i])
    {
      assert patch[..i + 1][..i] == patch[..i];
      if IsNullish(patch[i].raw) {
        merged := merged - {patch[i].key};
      } else {
        merged := merged[patch[i].key := patch[i].raw];
      }
    }
    assert patch[..|patch|] == patch;
  }

  /** What `applyEntry` decides about one entry: an error, or the value to store. */
  function Decide(cat: map<string, Definition>, e: Entry): Outcome {
    if e.key !in cat then Refuse(UnknownKey)
    else if IsNullish(e.raw) then Accept(None)
    else Normalize(cat[e.key], e.raw)
  }

  function Merged(cat: map<string, Definition>, existing: Blob, patch: seq<Entry>): Blob {
    if patch == [] then existing
    else
      var rest := Merged(cat, existing, patch[..|patch| - 1]);
      match Decide(cat, patch[|patch| - 1])
      case Refuse(_) => rest
      case Accept(v) => Stored(rest, patch[|patch| - 1].key, v)
  }

  function EntryErrors(cat: map<string, Definition>, patch: seq<Entry>): seq<ValueError> {
    if patch == [] then []
    else
      var e := patch[|patch| - 1];
      EntryErrors(cat, patch[..|patch| - 1])
      + (match Decide(cat, e) case Refuse(code) => [ValueError(e.key, code)] case Accept(_) => [])
  }

  predicate IsEmptyValue(blob: Blob, key: string) {
    key !in blob || blob[key].Undefined? || (blob[key].Arr? && blob[key].items == [])
  }

  predicate Misses(cat: map<string, Definition>, blob: Blob, key: string) {
    key in cat && cat[key].required && IsEmptyValue(blob, key)
  }

  function RequiredErrors(cat: map<string, Definition>, keys: seq<string>, blob: Blob): seq<ValueError> {
    if keys == [] then []
    else
      var key := keys[|keys| - 1];
      RequiredErrors(cat, keys[..|keys| - 1], blob)
      + (if Misses(cat, blob, key) then [ValueError(key, RequiredMissing)] else [])
  }

  function AllErrors(defs: seq<Definition>, existing: Blob, patch: seq<Entry>, enforceRequired: bool): seq<ValueError> {
    var cat := Catalog(defs);
    EntryErrors(cat, patch)
    + (if enforceRequired then RequiredErrors(cat, CatalogKeys(defs), Merged(cat, existing, patch)) else [])
  }

  function Validated(defs: seq<Definition>, existing: Blob, patch: seq<Entry>, enforceRequired: bool)
    : Result<Blob, seq<ValueError>>
  {
    var errors := AllErrors(defs, existing, patch, enforceRequired);
    if errors != [] then Err(errors) else Ok(Merged(Catalog(defs), existing, patch))
  }

  /** The second loop, over the catalog. */
  method EnforceRequired(cat: map<string, Definition>, keys: seq<string>, merged: Blob, found: seq<ValueError>)
    returns (errors: seq<ValueError>)
    requires forall key | key in keys :: key in cat
    ensures errors == found + RequiredErrors(cat, keys, merged)
  {
    errors := found;
    for i := 0 to |keys|
      invariant errors == found + RequiredErrors(cat, keys[..i], merged)
    {
      assert keys[..i + 1][..i] == keys[..i];
      if cat[keys[i]].required && IsEmptyValue(merged, keys[i]) {
        errors := errors + [ValueError(keys[i], RequiredMissing)];
      }
    }
    assert keys[..|keys|] == keys;
  }

  method ValidatePatch(defs: seq<Definition>, existing: Blob, patch: seq<Entry>, enforceRequired: bool)
    returns (result: Result<Blob, seq<ValueError>>)
    ensures result == Validated(defs, existing, patch, enforceRequired)
  {
    var cat, keys := BuildCatalog(defs);
    var errors: seq<ValueError> := [];
    var merged := existing;
    for i := 0 to |patch|
      invariant merged == Merged(cat, existing, patch[..i]) && errors == EntryErrors(cat, patch[..i])
    {
      assert patch[..i + 1][..i] == patch[..i];
      merged, errors := ApplyEntry(cat, merged, errors, patch[i]);
    }
    assert patch[..|patch|] == patch;
    if enforceRequired {
      CatalogKeysAreItsKeys(defs);
      errors := EnforceRequired(cat, keys, merged, errors);
    }
    assert errors == AllErrors(defs, existing, patch, enforceRequired);
    if |errors| > 0 {
      return Err(errors);
    }
    return Ok(merged);
  }

  method ApplyEntry(cat: map<string, Definition>, merged: Blob, errors: seq<ValueError>, e: Entry)
    returns (merged': Blob, errors': seq<ValueError>)
    ensures match Decide(cat, e)
            case Refuse(code) => merged' == merged && errors' == errors + [ValueError(e.key, code)]
            case Accept(v) => merged' == Stored(merged, e.key, v) && errors' == errors
  {
    if e.key !in cat {
      return merged, errors + [ValueError(e.key, UnknownKey)];
    }
    if IsNullish(e.raw) {
      return merged - {e.key}, errors;
    }
    var outcome := Normalize(cat[e.key], e.raw);
    if cat[e.key].kind == MultiPicklist {
      outcome := ComputeMultiPicklist(cat[e.key], e.raw);
    }
    match outcome {
      case Refuse(code) => return merged, errors + [ValueError(e.key, code)];
      case Accept(None) => return merged - {e.key}, errors;
      case Accept(Some(v)) => return merged[e.key := v], errors;
    }
  }
}
