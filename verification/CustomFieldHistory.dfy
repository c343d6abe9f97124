/** What `validatePatch` promises: its result in terms of the patch alone, and over whole histories. */
module CustomFieldHistory {
  import opened Wrappers
  import opened CustomValidator

  /** The entries of a JavaScript object: each key occurs once. */
  ghost predicate IsPatch(patch: seq<Entry>) {
    forall i, j | 0 <= i < j < |patch| :: patch[i].key != patch[j].key
  }

  function Lookup(patch: seq<Entry>, key: string): Option<Json> {
    if patch == [] then None
    else if patch[|patch| - 1].key == key then Some(patch[|patch| - 1].raw)
    else Lookup(patch[..|patch| - 1], key)
  }

  function At(blob: Blob, key: string): Option<Json> {
    if key in blob then Some(blob[key]) else None
  }

  lemma {:induction false} LookupIff(patch: seq<Entry>, key: string, raw: Json)
    requires IsPatch(patch)
    ensures Lookup(patch, key) == Some(raw) <==> Entry(key, raw) in patch
  {
    if patch != [] {
      var n := |patch| - 1;
      LookupIff(patch[..n], key, raw);
      assert patch == patch[..n] + [patch[n]];
      if patch[n].key == key {
        assert forall i | 0 <= i < n :: patch[i].key != key;
        assert Entry(key, raw) !in patch[..n];
      }
    }
  }

  // ----- One key at a time -----

  function AfterEntry(cat: map<string, Definition>, before: Option<Json>, key: string, raw: Option<Json>): Option<Json> {
    if raw.None? then before
    else match Decide(cat, Entry(key, raw.value))
      case Refuse(_) => before
      case Accept(v) => v
  }

  lemma {:induction false} MergedAt(cat: map<string, Definition>, existing: Blob, patch: seq<Entry>, key: string)
    requires IsPatch(patch)
    ensures At(Merged(cat, existing, patch), key) == AfterEntry(cat, At(existing, key), key, Lookup(patch, key))
  {
    if patch != [] {
      var n := |patch| - 1;
      MergedAt(cat, existing, patch[..n], key);
      if patch[n].key == key {
        AbsentEarlier(patch, key);
      }
    }
  }

  lemma {:induction false} AbsentEarlier(patch: seq<Entry>, key: string)
    requires IsPatch(patch) && patch != [] && patch[|patch| - 1].key == key
    ensures Lookup(patch[..|patch| - 1], key) == None
  {
    NotFound(patch[..|patch| - 1], key);
  }

  lemma {:induction false} NotFound(patch: seq<Entry>, key: string)
    requires forall i | 0 <= i < |patch| :: patch[i].key != key
    ensures Lookup(patch, key) == None
  {
    if patch != [] {
      NotFound(patch[..|patch| - 1], key);
    }
  }

  lemma {:induction false} PatchedAt(existing: Blob, patch: seq<Entry>, key: string)
    requires IsPatch(patch)
    ensures At(Patched(existing, patch), key) ==
      match Lookup(patch, key)
      case None => At(existing, key)
      case Some(raw) => if raw == Null || raw == Undefined then None else Some(raw)
  {
    if patch != [] {
      PatchedAt(existing, patch[..|patch| - 1], key);
    }
  }

  lemma SameEverywhere(a: Blob, b: Blob)
    requires forall key :: At(a, key) == At(b, key)
    ensures a == b
  {
    assert forall key :: key in a <==> key in b by {
      forall key ensures key in a <==> key in b {
        assert At(a, key) == At(b, key);
      }
    }
    forall key | key in a ensures a[key] == b[key] {
      assert At(a, key) == At(b, key);
    }
  }

  // ----- Errors: exactly one per bad entry and one per missing field -----

  ghost predicate IsBadEntry(cat: map<string, Definition>, patch: seq<Entry>, err: ValueError) {
    Lookup(patch, err.key).Some? && Decide(cat, Entry(err.key, Lookup(patch, err.key).value)) == Refuse(err.code)
  }

  ghost predicate IsMissingField(cat: map<string, Definition>, blob: Blob, err: ValueError) {
    err.code == RequiredMissing && Misses(cat, blob, err.key)
  }

  /** An entry is bad if no definition has its key, or if it holds a value that its definition refuses. */
  lemma BadEntryIff(cat: map<string, Definition>, patch: seq<Entry>, key: string, code: Code)
    requires IsPatch(patch)
    ensures IsBadEntry(cat, patch, ValueError(key, code))
            <==> exists raw :: Entry(key, raw) in patch
                   && if key in cat then raw != Null && raw != Undefined && IsRefused(cat[key], raw, code)
                      else code == UnknownKey
  {
    if Lookup(patch, key).Some? {
      var raw := Lookup(patch, key).value;
      LookupIff(patch, key, raw);
      if key in cat {
        RefusedIff(cat[key], raw, code);
      }
    }
    forall raw | Entry(key, raw) in patch ensures Lookup(patch, key) == Some(raw) {
      LookupIff(patch, key, raw);
    }
    hide Lookup, Normalize, IsRefused;
  }

  lemma {:induction false} EntryErrorsAreExact(cat: map<string, Definition>, patch: seq<Entry>)
    requires IsPatch(patch)
    ensures NoRepeats(EntryErrors(cat, patch))
    ensures forall err :: err in EntryErrors(cat, patch) <==> IsBadEntry(cat, patch, err)
  {
    if patch != [] {
      var n := |patch| - 1;
      EntryErrorsAreExact(cat, patch[..n]);
      AbsentEarlier(patch, patch[n].key);
      assert forall err | err in EntryErrors(cat, patch[..n]) :: err.key != patch[n].key by {
        forall err | err in EntryErrors(cat, patch[..n]) ensures err.key != patch[n].key {
          assert IsBadEntry(cat, patch[..n], err);
        }
      }
    }
  }

  lemma {:induction false} RequiredErrorsAreExact(cat: map<string, Definition>, keys: seq<string>, blob: Blob)
    requires NoRepeats(keys)
    ensures NoRepeats(RequiredErrors(cat, keys, blob))
    ensures forall err :: err in RequiredErrors(cat, keys, blob) <==> err.key in keys && IsMissingField(cat, blob, err)
  {
    if keys != [] {
      var n := |keys| - 1;
      RequiredErrorsAreExact(cat, keys[..n], blob);
      assert keys == keys[..n] + [keys[n]] && keys[n] !in keys[..n];
    }
  }

  lemma NeverRefusedAsMissing(cat: map<string, Definition>, e: Entry)
    ensures Decide(cat, e) != Refuse(RequiredMissing)
  {
    if e.key in cat && cat[e.key].kind == MultiPicklist && e.raw.Arr? {
      NeverBadAsMissing(cat[e.key], e.raw.items);
    }
  }

  lemma {:induction false} NeverBadAsMissing(def: Definition, items: seq<Json>)
    ensures FirstBadItem(def, items) != Some(RequiredMissing)
  {
    if items != [] {
      NeverBadAsMissing(def, items[..|items| - 1]);
    }
  }

  /** The list is complete and holds nothing twice. */
  lemma ErrorsAreExact(defs: seq<Definition>, existing: Blob, patch: seq<Entry>, enforceRequired: bool)
    requires IsPatch(patch)
    ensures var (cat, errors) := (Catalog(defs), AllErrors(defs, existing, patch, enforceRequired));
            && NoRepeats(errors)
            && forall err :: err in errors <==>
                 IsBadEntry(cat, patch, err) || (enforceRequired && IsMissingField(cat, Merged(cat, existing, patch), err))
  {
    var cat := Catalog(defs);
    var merged := Merged(cat, existing, patch);
    EntryErrorsAreExact(cat, patch);
    CatalogKeysAreItsKeys(defs);
    RequiredErrorsAreExact(cat, CatalogKeys(defs), merged);
    forall err | err in EntryErrors(cat, patch) ensures err.code != RequiredMissing {
      NeverRefusedAsMissing(cat, Entry(err.key, Lookup(patch, err.key).value));
    }
  }

  // ----- Required fields -----

  /** The blob holds a value for the key: neither undefined nor an empty list. */
  ghost predicate HoldsValue(blob: Blob, key: string) {
    key in blob && blob[key] != Undefined && blob[key] != Arr([])
  }

  ghost predicate IsLastFor(defs: seq<Definition>, key: string, i: int) {
    0 <= i < |defs| && defs[i].key == key && forall j | i < j < |defs| :: defs[j].key != key
  }

  /** The last definition of the key asks for a value. */
  ghost predicate IsRequired(defs: seq<Definition>, key: string) {
    exists i :: IsLastFor(defs, key, i) && defs[i].required
  }

  /** The catalog has the last definition of each key. */
  lemma {:induction false} CatalogHoldsLast(defs: seq<Definition>, key: string)
    ensures key in Catalog(defs) <==> exists i :: IsLastFor(defs, key, i)
    ensures forall i | IsLastFor(defs, key, i) :: key in Catalog(defs) && Catalog(defs)[key] == defs[i]
    ensures key in Catalog(defs) && Catalog(defs)[key].required <==> IsRequired(defs, key)
  {
    if defs != [] {
      var n := |defs| - 1;
      CatalogHoldsLast(defs[..n], key);
      if defs[n].key == key {
        assert IsLastFor(defs, key, n) && forall i | IsLastFor(defs, key, i) :: i == n;
      } else {
        forall i ensures IsLastFor(defs, key, i) <==> IsLastFor(defs[..n], key, i) {
          LastStays(defs, key, i);
        }
      }
    }
    hide IsLastFor;
  }

  lemma LastStays(defs: seq<Definition>, key: string, i: int)
    requires defs != [] && defs[|defs| - 1].key != key
    ensures IsLastFor(defs, key, i) <==> IsLastFor(defs[..|defs| - 1], key, i)
  {
    var first := defs[..|defs| - 1];
    assert forall j | 0 <= j < |first| :: first[j] == defs[j];
  }

  /** A field is reported as missing exactly if its definition requires it and the merged blob holds no value. */
  lemma MissingIffReported(defs: seq<Definition>, existing: Blob, patch: seq<Entry>, key: string)
    requires IsPatch(patch)
    ensures ValueError(key, RequiredMissing) in AllErrors(defs, existing, patch, true)
            <==> IsRequired(defs, key) && !HoldsValue(Merged(Catalog(defs), existing, patch), key)
    ensures ValueError(key, RequiredMissing) !in AllErrors(defs, existing, patch, false)
  {
    var cat, err := Catalog(defs), ValueError(key, RequiredMissing);
    ErrorsAreExact(defs, existing, patch, true);
    ErrorsAreExact(defs, existing, patch, false);
    CatalogHoldsLast(defs, key);
    if Lookup(patch, key).Some? {
      NeverRefusedAsMissing(cat, Entry(key, Lookup(patch, key).value));
    }
    assert !IsBadEntry(cat, patch, err);
  }

  /** What passes with required fields enforced holds a value for each of them. */
  lemma RequiredKeysHoldValues(defs: seq<Definition>, existing: Blob, patch: seq<Entry>, key: string)
    requires IsPatch(patch) && Validated(defs, existing, patch, true).Ok? && IsRequired(defs, key)
    ensures HoldsValue(Validated(defs, existing, patch, true).value, key)
  {
    MissingIffReported(defs, existing, patch, key);
  }

  // ----- Success is the normalised merge-patch, in any order, any number of times -----

  function NormalisedEntry(cat: map<string, Definition>, e: Entry): Entry {
    match Decide(cat, e)
    case Refuse(_) => e
    case Accept(None) => Entry(e.key, Null)
    case Accept(Some(v)) => Entry(e.key, v)
  }

  function NormalisedPatch(cat: map<string, Definition>, patch: seq<Entry>): (r: seq<Entry>)
    ensures |r| == |patch| && forall i | 0 <= i < |r| :: r[i] == NormalisedEntry(cat, patch[i])
  {
    seq(|patch|, i requires 0 <= i < |patch| => NormalisedEntry(cat, patch[i]))
  }

  lemma DecidedIsNeverNullish(cat: map<string, Definition>, e: Entry)
    requires Decide(cat, e).Accept? && Decide(cat, e).value.Some?
    ensures WellFormed(cat[e.key], Decide(cat, e).value.value) && !IsNullish(Decide(cat, e).value.value)
  {
    NormalizedIsWellFormed(cat[e.key], e.raw);
  }

  lemma {:induction false} MergedIsPatched(cat: map<string, Definition>, existing: Blob, patch: seq<Entry>)
    requires EntryErrors(cat, patch) == []
    ensures Merged(cat, existing, patch) == Patched(existing, NormalisedPatch(cat, patch))
  {
    if patch != [] {
      var n := |patch| - 1;
      MergedIsPatched(cat, existing, patch[..n]);
      assert NormalisedPatch(cat, patch)[..n] == NormalisedPatch(cat, patch[..n]);
      if Decide(cat, patch[n]).value.Some? {
        DecidedIsNeverNullish(cat, patch[n]);
      }
    }
  }

  /** A successful validation is the raw merge-patch of the normalised patch. */
  lemma SuccessIsNormalisedPatch(defs: seq<Definition>, existing: Blob, patch: seq<Entry>, enforceRequired: bool)
    requires Validated(defs, existing, patch, enforceRequired).Ok?
    ensures Validated(defs, existing, patch, enforceRequired)
         == Ok(Patched(existing, NormalisedPatch(Catalog(defs), patch)))
  {
    MergedIsPatched(Catalog(defs), existing, patch);
  }

  ghost predicate SameEntries(p: seq<Entry>, q: seq<Entry>) {
    IsPatch(p) && IsPatch(q) && forall e :: e in p <==> e in q
  }

  lemma SameLookups(p: seq<Entry>, q: seq<Entry>, key: string)
    requires SameEntries(p, q)
    ensures Lookup(p, key) == Lookup(q, key)
  {
    if Lookup(p, key).Some? {
      LookupIff(p, key, Lookup(p, key).value);
      LookupIff(q, key, Lookup(p, key).value);
    } else if Lookup(q, key).Some? {
      LookupIff(p, key, Lookup(q, key).value);
      LookupIff(q, key, Lookup(q, key).value);
    }
  }

  /** The order of the entries matters only for the order of the errors. */
  lemma OrderDoesNotMatter(defs: seq<Definition>, existing: Blob, p: seq<Entry>, q: seq<Entry>, enforceRequired: bool)
    requires SameEntries(p, q)
    ensures var (a, b) := (Validated(defs, existing, p, enforceRequired), Validated(defs, existing, q, enforceRequired));
            && (a.Ok? <==> b.Ok?)
            && (a.Ok? ==> a == b)
            && (a.Err? ==> NoRepeats(a.error) && NoRepeats(b.error) && forall err :: err in a.error <==> err in b.error)
  {
    var cat := Catalog(defs);
    forall key ensures At(Merged(cat, existing, p), key) == At(Merged(cat, existing, q), key) {
      SameLookups(p, q, key);
      MergedAt(cat, existing, p, key);
      MergedAt(cat, existing, q, key);
    }
    SameEverywhere(Merged(cat, existing, p), Merged(cat, existing, q));
    ErrorsAreExact(defs, existing, p, enforceRequired);
    ErrorsAreExact(defs, existing, q, enforceRequired);
    forall err ensures err in AllErrors(defs, existing, p, enforceRequired) <==> err in AllErrors(defs, existing, q, enforceRequired) {
      SameLookups(p, q, err.key);
    }
    SameMembersSameEmptiness(AllErrors(defs, existing, p, enforceRequired), AllErrors(defs, existing, q, enforceRequired));
  }

  lemma SameMembersSameEmptiness(a: seq<ValueError>, b: seq<ValueError>)
    requires forall err :: err in a <==> err in b
    ensures a == [] <==> b == []
  {
    assert a != [] ==> a[0] in b;
    assert b != [] ==> b[0] in a;
  }

  /** Sending the same patch again to the result changes nothing. */
  lemma PatchingTwiceChangesNothing(defs: seq<Definition>, existing: Blob, patch: seq<Entry>, enforceRequired: bool)
    requires IsPatch(patch) && Validated(defs, existing, patch, enforceRequired).Ok?
    ensures Validated(defs, Validated(defs, existing, patch, enforceRequired).value, patch, enforceRequired)
         == Validated(defs, existing, patch, enforceRequired)
  {
    var cat := Catalog(defs);
    var merged := Merged(cat, existing, patch);
    forall key ensures At(Merged(cat, merged, patch), key) == At(merged, key) {
      MergedAt(cat, existing, patch, key);
      MergedAt(cat, merged, patch, key);
    }
    SameEverywhere(Merged(cat, merged, patch), merged);
  }

  // ----- Histories -----

  datatype Request = Request(defs: seq<Definition>, patch: seq<Entry>, enforceRequired: bool)

  /** The stored blob, and for each key the definition that its value was last written under. */
  datatype State = State(blob: Blob, writers: map<string, Definition>)

  function Served(st: State, req: Request): State {
    match Validated(req.defs, st.blob, req.patch, req.enforceRequired)
    case Err(_) => st
    case Ok(merged) =>
      State(merged, map key | key in merged ::
        if Lookup(req.patch, key).Some? && key in Catalog(req.defs) then Catalog(req.defs)[key]
        else if key in st.writers then st.writers[key]
        else Definition(key, "", ShortText, [], false))
  }

  function After(history: seq<Request>): State {
    if history == [] then State(map[], map[]) else Served(After(history[..|history| - 1]), history[|history| - 1])
  }

  ghost predicate Sound(st: State) {
    st.blob.Keys == st.writers.Keys && forall key | key in st.blob :: WellFormed(st.writers[key], st.blob[key])
  }

  /** No null, no empty string, no empty array. */
  ghost predicate IsClean(v: Json) {
    !IsNullish(v) && v != Str("") && v != Arr([])
  }

  lemma ServingKeepsSound(st: State, req: Request)
    requires Sound(st) && IsPatch(req.patch)
    ensures Sound(Served(st, req))
  {
    var st' := Served(st, req);
    if Validated(req.defs, st.blob, req.patch, req.enforceRequired).Ok? {
      var cat := Catalog(req.defs);
      EntryErrorsAreExact(cat, req.patch);
      forall key | key in st'.blob
        ensures WellFormed(st'.writers[key], st'.blob[key])
      {
        MergedAt(cat, st.blob, req.patch, key);
        var raw := Lookup(req.patch, key);
        if raw.Some? {
          var outcome := Decide(cat, Entry(key, raw.value));
          assert outcome.Refuse? ==> !IsBadEntry(cat, req.patch, ValueError(key, outcome.code));
          DecidedIsNeverNullish(cat, Entry(key, raw.value));
        }
      }
    }
  }

  /** Every stored value is well-formed for the definition that last wrote it. */
  lemma {:induction false} BlobStaysWellFormed(history: seq<Request>)
    requires forall i | 0 <= i < |history| :: IsPatch(history[i].patch)
    ensures Sound(After(history))
  {
    if history != [] {
      BlobStaysWellFormed(history[..|history| - 1]);
      ServingKeepsSound(After(history[..|history| - 1]), history[|history| - 1]);
    }
  }

  /**
   * A record that is created with required fields enforced, whatever came before in the history,
   * holds a value for each required key; created from nothing, one well-formed for its definition.
   */
  lemma {:induction false} CreatedRecordsAreComplete(history: seq<Request>, key: string)
    requires history != [] && forall i | 0 <= i < |history| :: IsPatch(history[i].patch)
    requires var last := history[|history| - 1];
             last.enforceRequired && IsRequired(last.defs, key)
             && Validated(last.defs, After(history[..|history| - 1]).blob, last.patch, true).Ok?
    ensures HoldsValue(After(history).blob, key)
    ensures WellFormed(After(history).writers[key], After(history).blob[key])
    ensures After(history[..|history| - 1]).blob == map[] ==>
              var cat := Catalog(history[|history| - 1].defs); key in cat && WellFormed(cat[key], After(history).blob[key])
  {
    var last, before := history[|history| - 1], After(history[..|history| - 1]);
    RequiredKeysHoldValues(last.defs, before.blob, last.patch, key);
    BlobStaysWellFormed(history);
    if before.blob == map[] {
      MergedAt(Catalog(last.defs), map[], last.patch, key);
      CatalogHoldsLast(last.defs, key);
    }
  }

  /** The picklist has an active option whose id is the empty string. */
  ghost predicate AllowsEmptyId(def: Definition) {
    def.kind == Picklist && IsActiveOption(def, Str(""))
  }

  lemma WellFormedIsClean(def: Definition, v: Json)
    requires WellFormed(def, v) && !AllowsEmptyId(def)
    ensures IsClean(v)
  {
  }

  lemma {:induction false} CatalogIsFromDefs(defs: seq<Definition>, key: string)
    requires key in Catalog(defs)
    ensures Catalog(defs)[key] in defs
  {
    if defs != [] && defs[|defs| - 1].key != key {
      CatalogIsFromDefs(defs[..|defs| - 1], key);
    }
  }

  ghost predicate NoEmptyIds(history: seq<Request>) {
    forall i, def | 0 <= i < |history| && def in history[i].defs :: !AllowsEmptyId(def)
  }

  lemma {:induction false} WritersAllowNoEmptyId(history: seq<Request>)
    requires NoEmptyIds(history)
    ensures forall key | key in After(history).writers :: !AllowsEmptyId(After(history).writers[key])
  {
    if history != [] {
      var n := |history| - 1;
      assert NoEmptyIds(history[..n]);
      WritersAllowNoEmptyId(history[..n]);
      var (before, st) := (After(history[..n]), After(history));
      assert st == Served(before, history[n]);
      forall key | key in st.writers ensures !AllowsEmptyId(st.writers[key]) {
        if key in Catalog(history[n].defs) {
          CatalogIsFromDefs(history[n].defs, key);
          assert !AllowsEmptyId(Catalog(history[n].defs)[key]);
        }
      }
    }
  }

  /** Without such an option the blob never holds a null, an empty string or an empty array. */
  lemma {:induction false} BlobStaysClean(history: seq<Request>)
    requires forall i | 0 <= i < |history| :: IsPatch(history[i].patch)
    requires NoEmptyIds(history)
    ensures forall key | key in After(history).blob :: IsClean(After(history).blob[key])
  {
    BlobStaysWellFormed(history);
    WritersAllowNoEmptyId(history);
    var st := After(history);
    forall key | key in st.blob ensures IsClean(st.blob[key]) {
      WellFormedIsClean(st.writers[key], st.blob[key]);
    }
  }

  lemma SingletonCatalog(def: Definition)
    ensures Catalog([def]) == map[def.key := def] && CatalogKeys([def]) == [def.key]
  {
    assert [def][..0] == [] && Catalog([]) == map[] && CatalogKeys([]) == [];
  }

  lemma SingletonPatch(cat: map<string, Definition>, e: Entry, v: Json)
    requires Decide(cat, e) == Accept(Some(v))
    ensures Merged(cat, map[], [e]) == map[e.key := v] && EntryErrors(cat, [e]) == []
  {
    hide Decide;
    assert [e][..0] == [] && Merged(cat, map[], []) == map[] && EntryErrors(cat, []) == [];
  }

  lemma SingletonRequired(cat: map<string, Definition>, key: string, blob: Blob)
    requires !Misses(cat, blob, key)
    ensures RequiredErrors(cat, [key], blob) == []
  {
    hide Misses;
    assert [key][..0] == [] && RequiredErrors(cat, [], blob) == [];
  }

  /** With one, a single patch stores the empty string. */
  lemma EmptyIdIsStored(def: Definition, enforceRequired: bool)
    requires AllowsEmptyId(def)
    ensures var req := Request([def], [Entry(def.key, Str(""))], enforceRequired);
            IsPatch(req.patch) && After([req]).blob == map[def.key := Str("")]
  {
    var e := Entry(def.key, Str(""));
    var req := Request([def], [e], enforceRequired);
    var cat := Catalog([def]);
    SingletonCatalog(def);
    assert Decide(cat, e) == Accept(Some(Str("")));
    hide Decide, Normalize, WellFormed;
    SingletonPatch(cat, e, Str(""));
    SingletonRequired(cat, def.key, map[def.key := Str("")]);
    assert Validated(req.defs, map[], req.patch, enforceRequired) == Ok(map[def.key := Str("")]);
    assert [req][..0] == [] && After([]) == State(map[], map[]);
    assert After([req]) == Served(State(map[], map[]), req);
  }

  /** A key that no patch names keeps its value, whatever happens to its definition. */
  lemma {:induction false} UnnamedKeysKeepTheirValue(history: seq<Request>, k: nat, key: string)
    requires k <= |history| && forall i | 0 <= i < |history| :: IsPatch(history[i].patch)
    requires forall i | k <= i < |history| :: Lookup(history[i].patch, key) == None
    ensures At(After(history).blob, key) == At(After(history[..k]).blob, key)
    decreases |history|
  {
    if k == |history| {
      assert history[..k] == history;
    } else {
      var n := |history| - 1;
      UnnamedKeysKeepTheirValue(history[..n], k, key);
      assert history[..n][..k] == history[..k];
      MergedAt(Catalog(history[n].defs), After(history[..n]).blob, history[n].patch, key);
    }
  }
}
