/** Headers of custom columns in an import file: what the template prints and the resolver reads. */
module ImportHeaders {
  import opened Wrappers
  import opened Text
  import opened CustomValidator

  const PREFIX: string := "cf_"

  function Alias(key: string): string {
    PREFIX + key
  }

  /** `s.replace(/\s+/g, " ")` */
  function Collapse(s: string): string {
    if s == [] then []
    else if !IsSpace(s[0]) then [s[0]] + Collapse(s[1..])
    else if |s| > 1 && IsSpace(s[1]) then Collapse(s[1..])
    else " " + Collapse(s[1..])
  }

  /** A run of white space becomes one space. */
  lemma {:induction false} CollapseRun(run: string, rest: string)
    requires run != "" && forall c | c in run :: IsSpace(c)
    requires rest == "" || !IsSpace(rest[0])
    ensures Collapse(run + rest) == " " + Collapse(rest)
  {
    if |run| > 1 {
      assert (run + rest)[1..] == run[1..] + rest;
      CollapseRun(run[1..], rest);
    } else {
      assert (run + rest)[1..] == rest;
    }
  }

  /** Everything else stays. */
  lemma {:induction false} CollapseText(text: string, rest: string)
    requires forall c | c in text :: !IsSpace(c)
    ensures Collapse(text + rest) == text + Collapse(rest)
  {
    if text == "" {
      assert text + rest == rest;
    } else {
      assert (text + rest)[1..] == text[1..] + rest;
      CollapseText(text[1..], rest);
    }
  }

  function NormaliseHeader(raw: string): string {
    Collapse(Lower(Trim(raw)))
  }

  lemma {:induction false} CollapseSplit(a: string, t: string)
    requires a != "" && !IsSpace(a[|a| - 1])
    ensures Collapse(a + t) == Collapse(a) + Collapse(t)
  {
    if |a| == 1 {
      assert (a + t)[1..] == t;
    } else {
      assert (a + t)[1..] == a[1..] + t;
      CollapseSplit(a[1..], t);
    }
  }

  /** However two parts of a header are spaced and cased, they normalise to themselves with one space between. */
  lemma HeaderOfParts(a: string, run: string, b: string)
    requires a != "" && b != "" && IsTrimmed(a) && IsTrimmed(b)
    requires run != "" && forall c | c in run :: IsSpace(c)
    ensures NormaliseHeader(a + run + b) == NormaliseHeader(a) + " " + NormaliseHeader(b)
  {
    TrimKeeps(a);
    TrimKeeps(b);
    TrimKeeps(a + run + b);
    LowerParts(a, run, b);
    CasesKeepSpace(a);
    CasesKeepSpace(run);
    CasesKeepSpace(b);
    hide *;
    CollapseParts(Lower(a), Lower(run), Lower(b));
  }

  lemma LowerParts(a: string, run: string, b: string)
    ensures Lower(a + run + b) == Lower(a) + Lower(run) + Lower(b)
  {
  }

  lemma CollapseParts(a: string, run: string, b: string)
    requires a != "" && !IsSpace(a[|a| - 1]) && b != "" && !IsSpace(b[0])
    requires run != "" && forall c | c in run :: IsSpace(c)
    ensures Collapse(a + run + b) == Collapse(a) + " " + Collapse(b)
  {
    hide Collapse, IsSpace;
    assert a + run + b == a + (run + b);
    CollapseSplit(a, run + b);
    CollapseRun(run, b);
    assert Collapse(a) + (" " + Collapse(b)) == Collapse(a) + " " + Collapse(b);
  }

  lemma HeaderIgnoresCase(a: string)
    requires IsTrimmed(a)
    ensures NormaliseHeader(Upper(a)) == NormaliseHeader(Lower(a)) == NormaliseHeader(a)
  {
    CasesKeepSpace(a);
    TrimKeeps(a);
    TrimKeeps(Upper(a));
    TrimKeeps(Lower(a));
    hide Trim, Collapse, IsSpace, Lower, Upper;
  }

  lemma CasesKeepSpace(s: string)
    ensures forall i | 0 <= i < |s| :: IsSpace(Lower(s)[i]) == IsSpace(s[i]) == IsSpace(Upper(s)[i])
    ensures Lower(Upper(s)) == Lower(Lower(s)) == Lower(s)
    ensures (forall c | c in s :: IsSpace(c)) ==> forall c | c in Lower(s) :: IsSpace(c)
  {
  }

  function AliasOf(def: Definition): string {
    NormaliseHeader(Alias(def.key))
  }

  function LabelOf(def: Definition): string {
    NormaliseHeader(def.labelText)
  }

  function Aliases(defs: seq<Definition>): (r: seq<string>)
    ensures |r| == |defs| && forall i | 0 <= i < |r| :: r[i] == AliasOf(defs[i])
  {
    seq(|defs|, i requires 0 <= i < |defs| => AliasOf(defs[i]))
  }

  function Labels(defs: seq<Definition>): (r: seq<string>)
    ensures |r| == |defs| && forall i | 0 <= i < |r| :: r[i] == LabelOf(defs[i])
  {
    seq(|defs|, i requires 0 <= i < |defs| => LabelOf(defs[i]))
  }

  // ----- The resolver -----

  function LastIndex(names: seq<string>, name: string): (i: Option<nat>)
    ensures i.None? ==> name !in names
    ensures i.Some? ==> i.value < |names| && names[i.value] == name && name !in names[i.value + 1..]
  {
    if names == [] then None
    else if names[|names| - 1] == name then Some(|names| - 1)
    else LastIndex(names[..|names| - 1], name)
  }

  function FirstIndex(names: seq<string>, name: string): (i: Option<nat>)
    ensures i.None? ==> name !in names
    ensures i.Some? ==> i.value < |names| && names[i.value] == name && name !in names[..i.value]
  {
    if names == [] then None
    else
      var n := |names| - 1;
      assert names == names[..n] + [names[n]];
      match FirstIndex(names[..n], name)
      case Some(i) => assert names[..n][..i] == names[..i]; Some(i)
      case None => if names[n] == name then Some(n) else None
  }

  /** No label is empty after cleaning. */
  function LabelIndex(labels: seq<string>, name: string): Option<nat> {
    if name == "" then None else FirstIndex(labels, name)
  }

  /** Which definition a cleaned header names: the last claimant of an alias, else the first of a label. */
  function Claimant(aliases: seq<string>, labels: seq<string>, cleaned: string): Option<nat> {
    if cleaned == "" then None
    else if LastIndex(aliases, cleaned).Some? then LastIndex(aliases, cleaned)
    else FirstIndex(labels, cleaned)
  }

  /** What the resolver built from the catalog says about one header. */
  function Resolved(defs: seq<Definition>, raw: string): Option<Definition> {
    match Claimant(Aliases(defs), Labels(defs), NormaliseHeader(raw))
    case None => None
    case Some(i) => Some(defs[i])
  }

  datatype Resolver = Resolver(byAlias: map<string, Definition>, byLabel: map<string, Definition>) {
    function Resolve(raw: string): Option<Definition> {
      var cleaned := NormaliseHeader(raw);
      if cleaned == "" then None
      else if cleaned in byAlias then Some(byAlias[cleaned])
      else if cleaned in byLabel then Some(byLabel[cleaned])
      else None
    }
  }

  ghost predicate Holds(m: map<string, Definition>, defs: seq<Definition>, name: string, i: Option<nat>) {
    match i
    case None => name !in m
    case Some(k) => name in m && k < |defs| && m[name] == defs[k]
  }

  ghost predicate AliasesHeld(m: map<string, Definition>, defs: seq<Definition>, aliases: seq<string>) {
    forall h :: Holds(m, defs, h, LastIndex(aliases, h))
  }

  ghost predicate LabelsHeld(m: map<string, Definition>, defs: seq<Definition>, labels: seq<string>) {
    forall h :: Holds(m, defs, h, LabelIndex(labels, h))
  }

  lemma AliasesStep(m: map<string, Definition>, defs: seq<Definition>, aliases: seq<string>, i: nat)
    requires i < |aliases| == |defs| && AliasesHeld(m, defs, aliases[..i])
    ensures AliasesHeld(m[aliases[i] := defs[i]], defs, aliases[..i + 1])
  {
    var (now, m') := (aliases[..i + 1], m[aliases[i] := defs[i]]);
    assert now[..i] == aliases[..i];
    forall h ensures Holds(m', defs, h, LastIndex(now, h)) {
      assert Holds(m, defs, h, LastIndex(aliases[..i], h));
    }
  }

  lemma LabelsStep(m: map<string, Definition>, defs: seq<Definition>, labels: seq<string>, i: nat)
    requires i < |labels| == |defs| && LabelsHeld(m, defs, labels[..i])
    ensures LabelsHeld(if labels[i] != "" && labels[i] !in m then m[labels[i] := defs[i]] else m, defs, labels[..i + 1])
  {
    var now := labels[..i + 1];
    var m' := if labels[i] != "" && labels[i] !in m then m[labels[i] := defs[i]] else m;
    assert now[..i] == labels[..i];
    forall h ensures Holds(m', defs, h, LabelIndex(now, h)) {
      assert Holds(m, defs, h, LabelIndex(labels[..i], h));
    }
  }

  lemma HeldResolves(r: Resolver, defs: seq<Definition>, raw: string)
    requires AliasesHeld(r.byAlias, defs, Aliases(defs)) && LabelsHeld(r.byLabel, defs, Labels(defs))
    ensures r.Resolve(raw) == Resolved(defs, raw)
  {
    var cleaned := NormaliseHeader(raw);
    assert Holds(r.byAlias, defs, cleaned, LastIndex(Aliases(defs), cleaned));
    assert Holds(r.byLabel, defs, cleaned, LabelIndex(Labels(defs), cleaned));
  }

  method BuildResolver(defs: seq<Definition>) returns (r: Resolver)
    ensures forall raw :: r.Resolve(raw) == Resolved(defs, raw)
  {
    var byAlias: map<string, Definition>, byLabel: map<string, Definition> := map[], map[];
    ghost var aliases, labels := Aliases(defs), Labels(defs);
    assert aliases[..0] == [] && labels[..0] == [];
    for i := 0 to |defs|
      invariant AliasesHeld(byAlias, defs, aliases[..i])
      invariant LabelsHeld(byLabel, defs, labels[..i])
    {
      AliasesStep(byAlias, defs, aliases, i);
      LabelsStep(byLabel, defs, labels, i);
      byAlias := byAlias[AliasOf(defs[i]) := defs[i]];
      var header := LabelOf(defs[i]);
      if header != "" && header !in byLabel {
        byLabel := byLabel[header := defs[i]];
      }
    }
    assert aliases[..|defs|] == aliases && labels[..|defs|] == labels;
    r := Resolver(byAlias, byLabel);
    forall raw ensures r.Resolve(raw) == Resolved(defs, raw) {
      HeldResolves(r, defs, raw);
    }
  }

  // ----- The template -----

  /** The template falls back to the alias when the label is empty, core, prefixed or another's. */
  predicate PrintsAlias(defs: seq<Definition>, k: nat, isCore: string -> bool)
    requires k < |defs|
  {
    var header := LabelOf(defs[k]);
    var owner := FirstIndex(Labels(defs), header);
    || header == ""
    || isCore(defs[k].labelText)
    || PREFIX <= header
    || (owner.Some? && defs[owner.value].key != defs[k].key)
  }

  function TemplateHeader(defs: seq<Definition>, k: nat, isCore: string -> bool): string
    requires k < |defs|
  {
    if PrintsAlias(defs, k, isCore) then Alias(defs[k].key) else defs[k].labelText
  }

  /**
   * The label is printed exactly if it is not blank, not a core header, not of the aliases' form and
   * no earlier definition claims it; else the alias is.
   */
  lemma LabelIsPrintedIff(defs: seq<Definition>, k: nat, isCore: string -> bool)
    requires k < |defs| && forall i, j | 0 <= i < j < |defs| :: defs[i].key != defs[j].key
    ensures var header := NormaliseHeader(defs[k].labelText);
            TemplateHeader(defs, k, isCore)
            == if header != "" && !isCore(defs[k].labelText) && !("cf_" <= header)
                  && (forall j | 0 <= j < k :: NormaliseHeader(defs[j].labelText) != header)
               then defs[k].labelText else "cf_" + defs[k].key
  {
    hide NormaliseHeader, FirstIndex;
    var labels, header := Labels(defs), LabelOf(defs[k]);
    assert labels[k] == header && header in labels;
    var owner := FirstIndex(labels, header).value;
    assert forall j | 0 <= j < owner :: labels[j] == labels[..owner][j];
    assert owner < k ==> defs[owner].key != defs[k].key;
  }

  // ----- Every header reads back as its own definition -----

  ghost predicate DistinctKeys(defs: seq<Definition>) {
    forall i, j | 0 <= i < j < |defs| :: defs[i].key != defs[j].key
  }

  lemma {:induction false} TrimRightKeepsPrefix(s: string, p: string)
    requires p <= s && p != [] && !IsSpace(p[|p| - 1])
    ensures p <= TrimRight(s)
  {
    if |s| > |p| && IsSpace(s[|s| - 1]) {
      TrimRightKeepsPrefix(s[..|s| - 1], p);
    } else if |s| == |p| {
      assert s == p;
    }
  }

  lemma CollapseStep(s: string)
    requires s != [] && !IsSpace(s[0])
    ensures Collapse(s) == [s[0]] + Collapse(s[1..])
  {
  }

  /** Whatever the key, its normalised alias keeps the prefix. */
  lemma AliasKeepsPrefix(key: string)
    ensures PREFIX <= NormaliseHeader(Alias(key))
  {
    var raw := Alias(key);
    assert raw[0] == 'c' && raw[1] == 'f' && raw[2] == '_';
    assert TrimLeft(raw) == raw;
    TrimRightKeepsPrefix(raw, PREFIX);
    var t := Lower(Trim(raw));
    assert t[0] == 'c' && t[1] == 'f' && t[2] == '_';
    CollapseStep(t);
    CollapseStep(t[1..]);
    CollapseStep(t[2..]);
  }

  lemma LastIndexIff(names: seq<string>, k: nat)
    requires k < |names|
    ensures LastIndex(names, names[k]) == Some(k) <==> forall j | k < j < |names| :: names[j] != names[k]
  {
    var i := LastIndex(names, names[k]).value;
    assert forall j | i < j < |names| :: names[j] == names[i + 1..][j - i - 1];
  }

  /** The claim of one printed header, on the normalised names alone. */
  lemma ClaimantIff(aliases: seq<string>, labels: seq<string>, k: nat, byAlias: bool)
    requires k < |aliases| == |labels| && forall a | a in aliases :: PREFIX <= a
    requires !byAlias ==> labels[k] != "" && !(PREFIX <= labels[k]) && FirstIndex(labels, labels[k]) == Some(k)
    ensures Claimant(aliases, labels, if byAlias then aliases[k] else labels[k]) == Some(k)
            <==> (byAlias ==> forall j | k < j < |aliases| :: aliases[j] != aliases[k])
  {
    LastIndexIff(aliases, k);
    assert aliases[k] in aliases && PREFIX <= aliases[k] && |PREFIX| == 3;
    assert aliases[k] != "";
    if !byAlias {
      assert labels[k] !in aliases;
    }
  }

  lemma AliasesKeepPrefix(defs: seq<Definition>)
    ensures forall a | a in Aliases(defs) :: PREFIX <= a
  {
    forall i | 0 <= i < |defs| ensures PREFIX <= Aliases(defs)[i] {
      AliasKeepsPrefix(defs[i].key);
    }
  }

  lemma PrintedName(defs: seq<Definition>, k: nat, isCore: string -> bool)
    requires DistinctKeys(defs) && k < |defs|
    ensures var (byAlias, labels) := (PrintsAlias(defs, k, isCore), Labels(defs));
            && NormaliseHeader(TemplateHeader(defs, k, isCore)) == (if byAlias then Aliases(defs)[k] else labels[k])
            && (!byAlias ==> labels[k] != "" && !(PREFIX <= labels[k]) && FirstIndex(labels, labels[k]) == Some(k))
  {
    var labels := Labels(defs);
    assert labels[k] in labels;
  }

  /**
   * A printed header resolves to its own definition unless it is an alias that a later key also
   * normalises to; labels never misroute, whatever they collide with.
   */
  lemma HeaderResolvesIff(defs: seq<Definition>, k: nat, isCore: string -> bool)
    requires DistinctKeys(defs) && k < |defs|
    ensures Resolved(defs, TemplateHeader(defs, k, isCore)) == Some(defs[k])
            <==> (PrintsAlias(defs, k, isCore) ==> forall j | k < j < |defs| :: Aliases(defs)[j] != Aliases(defs)[k])
  {
    AliasesKeepPrefix(defs);
    PrintedName(defs, k, isCore);
    ClaimantIff(Aliases(defs), Labels(defs), k, PrintsAlias(defs, k, isCore));
  }

  ghost predicate DistinctAliases(defs: seq<Definition>) {
    forall i, j | 0 <= i < j < |defs| :: Aliases(defs)[i] != Aliases(defs)[j]
  }

  ghost predicate AlwaysResolves(defs: seq<Definition>, k: nat)
    requires k < |defs|
  {
    forall isCore :: Resolved(defs, TemplateHeader(defs, k, isCore)) == Some(defs[k])
  }

  /** A catalog prints readable headers under every core header map iff its aliases are distinct. */
  lemma AllHeadersResolveIff(defs: seq<Definition>)
    requires DistinctKeys(defs)
    ensures (forall k | 0 <= k < |defs| :: AlwaysResolves(defs, k)) <==> DistinctAliases(defs)
  {
    forall k | 0 <= k < |defs|
      ensures AlwaysResolves(defs, k) <==> forall j | k < j < |defs| :: Aliases(defs)[j] != Aliases(defs)[k]
    {
      AlwaysResolvesIff(defs, k);
    }
  }

  lemma AlwaysResolvesIff(defs: seq<Definition>, k: nat)
    requires DistinctKeys(defs) && k < |defs|
    ensures AlwaysResolves(defs, k) <==> forall j | k < j < |defs| :: Aliases(defs)[j] != Aliases(defs)[k]
  {
    hide Resolved, TemplateHeader, Aliases;
    var everything: string -> bool := _ => true;
    HeaderResolvesIff(defs, k, everything);
    forall isCore
      ensures (forall j | k < j < |defs| :: Aliases(defs)[j] != Aliases(defs)[k])
              ==> Resolved(defs, TemplateHeader(defs, k, isCore)) == Some(defs[k])
    {
      HeaderResolvesIff(defs, k, isCore);
    }
  }

  /** `^[a-z][a-z0-9_]{1,62}$` */
  predicate IsKey(key: string) {
    && 2 <= |key| <= 63
    && IsLower(key[0])
    && forall i | 0 <= i < |key| :: IsLower(key[i]) || IsDigit(key[i]) || key[i] == '_'
  }

  lemma {:induction false} CollapseKeeps(s: string)
    requires forall i | 0 <= i < |s| :: !IsSpace(s[i])
    ensures Collapse(s) == s
  {
    if s != [] {
      CollapseKeeps(s[1..]);
    }
  }

  lemma WithoutSpaceOnlyLowered(raw: string)
    requires forall i | 0 <= i < |raw| :: !IsSpace(raw[i])
    ensures NormaliseHeader(raw) == Lower(raw)
  {
    assert IsTrimmed(raw);
    CollapseKeeps(Lower(raw));
  }

  lemma AliasOfKey(key: string)
    requires IsKey(key)
    ensures NormaliseHeader(Alias(key)) == Alias(key)
  {
    var raw := Alias(key);
    assert forall i | 0 <= i < |raw| :: raw[i] == if i < 3 then PREFIX[i] else key[i - 3];
    WithoutSpaceOnlyLowered(raw);
    assert Lower(raw) == raw;
  }

  /** With the keys the API admits, distinct keys are enough. */
  lemma AdmittedKeysRoundTrip(defs: seq<Definition>, k: nat, isCore: string -> bool)
    requires DistinctKeys(defs) && k < |defs| && forall def | def in defs :: IsKey(def.key)
    ensures Resolved(defs, TemplateHeader(defs, k, isCore)) == Some(defs[k])
  {
    AliasOfKey(defs[k].key);
    forall j | k < j < |defs| ensures Aliases(defs)[j] != Aliases(defs)[k] {
      AliasOfKey(defs[j].key);
      assert Alias(defs[j].key)[3..] == defs[j].key && Alias(defs[k].key)[3..] == defs[k].key;
    }
    HeaderResolvesIff(defs, k, isCore);
  }

  /** Without that, a key that differs from a later one only in case loses its column to it. */
  lemma CaseVariantsMisroute(a: Definition, b: Definition)
    requires IsKey(b.key) && Lower(a.key) == b.key && a.key != b.key
    ensures DistinctKeys([a, b]) && !AlwaysResolves([a, b], 0)
  {
    hide NormaliseHeader, AlwaysResolves;
    VariantHasSameAlias(a.key, b.key);
    AliasOfKey(b.key);
    AlwaysResolvesIff([a, b], 0);
    assert Aliases([a, b])[1] == Aliases([a, b])[0];
  }

  lemma VariantHasSameAlias(variant: string, key: string)
    requires IsKey(key) && Lower(variant) == key
    ensures NormaliseHeader(Alias(variant)) == Alias(key)
  {
    hide NormaliseHeader;
    var (raw, low) := (Alias(variant), Alias(key));
    assert forall i | 0 <= i < |raw| :: raw[i] == if i < 3 then PREFIX[i] else variant[i - 3];
    forall i | 0 <= i < |raw| ensures !IsSpace(raw[i]) && ToLower(raw[i]) == low[i] {
      if i >= 3 {
        assert ToLower(variant[i - 3]) == key[i - 3];
      }
    }
    WithoutSpaceOnlyLowered(raw);
    assert Lower(raw) == low;
  }

  // ----- Columns claimed twice -----

  ghost predicate ClaimedTwice(headers: seq<Option<string>>, key: string) {
    exists i, j :: 0 <= i < j < |headers| && headers[i] == headers[j] == Some(Alias(key))
  }

  /** The keys of custom columns in the order in which their second columns come, each once. */
  function DuplicatedKeys(headers: seq<Option<string>>): seq<string> {
    if headers == [] then []
    else
      var (before, header) := (headers[..|headers| - 1], headers[|headers| - 1]);
      var rest := DuplicatedKeys(before);
      if header.Some? && PREFIX <= header.value && header in before && header.value[|PREFIX|..] !in rest
      then rest + [header.value[|PREFIX|..]]
      else rest
  }

  /** They are exactly the keys claimed by more than one column. */
  lemma {:induction false} DuplicatedIff(headers: seq<Option<string>>)
    ensures NoRepeats(DuplicatedKeys(headers))
    ensures forall key :: key in DuplicatedKeys(headers) <==> ClaimedTwice(headers, key)
  {
    if headers != [] {
      var n := |headers| - 1;
      DuplicatedIff(headers[..n]);
      assert headers[..n + 1] == headers;
      forall key ensures key in DuplicatedKeys(headers) <==> ClaimedTwice(headers, key) {
        ClaimsGrow(headers, n, key);
        assert Alias(key)[|PREFIX|..] == key;
        if headers[n].Some? && PREFIX <= headers[n].value {
          assert headers[n].value == Alias(headers[n].value[|PREFIX|..]);
        }
      }
    }
  }

  method FindDuplicateHeaderKeys(headers: seq<Option<string>>) returns (duplicated: seq<string>)
    ensures duplicated == DuplicatedKeys(headers)
  {
    var seen: set<string> := {};
    duplicated := [];
    for i := 0 to |headers|
      invariant forall h :: h in seen <==> PREFIX <= h && Some(h) in headers[..i]
      invariant duplicated == DuplicatedKeys(headers[..i])
    {
      assert headers[..i + 1][..i] == headers[..i];
      if headers[i].Some? && PREFIX <= headers[i].value {
        var header := headers[i].value;
        if header in seen && header[|PREFIX|..] !in duplicated {
          duplicated := duplicated + [header[|PREFIX|..]];
        }
        seen := seen + {header};
      }
    }
    assert headers[..|headers|] == headers;
  }

  lemma ClaimsGrow(headers: seq<Option<string>>, i: nat, key: string)
    requires i < |headers|
    ensures ClaimedTwice(headers[..i + 1], key)
            <==> ClaimedTwice(headers[..i], key) || (headers[i] == Some(Alias(key)) && headers[i] in headers[..i])
  {
    var (now, before) := (headers[..i + 1], headers[..i]);
    assert now == before + [headers[i]];
    if ClaimedTwice(before, key) {
      var a, b :| 0 <= a < b < i && before[a] == before[b] == Some(Alias(key));
      assert now[a] == now[b] == Some(Alias(key));
    }
    if headers[i] == Some(Alias(key)) && headers[i] in before {
      var a :| 0 <= a < i && before[a] == headers[i];
      assert now[a] == now[i] == Some(Alias(key));
    }
    if ClaimedTwice(now, key) {
      var a, b :| 0 <= a < b < |now| && now[a] == now[b] == Some(Alias(key));
      assert before[a] == now[a];
      if b < i {
        assert before[a] == before[b] == Some(Alias(key));
      }
    }
  }
}
