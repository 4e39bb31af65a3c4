/** Expanding legacy geo matchers into local rule-sets, and planning which
    rule-set files to download for that. */
module GeoBuild {
  import opened JsonValue
  import opened RuleKeys
  import opened RuleSemantics
  import opened ShareRules

  /** What the builder does with a rule's legacy matcher. */
  datatype GeoMatcher = NoMatcher | Expand(kind: GeoKind, codes: seq<string>) | Invalid

  const ROUTE_GEO_KINDS: set<GeoKind> := {GeoIp, GeoSite}
  const DNS_GEO_KINDS: set<GeoKind> := {GeoSite}

  function RawCodes(v: Value): seq<string> {
    match v
    case Str(code) => [code]
    case Arr(items) => StrItems(items)
    case _ => []
  }

  function GeoMatcherOf(rule: Value, kinds: set<GeoKind>): GeoMatcher {
    if !Has(rule, Geoip) && !Has(rule, Geosite) then NoMatcher
    else if Has(rule, Geoip) && Has(rule, Geosite) then Invalid
    else
      var kind := if Has(rule, Geoip) then GeoIp else GeoSite;
      if kind !in kinds then NoMatcher
      else if Has(rule, RuleSet) then Invalid
      else
        var codes := RawCodes(rule.fields[KindKey(kind)]);
        if codes == [] then Invalid else Expand(kind, codes)
  }

  predicate IsLower(c: char) { 'a' <= c <= 'z' }

  predicate CategoryOk(s: string) {
    && 0 < |s| <= 128
    && (forall i :: 0 <= i < |s| ==>
      IsLower(s[i]) || IsDigit(s[i]) || s[i] == '-' || s[i] == '_' || s[i] == '!' || s[i] == '@' || s[i] == '.')
    && (forall i :: 0 <= i < |s| - 1 ==> !(s[i] == '.' && s[i + 1] == '.'))
  }

  /** Where a code downloads from when no bundled file exists. */
  function UpstreamUrlForName(name: string): Option<string> {
    if StartsWith(name, "geoip-") then
      var code := name[6..];
      if |code| == 2 && IsLower(code[0]) && IsLower(code[1]) then Some(UpstreamUrl(name)) else None
    else if StartsWith(name, "geosite-") && CategoryOk(name[8..]) then Some(UpstreamUrl(name))
    else None
  }

  /** Files on disk: the bundled names, and the URLs already downloaded. */
  datatype Sources = Sources(
    bundledDir: Option<string>,
    present: set<string>,
    cacheDir: Option<string>,
    cached: set<string>,
    digest: string -> string,
    isBundledName: string -> bool)

  function LocalSet(tag: string, format: string, path: string): Value {
    Obj(map[Type := Str("local"), Tag := Str(tag), Format := Str(format), Path := Str(path)])
  }

  function BundledLocalSet(dir: string, tag: string, name: string): Value {
    LocalSet(tag, "binary", dir + "/" + name + ".srs")
  }

  predicate IsCached(src: Sources, url: string) {
    src.cacheDir.Some? && url in src.cached
  }

  function CachedLocalSet(src: Sources, url: string, tag: string): Value
    requires src.cacheDir.Some?
  {
    LocalSet(tag, "source", src.cacheDir.value + "/" + src.digest(url) + ".json")
  }

  predicate IsPresent(src: Sources, name: string) {
    src.bundledDir.Some? && name in src.present
  }

  function GeoSet(src: Sources, name: string): Option<Value> {
    if IsPresent(src, name) then Some(BundledLocalSet(src.bundledDir.value, name, name))
    else
      var url := UpstreamUrlForName(name);
      if url.Some? && IsCached(src, url.value) then Some(CachedLocalSet(src, url.value, name)) else None
  }

  function TagsOf(sets: seq<Value>): set<string> {
    set i | 0 <= i < |sets| && GetStr(sets[i], Tag).Some? :: GetStr(sets[i], Tag).value
  }

  function GeoNames(kind: GeoKind, codes: seq<string>): seq<string> {
    seq(|codes|, i requires 0 <= i < |codes| => GeoTag(kind, codes[i]))
  }

  /** Adds the definition of each name that has none yet. */
  function AddSets(src: Sources, names: seq<string>, sets: seq<Value>): (r: seq<Value>)
    requires forall i :: 0 <= i < |names| ==> GeoSet(src, names[i]).Some?
  {
    if names == [] then sets
    else AddSets(src, names[1..], if names[0] in TagsOf(sets) then sets else sets + [GeoSet(src, names[0]).value])
  }

  predicate AllResolve(src: Sources, names: seq<string>) {
    forall i :: 0 <= i < |names| ==> GeoSet(src, names[i]).Some?
  }

  /** The rewritten rule, when it is kept, and the definitions afterwards. */
  function ExpandGeoRule(rule: Value, kinds: set<GeoKind>, src: Sources, sets: seq<Value>): (Option<Value>, seq<Value>)
  {
    match GeoMatcherOf(rule, kinds)
    case NoMatcher => (Some(rule), sets)
    case Invalid => (None, sets)
    case Expand(kind, codes) =>
      var names := GeoNames(kind, codes);
      if !AllResolve(src, names) then (None, sets)
      else (Some(Obj((rule.fields - {KindKey(kind)})[RuleSet := Arr(ToStrs(names))])), AddSets(src, names, sets))
  }

  function ExpandGeoRules(rules: seq<Value>, kinds: set<GeoKind>, src: Sources, sets: seq<Value>)
    : (seq<Value>, seq<Value>)
  {
    if rules == [] then ([], sets)
    else
      var (first, sets1) := ExpandGeoRule(rules[0], kinds, src, sets);
      var (rest, sets2) := ExpandGeoRules(rules[1..], kinds, src, sets1);
      ((if first.Some? then [first.value] else []) + rest, sets2)
  }

  // ---- `bundled` and `download` rule-sets of a profile

  predicate DownloadableUrl(url: string) {
    && StartsWith(url, "https://") && |url| > 8 && url[8] != '/' && |url| <= 2048
    && forall i :: 0 <= i < |url| ==> !IsWhitespace(url[i]) && !IsControl(url[i])
  }

  predicate IsControl(c: char) {
    var n := c as int;
    n < 0x20 || 0x7F <= n < 0xA0
  }

  function DownloadUrl(set_: Value): Option<string> {
    var url := GetStr(set_, Url);
    if GetStr(set_, Type) == Some("download") && url.Some? && DownloadableUrl(url.value) then url else None
  }

  function DownloadSet(src: Sources, set_: Value, tag: string): Option<Value> {
    var url, name := DownloadUrl(set_), GetStr(set_, Bundled);
    if url.Some? && IsCached(src, url.value) then Some(CachedLocalSet(src, url.value, tag))
    else if name.Some? && src.isBundledName(name.value) && IsPresent(src, name.value) then
      Some(BundledLocalSet(src.bundledDir.value, tag, name.value))
    else None
  }

  function BundledSet(src: Sources, set_: Value, tag: string): Option<Value> {
    var name := GetStr(set_, Name);
    if name.Some? && src.isBundledName(name.value) && IsPresent(src, name.value) then
      Some(BundledLocalSet(src.bundledDir.value, tag, name.value))
    else None
  }

  function ResolveSet(src: Sources, set_: Value): Option<Value> {
    var kind, tag := GetStr(set_, Type), GetStr(set_, Tag);
    if kind == Some("download") then (if tag.Some? then DownloadSet(src, set_, tag.value) else None)
    else if kind == Some("bundled") then (if tag.Some? then BundledSet(src, set_, tag.value) else None)
    else Some(set_)
  }

  function ResolveSets(src: Sources, sets: seq<Value>): seq<Value> {
    if sets == [] then []
    else
      var first := ResolveSet(src, sets[0]);
      (if first.Some? then [first.value] else []) + ResolveSets(src, sets[1..])
  }

  function ExpandGeoipRules(rules: seq<Value>, ruleSets: seq<Value>, src: Sources): (seq<Value>, seq<Value>) {
    ExpandGeoRules(rules, ROUTE_GEO_KINDS, src, ResolveSets(src, ruleSets))
  }

  // ---- the download plan

  function NamesIn(rule: Value, kinds: set<GeoKind>): set<string> {
    match GeoMatcherOf(rule, kinds)
    case Expand(kind, codes) => set i | 0 <= i < |codes| :: GeoTag(kind, codes[i])
    case _ => {}
  }

  function LegacyNames(rules: seq<Value>, kinds: set<GeoKind>): set<string> {
    if rules == [] then {} else NamesIn(rules[0], kinds) + LegacyNames(rules[1..], kinds)
  }

  function LegacyGeoRuleSetNames(rules: seq<Value>, dnsRules: seq<Value>): set<string> {
    LegacyNames(rules, ROUTE_GEO_KINDS) + LegacyNames(dnsRules, DNS_GEO_KINDS)
  }

  /** Every URL the profile needs; the order of the sorted list plays no part. */
  function RequiredRuleSetUrls(ruleSets: seq<Value>, rules: seq<Value>, dnsRules: seq<Value>, src: Sources): set<string>
  {
    (set i | 0 <= i < |ruleSets| && DownloadUrl(ruleSets[i]).Some? :: DownloadUrl(ruleSets[i]).value) +
    (set name | name in LegacyGeoRuleSetNames(rules, dnsRules) && !IsPresent(src, name) &&
      UpstreamUrlForName(name).Some?
      :: UpstreamUrlForName(name).value)
  }

  /** A code that neither a bundled file nor an upstream can serve. */
  predicate NoSource(src: Sources, name: string) {
    !IsPresent(src, name) && UpstreamUrlForName(name) == None
  }

  predicate DropsRule(rule: Value, kinds: set<GeoKind>, src: Sources) {
    match GeoMatcherOf(rule, kinds)
    case NoMatcher => false
    case Invalid => true
    case Expand(kind, codes) => exists i :: 0 <= i < |codes| && NoSource(src, GeoTag(kind, codes[i]))
  }

  lemma {:induction false} NamesCovered(rules: seq<Value>, kinds: set<GeoKind>, i: nat)
    requires i < |rules|
    ensures NamesIn(rules[i], kinds) <= LegacyNames(rules, kinds)
  {
    if i == 0 {
    } else {
      NamesCovered(rules[1..], kinds, i - 1);
    }
  }

  /** Every downloadable name of the list is on disk. */
  predicate NamesCached(rules: seq<Value>, kinds: set<GeoKind>, src: Sources) {
    forall name :: name in LegacyNames(rules, kinds) && !IsPresent(src, name) && UpstreamUrlForName(name).Some? ==>
      IsCached(src, UpstreamUrlForName(name).value)
  }

  lemma ResolvesUnlessNoSource(kind: GeoKind, codes: seq<string>, src: Sources)
    requires forall i :: 0 <= i < |codes| ==>
      var name := GeoTag(kind, codes[i]);
      !IsPresent(src, name) && UpstreamUrlForName(name).Some? ==> IsCached(src, UpstreamUrlForName(name).value)
    ensures AllResolve(src, GeoNames(kind, codes)) <==>
      !exists i :: 0 <= i < |codes| && NoSource(src, GeoTag(kind, codes[i]))
  {
    var names := GeoNames(kind, codes);
    forall i | 0 <= i < |codes| ensures GeoSet(src, names[i]) == None <==> NoSource(src, GeoTag(kind, codes[i])) {
      assert names[i] == GeoTag(kind, codes[i]);
    }
  }

  lemma CachedRuleDrops(rules: seq<Value>, kinds: set<GeoKind>, src: Sources, i: nat, sets: seq<Value>)
    requires i < |rules| && NamesCached(rules, kinds, src)
    ensures ExpandGeoRule(rules[i], kinds, src, sets).0 == None <==> DropsRule(rules[i], kinds, src)
  {
    match GeoMatcherOf(rules[i], kinds)
    case Expand(kind, codes) =>
      NamesCovered(rules, kinds, i);
      forall j | 0 <= j < |codes| ensures GeoTag(kind, codes[j]) in LegacyNames(rules, kinds) {
        assert GeoTag(kind, codes[j]) in NamesIn(rules[i], kinds);
      }
      ResolvesUnlessNoSource(kind, codes, src);
    case _ =>
  }

  /** With every planned URL cached, a rule is dropped exactly when its matcher
      is invalid or one of its codes has no source at all. */
  lemma PlannedRuleDrops(ruleSets: seq<Value>, rules: seq<Value>, dnsRules: seq<Value>, src: Sources, sets: seq<Value>)
    requires src.cacheDir.Some? && RequiredRuleSetUrls(ruleSets, rules, dnsRules, src) <= src.cached
    ensures forall i :: 0 <= i < |rules| ==>
      (ExpandGeoRule(rules[i], ROUTE_GEO_KINDS, src, sets).0 == None <==> DropsRule(rules[i], ROUTE_GEO_KINDS, src))
    ensures forall i :: 0 <= i < |dnsRules| ==>
      (ExpandGeoRule(dnsRules[i], DNS_GEO_KINDS, src, sets).0 == None <==> DropsRule(dnsRules[i], DNS_GEO_KINDS, src))
  {
    var urls := RequiredRuleSetUrls(ruleSets, rules, dnsRules, src);
    forall name | name in LegacyGeoRuleSetNames(rules, dnsRules) && !IsPresent(src, name) &&
      UpstreamUrlForName(name).Some?
      ensures IsCached(src, UpstreamUrlForName(name).value)
    {
      assert UpstreamUrlForName(name).value in urls;
    }
    assert NamesCached(rules, ROUTE_GEO_KINDS, src) && NamesCached(dnsRules, DNS_GEO_KINDS, src);
    forall i | 0 <= i < |rules|
      ensures ExpandGeoRule(rules[i], ROUTE_GEO_KINDS, src, sets).0 == None <==>
        DropsRule(rules[i], ROUTE_GEO_KINDS, src)
    {
      CachedRuleDrops(rules, ROUTE_GEO_KINDS, src, i, sets);
    }
    forall i | 0 <= i < |dnsRules|
      ensures ExpandGeoRule(dnsRules[i], DNS_GEO_KINDS, src, sets).0 == None <==>
        DropsRule(dnsRules[i], DNS_GEO_KINDS, src)
    {
      CachedRuleDrops(dnsRules, DNS_GEO_KINDS, src, i, sets);
    }
  }

  /** With every planned URL cached, every well-formed download marker resolves
      to its downloaded copy. */
  lemma PlannedMarkersResolve(ruleSets: seq<Value>, rules: seq<Value>, dnsRules: seq<Value>, src: Sources, i: nat)
    requires i < |ruleSets| && src.cacheDir.Some? && DownloadUrl(ruleSets[i]).Some? && GetStr(ruleSets[i], Tag).Some?
    requires RequiredRuleSetUrls(ruleSets, rules, dnsRules, src) <= src.cached
    ensures ResolveSet(src, ruleSets[i])
         == Some(CachedLocalSet(src, DownloadUrl(ruleSets[i]).value, GetStr(ruleSets[i], Tag).value))
  {
    assert DownloadUrl(ruleSets[i]).value in RequiredRuleSetUrls(ruleSets, rules, dnsRules, src);
  }

  /** Nothing outside the plan is ever read: a build that finds all planned
      files does not depend on any other cached download. */
  lemma PlanIsEnough(ruleSets: seq<Value>, rules: seq<Value>, dnsRules: seq<Value>, src: Sources)
    requires src.cacheDir.Some? && RequiredRuleSetUrls(ruleSets, rules, dnsRules, src) <= src.cached
    ensures var lean := src.(cached := RequiredRuleSetUrls(ruleSets, rules, dnsRules, src));
      ExpandGeoipRules(rules, ruleSets, src) == ExpandGeoipRules(rules, ruleSets, lean)
  {
    var urls := RequiredRuleSetUrls(ruleSets, rules, dnsRules, src);
    var lean := src.(cached := urls);
    SameResolved(ruleSets, src, lean, urls);
    SameExpansion(rules, ROUTE_GEO_KINDS, src, lean, ResolveSets(src, ruleSets));
  }

  ghost predicate SameDisk(src: Sources, lean: Sources) {
    lean == src.(cached := lean.cached) && src.cacheDir.Some? && lean.cached <= src.cached
  }

  lemma {:induction false} SameResolved(ruleSets: seq<Value>, src: Sources, lean: Sources, urls: set<string>)
    requires SameDisk(src, lean) && forall i :: 0 <= i < |ruleSets| && DownloadUrl(ruleSets[i]).Some? ==>
      DownloadUrl(ruleSets[i]).value in lean.cached
    ensures ResolveSets(src, ruleSets) == ResolveSets(lean, ruleSets)
  {
    if ruleSets == [] {
    } else {
      assert ResolveSet(src, ruleSets[0]) == ResolveSet(lean, ruleSets[0]);
      SameResolved(ruleSets[1..], src, lean, urls);
    }
  }

  lemma {:induction false} SameExpansion(rules: seq<Value>, kinds: set<GeoKind>, src: Sources, lean: Sources,
      sets: seq<Value>)
    requires SameDisk(src, lean)
    requires forall name ::
      name in LegacyNames(rules, kinds) && !IsPresent(src, name) && UpstreamUrlForName(name).Some? ==>
        UpstreamUrlForName(name).value in lean.cached
    ensures ExpandGeoRules(rules, kinds, src, sets) == ExpandGeoRules(rules, kinds, lean, sets)
  {
    if rules == [] {
    } else {
      match GeoMatcherOf(rules[0], kinds) {
        case Expand(kind, codes) =>
          var names := GeoNames(kind, codes);
          forall j | 0 <= j < |names| ensures GeoSet(src, names[j]) == GeoSet(lean, names[j]) {
            assert GeoTag(kind, codes[j]) in NamesIn(rules[0], kinds);
          }
          if AllResolve(src, names) { SameAdded(src, lean, names, sets); }
        case _ =>
      }
      SameExpansion(rules[1..], kinds, src, lean, ExpandGeoRule(rules[0], kinds, src, sets).1);
    }
  }

  lemma {:induction false} SameAdded(src: Sources, lean: Sources, names: seq<string>, sets: seq<Value>)
    requires forall i :: 0 <= i < |names| ==>
      GeoSet(src, names[i]).Some? && GeoSet(src, names[i]) == GeoSet(lean, names[i])
    ensures AddSets(src, names, sets) == AddSets(lean, names, sets)
  {
    if names == [] {
    } else {
      SameAdded(src, lean, names[1..], if names[0] in TagsOf(sets) then sets else sets + [GeoSet(src, names[0]).value]);
    }
  }

  // ---- kept rules mean what they meant

  /** The conditions the builder emits: every code names its own set. */
  function VerbatimLiterals(kind: GeoKind, codes: seq<string>): set<Literal> {
    set i | 0 <= i < |codes| :: Literal(InSet(GeoTag(kind, codes[i])), false)
  }

  lemma VerbatimMeaning(kind: GeoKind, codes: seq<string>, f: Flow)
    requires codes != []
    ensures SetRefHolds(Arr(ToStrs(GeoNames(kind, codes))), f) == Clause(VerbatimLiterals(kind, codes), f)
  {
    var names := GeoNames(kind, codes);
    StrItemsOfStrs<Key>(ToStrs(names));
    assert RuleSetList(Arr(ToStrs(names))) == names;
    if tag :| tag in names && tag in f.sets {
      var i :| 0 <= i < |names| && names[i] == tag;
      assert LiteralHolds(Literal(InSet(GeoTag(kind, codes[i])), false), f);
    }
    if l :| l in VerbatimLiterals(kind, codes) && LiteralHolds(l, f) {
      var i :| 0 <= i < |codes| && l == Literal(InSet(GeoTag(kind, codes[i])), false);
      assert names[i] in names;
    }
  }

  /** Codes the share path and the builder read the same way. */
  predicate SameReading(kind: GeoKind, v: Value) {
    GeoCodes(v) != [] && GeoLiterals(kind, GeoCodes(v)) == VerbatimLiterals(kind, RawCodes(v))
  }

  lemma VerbatimExact(kind: GeoKind, v: Value)
    requires RawCodes(v) != []
    ensures SameReading(kind, v) <==>
      forall f: Flow :: GeoHolds(kind, v, f) == SetRefHolds(Arr(ToStrs(GeoNames(kind, RawCodes(v)))), f)
  {
    var codes := RawCodes(v);
    var lits, verb := GeoLiterals(kind, GeoCodes(v)), VerbatimLiterals(kind, codes);
    forall f: Flow ensures SetRefHolds(Arr(ToStrs(GeoNames(kind, codes))), f) == Clause(verb, f) {
      VerbatimMeaning(kind, codes, f);
    }
    assert !Tautology(verb);
    ClauseUnique(lits, verb);
    if GeoCodes(v) == [] {
      FalsifierFalsifies(verb);
      assert GeoHolds(kind, v, Falsifier(verb)) && !Clause(verb, Falsifier(verb));
    } else {
      assert forall f: Flow :: GeoHolds(kind, v, f) == Clause(lits, f);
    }
  }

  function Replaced(rule: Value, key: Key, v: Value): Value
    requires rule.Obj?
  {
    Obj((rule.fields - {key})[RuleSet := v])
  }

  lemma ReplacedShape(rule: Value, key: Key, v: Value)
    requires rule.Obj? && (key == Geoip || key == Geosite)
    ensures var r := Replaced(rule, key, v);
      && IsLogical(r) == IsLogical(rule) && IsOr(r) == IsOr(rule) && Inverted(r) == Inverted(rule)
      && GetArr(r, Rules) == GetArr(rule, Rules) && SubRules(r) == SubRules(rule)
  {
    var r := Replaced(rule, key, v);
    assert Get(r, Type) == Get(rule, Type) && Get(r, Invert) == Get(rule, Invert);
    assert Get(r, Mode) == Get(rule, Mode) && Get(r, Rules) == Get(rule, Rules);
  }

  lemma ReplacedMeaning(rule: Value, key: Key, v: Value, f: Flow)
    requires rule.Obj? && key in rule.fields && RuleSet !in rule.fields
    requires (key == Geoip || key == Geosite) && FieldHolds(key, rule.fields[key], f) == SetRefHolds(v, f)
    ensures Matches(Replaced(rule, key, v), f) == Matches(rule, f)
    ensures RuleAction(Replaced(rule, key, v)) == RuleAction(rule)
  {
    var r := Replaced(rule, key, v);
    ReplacedShape(rule, key, v);
    assert FieldHolds(RuleSet, r.fields[RuleSet], f) == SetRefHolds(v, f);
    OneFieldChanged(rule.fields, r.fields, key, RuleSet, f);
    ReplacedAction(rule, key, v);
  }

  lemma ReplacedAction(rule: Value, key: Key, v: Value)
    requires rule.Obj? && !MetaKey(key)
    ensures RuleAction(Replaced(rule, key, v)) == RuleAction(rule)
  {}

  /** The builder reads the rule's geo codes as the share path does. */
  predicate Readable(rule: Value, kinds: set<GeoKind>) {
    match GeoMatcherOf(rule, kinds)
    case Expand(kind, _) => SameReading(kind, rule.fields[KindKey(kind)])
    case _ => true
  }

  /** A kept rule matches the same flows and does the same thing. */
  lemma ExpandedMeaning(rule: Value, kinds: set<GeoKind>, src: Sources, sets: seq<Value>, f: Flow)
    requires Readable(rule, kinds)
    ensures var r := ExpandGeoRule(rule, kinds, src, sets).0;
      r.Some? ==> Matches(r.value, f) == Matches(rule, f) && RuleAction(r.value) == RuleAction(rule)
  {
    match GeoMatcherOf(rule, kinds)
    case Expand(kind, codes) =>
      var key := KindKey(kind);
      var v: Value := Arr(ToStrs(GeoNames(kind, codes)));
      VerbatimExact(kind, rule.fields[key]);
      assert GeoHolds(kind, rule.fields[key], f) == SetRefHolds(v, f);
      ReplacedMeaning(rule, key, v, f);
    case _ =>
  }

  /** A kept rule has the action it had, however its codes are read. */
  lemma ExpandedAction(rule: Value, kinds: set<GeoKind>, src: Sources, sets: seq<Value>)
    ensures var r := ExpandGeoRule(rule, kinds, src, sets).0;
      r.Some? ==> RuleAction(r.value) == RuleAction(rule)
  {
    match GeoMatcherOf(rule, kinds)
    case Expand(kind, codes) => ReplacedAction(rule, KindKey(kind), Arr(ToStrs(GeoNames(kind, codes))));
    case _ =>
  }

  lemma OneFieldChanged(a: map<Key, Value>, b: map<Key, Value>, gone: Key, added: Key, f: Flow)
    requires gone in a && added !in a && added in b && gone !in b && !MetaKey(gone) && !MetaKey(added)
    requires forall k :: k != gone && k != added ==> (k in a <==> k in b) && (k in a ==> a[k] == b[k])
    requires FieldHolds(gone, a[gone], f) == FieldHolds(added, b[added], f)
    ensures FieldsHold(a, f) == FieldsHold(b, f)
  {
    if FieldsHold(a, f) {
      assert FieldHolds(gone, a[gone], f);
      forall k | k in b && !MetaKey(k) ensures FieldHolds(k, b[k], f) {
        if k != added { assert k in a && FieldHolds(k, a[k], f); }
      }
    }
    if FieldsHold(b, f) {
      assert FieldHolds(added, b[added], f);
      forall k | k in a && !MetaKey(k) ensures FieldHolds(k, a[k], f) {
        if k != gone { assert k in b && FieldHolds(k, b[k], f); }
      }
    }
  }

  /** A category that starts with `!` is one set for the builder, the negation
      of another for the share path. */
  lemma NegatedCategoryReadTwice()
    ensures UpstreamUrlForName("geosite-!cn").Some?
    ensures !SameReading(GeoSite, Str("!cn"))
  {
    var name := "geosite-!cn";
    assert name[..6] == "geosit" && name[..8] == "geosite-" && name[8..] == "!cn";
    assert "geoip-"[4] == 'p' && "geosit"[4] == 'i';
    assert !StartsWith(name, "geoip-") && StartsWith(name, "geosite-");
    assert CategoryOk("!cn");
    var v: Value := Str("!cn");
    assert Trim("!cn") == "!cn";
    assert Lower("!cn") == "!cn";
    assert CodeLiteral(GeoSite, "!cn").negated;
    assert CodeLiteral(GeoSite, "!cn") in GeoLiterals(GeoSite, ["!cn"]);
  }
}
