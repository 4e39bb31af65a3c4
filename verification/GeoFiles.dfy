/** The files behind rule-set definitions: which matcher is invalid, which file
    a code or a marker resolves to, and that every planned download is needed. */
module GeoFiles {
  import opened JsonValue
  import opened RuleKeys
  import opened RuleSemantics
  import opened ShareRules
  import opened GeoListProofs
  import opened GeoBuild

  // ---- matchers

  /** A value without any text in it. */
  predicate NoText(v: Value) {
    match v
    case Str(_) => false
    case Arr(items) => forall i :: 0 <= i < |items| ==> !items[i].Str?
    case _ => true
  }

  /** The codes are the texts of the value, and there are none exactly when it
      holds no text. */
  lemma RawCodesExactly(v: Value)
    ensures RawCodes(v) == [] <==> NoText(v)
    ensures v.Str? ==> RawCodes(v) == [v.s]
    ensures v.Arr? ==> forall text :: text in RawCodes(v) <==> Str(text) in v.items
  {
    if v.Arr? {
      forall text ensures text in RawCodes(v) <==> Str(text) in v.items { TextsExactly(v.items, text); }
      if RawCodes(v) != [] { assert RawCodes(v)[0] in RawCodes(v); }
      forall i | 0 <= i < |v.items| && v.items[i].Str? ensures v.items[i].s in RawCodes(v) {
        assert Str(v.items[i].s) == v.items[i];
      }
    }
  }

  /** A matcher that would have to be merged with another one or with the rule's
      own sets, or that names no code. */
  predicate Unusable(rule: Value, kind: GeoKind) {
    Has(rule, KindKey(kind)) && (Has(rule, RuleSet) || NoText(rule.fields[KindKey(kind)]))
  }

  /** Both matchers at once are always invalid, a single one only where its kind
      is expanded. */
  lemma InvalidExactly(rule: Value, kinds: set<GeoKind>)
    ensures GeoMatcherOf(rule, kinds).Invalid? <==>
      if Has(rule, Geoip) && Has(rule, Geosite) then true else exists kind :: kind in kinds && Unusable(rule, kind)
    ensures GeoMatcherOf(rule, kinds).Expand? ==>
      var (kind, codes) := (GeoMatcherOf(rule, kinds).kind, GeoMatcherOf(rule, kinds).codes);
      Has(rule, KindKey(kind)) && kind in kinds && codes == RawCodes(rule.fields[KindKey(kind)])
  {
    if Has(rule, Geoip) != Has(rule, Geosite) {
      var kind := if Has(rule, Geoip) then GeoIp else GeoSite;
      RawCodesExactly(rule.fields[KindKey(kind)]);
      assert forall other :: Unusable(rule, other) ==> other == kind;
    }
  }

  // ---- upstream copies

  /** Where the upstream copy of a code is: geo-ip sets have a list of their own. */
  function CodeUrl(kind: GeoKind, code: string): string {
    if kind == GeoIp then GEOIP_RULE_SET_BASE + "/" + code + ".srs"
    else GEOSITE_RULE_SET_BASE + "/geosite-" + code + ".srs"
  }

  lemma TagPrefix(kind: GeoKind, code: string)
    ensures kind == GeoIp ==> StartsWith(GeoTag(kind, code), "geoip-") && GeoTag(kind, code)[6..] == code
    ensures kind == GeoSite ==>
      && !StartsWith(GeoTag(kind, code), "geoip-")
      && StartsWith(GeoTag(kind, code), "geosite-") && GeoTag(kind, code)[8..] == code
  {
    var tag := GeoTag(kind, code);
    if kind == GeoIp {
      assert tag == "geoip-" + code && tag[..6] == "geoip-" && tag[6..] == code;
    } else {
      assert tag == "geosite-" + code && tag[..8] == "geosite-" && tag[8..] == code;
      assert tag[..6][3] == 's' && "geoip-"[3] == 'i';
    }
  }

  lemma UrlOfTag(kind: GeoKind, code: string)
    ensures UpstreamUrl(GeoTag(kind, code)) == CodeUrl(kind, code)
  {
    TagPrefix(kind, code);
    if kind == GeoSite {
      assert GEOSITE_RULE_SET_BASE + "/" + GeoTag(kind, code) + ".srs" == CodeUrl(kind, code);
    }
  }

  /** A code is downloaded from its upstream copy, two letters of a country or a
      well-formed category, and has no upstream otherwise. */
  lemma UpstreamExactly(kind: GeoKind, code: string)
    ensures UpstreamUrlForName(GeoTag(kind, code)) ==
      if (if kind == GeoIp then |code| == 2 && IsLower(code[0]) && IsLower(code[1]) else CategoryOk(code))
      then Some(CodeUrl(kind, code)) else None
  {
    TagPrefix(kind, code);
    UrlOfTag(kind, code);
  }

  // ---- files

  /** A local definition of `tag` that reads `path`. */
  predicate ReadsFile(s: Value, tag: string, format: string, path: string) {
    && s.Obj? && s.fields.Keys == {Type, Tag, Format, Path}
    && GetStr(s, Type) == Some("local") && GetStr(s, Tag) == Some(tag)
    && GetStr(s, Format) == Some(format) && GetStr(s, Path) == Some(path)
  }

  predicate ReadsBundled(s: Value, src: Sources, tag: string, name: string) {
    && src.bundledDir.Some? && name in src.present
    && ReadsFile(s, tag, "binary", src.bundledDir.value + "/" + name + ".srs")
  }

  predicate ReadsDownload(s: Value, src: Sources, tag: string, url: string) {
    && src.cacheDir.Some? && url in src.cached
    && ReadsFile(s, tag, "source", src.cacheDir.value + "/" + src.digest(url) + ".json")
  }

  /** A code reads the bundled file of its name, else its downloaded copy, and has
      no definition exactly when neither is there. */
  lemma GeoSetExactly(src: Sources, name: string)
    ensures var s, url := GeoSet(src, name), UpstreamUrlForName(name);
      var bundled := src.bundledDir.Some? && name in src.present;
      var downloaded := src.cacheDir.Some? && url.Some? && url.value in src.cached;
      && (s.Some? <==> bundled || downloaded)
      && (s.Some? ==> if bundled then ReadsBundled(s.value, src, name, name)
                      else ReadsDownload(s.value, src, name, url.value))
  {}

  /** What a `download` marker falls back to, or a `bundled` marker names. */
  function BundledName(marker: Value): Option<string> {
    if GetStr(marker, Type) == Some("download") then GetStr(marker, Bundled) else GetStr(marker, Name)
  }

  /** A marker reads its downloaded copy, else a bundled file, under its own tag;
      it goes exactly when it has no tag or neither is there. */
  lemma MarkerExactly(src: Sources, marker: Value)
    requires GetStr(marker, Type) == Some("download") || GetStr(marker, Type) == Some("bundled")
    ensures var s, tag, url, name := ResolveSet(src, marker), GetStr(marker, Tag), GeoBuild.DownloadUrl(marker),
                                     BundledName(marker);
      var downloaded := src.cacheDir.Some? && url.Some? && url.value in src.cached;
      var bundled := src.bundledDir.Some? && name.Some? && src.isBundledName(name.value) && name.value in src.present;
      && (s.Some? <==> tag.Some? && (downloaded || bundled))
      && (s.Some? ==> if downloaded then ReadsDownload(s.value, src, tag.value, url.value)
                      else ReadsBundled(s.value, src, tag.value, name.value))
  {}

  // ---- what an expansion adds

  /** The file of one of these names, which had no definition. */
  ghost predicate FileFor(s: Value, src: Sources, names: set<string>, sets: seq<Value>) {
    exists name :: name in names && name !in TagsOf(sets) && GeoSet(src, name) == Some(s)
  }

  /** Definitions only grow, at the end, by such files, one for a name. */
  ghost predicate AddsFiles(src: Sources, names: set<string>, sets: seq<Value>, more: seq<Value>) {
    && sets <= more && (forall i :: |sets| <= i < |more| ==> FileFor(more[i], src, names, sets))
    && forall i, j :: |sets| <= i < j < |more| ==> GetStr(more[i], Tag) != GetStr(more[j], Tag)
  }

  lemma AddsFilesTwice(src: Sources, a: set<string>, b: set<string>, sets: seq<Value>, sets1: seq<Value>,
      sets2: seq<Value>)
    requires AddsFiles(src, a, sets, sets1) && AddsFiles(src, b, sets1, sets2)
    ensures AddsFiles(src, a + b, sets, sets2)
  {
    TagsGrow(sets, sets1);
    forall i | |sets| <= i < |sets2| ensures FileFor(sets2[i], src, a + b, sets) {
      if i < |sets1| {
        assert sets1[i] == sets2[i] && FileFor(sets1[i], src, a, sets);
      } else {
        assert FileFor(sets2[i], src, b, sets1);
      }
    }
    forall i, j | |sets| <= i < j < |sets2| ensures GetStr(sets2[i], Tag) != GetStr(sets2[j], Tag) {
      if i < |sets1| <= j {
        var name :| name !in TagsOf(sets1) && GeoSet(src, name) == Some(sets2[j]);
        GeoSetExactly(src, name);
        assert sets1[i] == sets2[i];
      }
    }
  }

  lemma TagsGrow(sets: seq<Value>, more: seq<Value>)
    requires sets <= more
    ensures TagsOf(sets) <= TagsOf(more)
  {
    forall tag | tag in TagsOf(sets) ensures tag in TagsOf(more) {
      var i :| 0 <= i < |sets| && GetStr(sets[i], Tag) == Some(tag);
      assert more[i] == sets[i];
    }
  }

  lemma {:induction false} AddSetsAddsFiles(src: Sources, names: seq<string>, sets: seq<Value>, all: set<string>)
    requires AllResolve(src, names) && forall i :: 0 <= i < |names| ==> names[i] in all
    ensures AddsFiles(src, all, sets, AddSets(src, names, sets))
  {
    if names == [] {
    } else {
      var next := if names[0] in TagsOf(sets) then sets else sets + [GeoSet(src, names[0]).value];
      AddSetsAddsFiles(src, names[1..], next, all);
      assert AddsFiles(src, all, sets, next);
      AddsFilesTwice(src, all, all, sets, next, AddSets(src, names, sets));
      assert all + all == all;
    }
  }

  lemma RuleAddsFiles(rule: Value, kinds: set<GeoKind>, src: Sources, sets: seq<Value>)
    ensures AddsFiles(src, NamesIn(rule, kinds), sets, ExpandGeoRule(rule, kinds, src, sets).1)
  {
    match GeoMatcherOf(rule, kinds)
    case Expand(kind, codes) =>
      var names := GeoNames(kind, codes);
      forall i | 0 <= i < |names| ensures names[i] in NamesIn(rule, kinds) {
        assert names[i] == GeoTag(kind, codes[i]);
      }
      if AllResolve(src, names) { AddSetsAddsFiles(src, names, sets, NamesIn(rule, kinds)); }
    case _ =>
  }

  lemma {:induction false} ExpansionAddsFiles(rules: seq<Value>, kinds: set<GeoKind>, src: Sources, sets: seq<Value>)
    ensures AddsFiles(src, LegacyNames(rules, kinds), sets, ExpandGeoRules(rules, kinds, src, sets).1)
  {
    if rules == [] {
    } else {
      var sets1 := ExpandGeoRule(rules[0], kinds, src, sets).1;
      RuleAddsFiles(rules[0], kinds, src, sets);
      ExpansionAddsFiles(rules[1..], kinds, src, sets1);
      AddsFilesTwice(src, NamesIn(rules[0], kinds), LegacyNames(rules[1..], kinds), sets, sets1,
                     ExpandGeoRules(rules, kinds, src, sets).1);
    }
  }

  // ---- the plan asks for nothing else

  /** A rule that goes as long as `url` is not downloaded. */
  ghost predicate NeedsUrl(rule: Value, kinds: set<GeoKind>, src: Sources, url: string) {
    && (exists name :: name in NamesIn(rule, kinds) && !IsPresent(src, name) && UpstreamUrlForName(name) == Some(url))
    && forall sets :: ExpandGeoRule(rule, kinds, src, sets).0 == None
  }

  /** A marker for `url` that goes, or reads a bundled file instead. */
  predicate DoesWithout(marker: Value, src: Sources, url: string) {
    && GeoBuild.DownloadUrl(marker) == Some(url)
    && (ResolveSet(src, marker).Some? ==> GetStr(ResolveSet(src, marker).value, Format) == Some("binary"))
  }

  lemma {:induction false} NameOfRule(rules: seq<Value>, kinds: set<GeoKind>, name: string) returns (i: nat)
    requires name in LegacyNames(rules, kinds)
    ensures i < |rules| && name in NamesIn(rules[i], kinds)
  {
    if name in NamesIn(rules[0], kinds) {
      i := 0;
    } else {
      i := NameOfRule(rules[1..], kinds, name);
      i := i + 1;
    }
  }

  lemma MissingDropsRule(rule: Value, kinds: set<GeoKind>, src: Sources, name: string, url: string)
    requires name in NamesIn(rule, kinds) && !IsPresent(src, name) && UpstreamUrlForName(name) == Some(url)
    requires url !in src.cached
    ensures NeedsUrl(rule, kinds, src, url)
  {
    match GeoMatcherOf(rule, kinds)
    case Expand(kind, codes) =>
      var names := GeoNames(kind, codes);
      var i :| 0 <= i < |codes| && GeoTag(kind, codes[i]) == name;
      assert names[i] == name && GeoSet(src, name) == None;
      assert !AllResolve(src, names);
    case _ =>
  }

  /** Every planned URL that is not downloaded is missed: by a marker, which does
      without its copy, or by a rule, which goes. */
  lemma PlanIsNeeded(ruleSets: seq<Value>, rules: seq<Value>, dnsRules: seq<Value>, src: Sources, url: string)
    requires url in RequiredRuleSetUrls(ruleSets, rules, dnsRules, src) && url !in src.cached
    ensures
      || (exists i :: 0 <= i < |ruleSets| && DoesWithout(ruleSets[i], src, url))
      || (exists i :: 0 <= i < |rules| && NeedsUrl(rules[i], ROUTE_GEO_KINDS, src, url))
      || (exists i :: 0 <= i < |dnsRules| && NeedsUrl(dnsRules[i], DNS_GEO_KINDS, src, url))
  {
    if i :| 0 <= i < |ruleSets| && GeoBuild.DownloadUrl(ruleSets[i]) == Some(url) {
      MarkerExactly(src, ruleSets[i]);
    } else {
      var name :| name in LegacyGeoRuleSetNames(rules, dnsRules) && !IsPresent(src, name) &&
        UpstreamUrlForName(name) == Some(url);
      if name in LegacyNames(rules, ROUTE_GEO_KINDS) {
        var i := NameOfRule(rules, ROUTE_GEO_KINDS, name);
        MissingDropsRule(rules[i], ROUTE_GEO_KINDS, src, name, url);
      } else {
        var i := NameOfRule(dnsRules, DNS_GEO_KINDS, name);
        MissingDropsRule(dnsRules[i], DNS_GEO_KINDS, src, name, url);
      }
    }
  }
}
