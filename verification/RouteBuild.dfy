/** The route rules of a runtime config: reserved, per-app and mode rules,
    then custom and subscription rules, filtered so every reference resolves. */
module RouteBuild {
  import opened JsonValue
  import opened RuleKeys
  import opened RuleSemantics
  import opened RuleRefs
  import opened GeoBuild

  // ---- filters

  predicate EqIgnoreCase(a: string, b: string) { Lower(a) == Lower(b) }

  /** Rules the builder never emits: its own actions, and modes that are either
      never set or decided by the builder's own mode rules. */
  predicate RuleNeverTakesEffect(rule: Value) {
    || GetStr(rule, Action) == Some("sniff") || GetStr(rule, Action) == Some("hijack-dns")
    || (GetStr(rule, ClashMode).Some? && !EqIgnoreCase(GetStr(rule, ClashMode).value, "rule"))
  }

  predicate CustomRuleUsable(rule: Value, outs: set<string>, sets: set<string>) {
    (GetStr(rule, Outbound).Some? ==> GetStr(rule, Outbound).value in outs) && RuleSetRefsKnown(rule, sets)
  }

  predicate LocalOnly(s: Value) {
    && s.Obj? && GetStr(s, Type) == Some("local") && !Has(s, Url) && !Has(s, DownloadUrl)
    && GetStr(s, Path).Some? && GetStr(s, Path).value != ""
  }

  function Filter(rules: seq<Value>, p: Value -> bool): (r: seq<Value>)
    ensures forall v :: v in r <==> v in rules && p(v)
  {
    if rules == [] then []
    else if p(rules[0]) then [rules[0]] + Filter(rules[1..], p)
    else Filter(rules[1..], p)
  }

  function ModeRule(mode: string, outbound: string): Value {
    Obj(map[ClashMode := Str(mode), Outbound := Str(outbound)])
  }

  // ---- the builder

  datatype Input = Input(
    reserved: seq<Value>,
    apps: seq<Value>,
    globalTarget: string,
    final: string,
    subscription: seq<Value>,
    ruleSets: seq<Value>,
    custom: seq<Value>,
    disabled: Value -> bool,
    outs: set<string>,
    dnsRules: seq<Value>,
    src: Sources)

  datatype Route = Route(prefix: seq<Value>, custom: seq<Value>, subscription: seq<Value>, sets: seq<Value>,
      dns: seq<Value>) {
    function Rules(): seq<Value> { prefix + custom + subscription }
  }

  function ModeRules(input: Input): seq<Value> {
    [ModeRule("global", input.globalTarget), ModeRule("direct", "direct")]
  }

  // The tests the builder retains rules and rule-sets by.

  function EnabledTest(input: Input): Value -> bool { r => !input.disabled(r) }

  function KnownTest(sets: seq<Value>): Value -> bool { r => RuleSetRefsKnown(r, TagsOf(sets)) }

  function UsableTest(outs: set<string>, sets: seq<Value>): Value -> bool {
    r => CustomRuleUsable(r, outs, TagsOf(sets))
  }

  predicate TakesEffect(rule: Value) { !RuleNeverTakesEffect(rule) }

  predicate WithoutGeoip(rule: Value) { !Has(rule, Geoip) }

  function NotDisabled(input: Input): seq<Value> {
    Filter(input.subscription, EnabledTest(input))
  }

  function TakingEffect(rules: seq<Value>): seq<Value> {
    Filter(rules, TakesEffect)
  }

  function UsableCustom(input: Input, sets: seq<Value>): seq<Value> {
    Filter(Filter(input.custom, EnabledTest(input)), UsableTest(input.outs, sets))
  }

  function Enabled(input: Input): seq<Value> {
    TakingEffect(NotDisabled(input))
  }

  function KnownRules(rules: seq<Value>, sets: seq<Value>): seq<Value> {
    Filter(rules, KnownTest(sets))
  }

  function LocalSets(sets: seq<Value>): seq<Value> {
    Filter(sets, LocalOnly)
  }

  /** DNS rules keep `geosite` only; a `geoip` DNS rule has no rule-set form. */
  function DnsGeosite(rules: seq<Value>, src: Sources, sets: seq<Value>): (seq<Value>, seq<Value>) {
    ExpandGeoRules(Filter(rules, WithoutGeoip), DNS_GEO_KINDS, src, sets)
  }

  function BuildRoute(input: Input): Route {
    var (sub0, subSets0) := ExpandGeoipRules(Enabled(input), input.ruleSets, input.src);
    var subSets := LocalSets(subSets0);
    var sub := KnownRules(sub0, subSets);
    var usable := UsableCustom(input, subSets);
    var (custom, allSets0) := ExpandGeoipRules(usable, subSets, input.src);
    var allSets := LocalSets(allSets0);
    var (dns0, sets) := DnsGeosite(input.dnsRules, input.src, allSets);
    Route(input.reserved + input.apps + ModeRules(input), custom, sub, sets, KnownRules(dns0, sets))
  }

  // ---- validation

  datatype RouteError = UnknownFinal | UnknownOutbound | UnknownRuleSet | MissingRules

  predicate OutboundKnown(tag: string, outs: set<string>) {
    tag == "direct" || tag == "block" || tag in outs
  }

  function ValidateRule(rule: Value, outs: set<string>, sets: set<string>): Option<RouteError>
    decreases rule, 0
  {
    if GetStr(rule, Outbound).Some? && !OutboundKnown(GetStr(rule, Outbound).value, outs) then Some(UnknownOutbound)
    else if !RuleSetFieldKnown(rule, sets) then Some(UnknownRuleSet)
    else if !IsLogical(rule) then None
    else if GetArr(rule, RuleKeys.Rules).None? then Some(MissingRules)
    else ValidateRules(rule, SubRules(rule), outs, sets)
  }

  function ValidateRules(parent: Value, rules: seq<Value>, outs: set<string>, sets: set<string>): Option<RouteError>
    requires forall i :: 0 <= i < |rules| ==> rules[i] < parent
    decreases parent, 0, |rules|
  {
    if rules == [] then None
    else
      var first := ValidateRule(rules[0], outs, sets);
      if first.Some? then first else ValidateRules(parent, rules[1..], outs, sets)
  }

  function ValidateRouteRefs(final: string, rules: seq<Value>, sets: seq<Value>, outs: set<string>): Option<RouteError>
  {
    if !OutboundKnown(final, outs) then Some(UnknownFinal)
    else ValidateRules(Arr(rules), rules, outs, TagsOf(sets))
  }

  // ---- every reference is defined

  predicate AllKnown(rules: seq<Value>, sets: seq<Value>) {
    forall i :: 0 <= i < |rules| ==> RuleSetRefsKnown(rules[i], TagsOf(sets))
  }

  lemma TagsOfAppend(sets: seq<Value>, s: Value)
    ensures TagsOf(sets + [s]) == TagsOf(sets) + (if GetStr(s, Tag).Some? then {GetStr(s, Tag).value} else {})
  {
    var all := sets + [s];
    forall x | x in TagsOf(sets) ensures x in TagsOf(all) {
      var i :| 0 <= i < |sets| && GetStr(sets[i], Tag) == Some(x);
      assert all[i] == sets[i];
    }
    assert all[|sets|] == s;
  }

  lemma GeoSetFacts(src: Sources, name: string)
    requires GeoSet(src, name).Some?
    ensures var s := GeoSet(src, name).value; GetStr(s, Tag) == Some(name) && LocalOnly(s)
  {}

  predicate AllLocal(sets: seq<Value>) {
    forall i :: 0 <= i < |sets| ==> LocalOnly(sets[i])
  }

  lemma {:induction false} AddSetsTags(src: Sources, names: seq<string>, sets: seq<Value>)
    requires AllResolve(src, names)
    ensures TagsOf(sets) <= TagsOf(AddSets(src, names, sets))
    ensures forall i :: 0 <= i < |names| ==> names[i] in TagsOf(AddSets(src, names, sets))
    ensures AllLocal(sets) ==> AllLocal(AddSets(src, names, sets))
  {
    if names == [] {
    } else {
      GeoSetFacts(src, names[0]);
      var next := if names[0] in TagsOf(sets) then sets else sets + [GeoSet(src, names[0]).value];
      TagsOfAppend(sets, GeoSet(src, names[0]).value);
      AddSetsTags(src, names[1..], next);
      assert forall i :: 1 <= i < |names| ==> names[i] == names[1..][i - 1];
    }
  }

  /** A rule that was known stays known through the expansion, and its new
      references are defined. */
  lemma ExpandedKnown(rule: Value, kinds: set<GeoKind>, src: Sources, sets: seq<Value>)
    ensures var (r, sets') := ExpandGeoRule(rule, kinds, src, sets);
      && TagsOf(sets) <= TagsOf(sets') && (AllLocal(sets) ==> AllLocal(sets'))
      && (r.Some? && RuleSetRefsKnown(rule, TagsOf(sets)) ==> RuleSetRefsKnown(r.value, TagsOf(sets')))
  {
    var (r, sets') := ExpandGeoRule(rule, kinds, src, sets);
    match GeoMatcherOf(rule, kinds)
    case Expand(kind, codes) =>
      if r.Some? {
        var names := GeoNames(kind, codes);
        AddSetsTags(src, names, sets);
        if RuleSetRefsKnown(rule, TagsOf(sets)) {
          RefsKnownMonotone(rule, TagsOf(sets), TagsOf(sets'));
          ReplacedRefs(rule, KindKey(kind), names, TagsOf(sets'));
        }
      }
    case _ =>
  }

  lemma ReplacedRefs(rule: Value, key: Key, names: seq<string>, tags: set<string>)
    requires rule.Obj? && (key == Geoip || key == Geosite)
    requires forall i :: 0 <= i < |names| ==> names[i] in tags
    ensures RuleSetRefsKnown(rule, tags) ==> RuleSetRefsKnown(Replaced(rule, key, Arr(ToStrs(names))), tags)
    ensures RuleSet !in rule.fields && RuleSetRefsKnown(Replaced(rule, key, Arr(ToStrs(names))), tags) ==>
      RuleSetRefsKnown(rule, tags)
  {
    var r := Replaced(rule, key, Arr(ToStrs(names)));
    ReplacedShape(rule, key, Arr(ToStrs(names)));
    assert RuleSetFieldKnown(r, tags);
  }

  lemma {:induction false} ExpandListKnown(rules: seq<Value>, kinds: set<GeoKind>, src: Sources, sets: seq<Value>)
    ensures var (kept, sets') := ExpandGeoRules(rules, kinds, src, sets);
      && TagsOf(sets) <= TagsOf(sets') && (AllLocal(sets) ==> AllLocal(sets'))
      && (AllKnown(rules, sets) ==> AllKnown(kept, sets'))
  {
    if rules == [] {
    } else {
      var (first, sets1) := ExpandGeoRule(rules[0], kinds, src, sets);
      ExpandedKnown(rules[0], kinds, src, sets);
      ExpandListKnown(rules[1..], kinds, src, sets1);
      var sets2 := ExpandGeoRules(rules[1..], kinds, src, sets1).1;
      if AllKnown(rules, sets) {
        forall i | 0 <= i < |rules[1..]| ensures RuleSetRefsKnown(rules[1..][i], TagsOf(sets1)) {
          RefsKnownMonotone(rules[i + 1], TagsOf(sets), TagsOf(sets1));
        }
        if first.Some? { RefsKnownMonotone(first.value, TagsOf(sets1), TagsOf(sets2)); }
      }
    }
  }

  lemma {:induction false} LocalSetsKept(sets: seq<Value>)
    requires AllLocal(sets)
    ensures LocalSets(sets) == sets
  {
    if sets == [] {
    } else {
      LocalSetsKept(sets[1..]);
    }
  }

  lemma {:induction false} LocalSetsResolve(src: Sources, sets: seq<Value>)
    requires AllLocal(sets)
    ensures ResolveSets(src, sets) == sets
  {
    if sets == [] {
    } else {
      assert ResolveSet(src, sets[0]) == Some(sets[0]);
      LocalSetsResolve(src, sets[1..]);
    }
  }

  lemma FilterLocal(sets: seq<Value>)
    ensures AllLocal(LocalSets(sets))
  {
    var r := LocalSets(sets);
    assert forall i :: 0 <= i < |r| ==> r[i] in r;
  }

  lemma FilterKnown(rules: seq<Value>, sets: seq<Value>)
    ensures AllKnown(KnownRules(rules, sets), sets)
  {
    var r := KnownRules(rules, sets);
    assert forall i :: 0 <= i < |r| ==> r[i] in r;
  }

  lemma KnownMore(rules: seq<Value>, sets: seq<Value>, more: seq<Value>)
    requires AllKnown(rules, sets) && TagsOf(sets) <= TagsOf(more)
    ensures AllKnown(rules, more)
  {
    forall i | 0 <= i < |rules| ensures RuleSetRefsKnown(rules[i], TagsOf(more)) {
      RefsKnownMonotone(rules[i], TagsOf(sets), TagsOf(more));
    }
  }

  /** The builder's own rules refer to no rule-set. */
  predicate RefFree(rules: seq<Value>) {
    forall i :: 0 <= i < |rules| ==> !Has(rules[i], RuleSet) && !IsLogical(rules[i])
  }

  lemma ClosedReferences(input: Input)
    requires RefFree(input.reserved) && RefFree(input.apps)
    ensures var route := BuildRoute(input);
      AllKnown(route.Rules(), route.sets) && AllKnown(route.dns, route.sets) && AllLocal(route.sets)
  {
    var route := BuildRoute(input);
    var (sub0, subSets0) := ExpandGeoipRules(Enabled(input), input.ruleSets, input.src);
    var subSets := LocalSets(subSets0);
    FilterLocal(subSets0);
    FilterKnown(sub0, subSets);
    var usable := UsableCustom(input, subSets);
    assert AllKnown(usable, subSets) by { assert forall i :: 0 <= i < |usable| ==> usable[i] in usable; }
    LocalSetsResolve(input.src, subSets);
    ExpandListKnown(usable, ROUTE_GEO_KINDS, input.src, subSets);
    var (custom, allSets) := ExpandGeoipRules(usable, subSets, input.src);
    LocalSetsKept(allSets);
    ExpandListKnown(Filter(input.dnsRules, WithoutGeoip), DNS_GEO_KINDS, input.src, allSets);
    var (dns0, sets) := DnsGeosite(input.dnsRules, input.src, allSets);
    FilterKnown(dns0, sets);
    KnownMore(custom, allSets, sets);
    KnownMore(KnownRules(sub0, subSets), subSets, sets);
    PrefixKnown(input, sets);
    assert route == Route(route.prefix, custom, KnownRules(sub0, subSets), sets, KnownRules(dns0, sets));
  }

  lemma PrefixKnown(input: Input, sets: seq<Value>)
    requires RefFree(input.reserved) && RefFree(input.apps)
    ensures AllKnown(input.reserved + input.apps + ModeRules(input), sets)
  {
    assert RefFree(ModeRules(input));
  }

  lemma {:induction false} KnownRuleValid(rule: Value, outs: set<string>, sets: set<string>)
    requires RuleSetRefsKnown(rule, sets)
    ensures ValidateRule(rule, outs, sets) in {None, Some(UnknownOutbound)}
    decreases rule, 0
  {
    if IsLogical(rule) && GetArr(rule, RuleKeys.Rules).Some? { KnownRulesValid(rule, SubRules(rule), outs, sets); }
  }

  lemma {:induction false} KnownRulesValid(parent: Value, rules: seq<Value>, outs: set<string>, sets: set<string>)
    requires forall i :: 0 <= i < |rules| ==> rules[i] < parent && RuleSetRefsKnown(rules[i], sets)
    ensures ValidateRules(parent, rules, outs, sets) in {None, Some(UnknownOutbound)}
    decreases parent, 0, |rules|
  {
    if rules == [] {
    } else {
      KnownRuleValid(rules[0], outs, sets);
      KnownRulesValid(parent, rules[1..], outs, sets);
    }
  }

  /** Validation of a built route can only complain about an outbound. */
  lemma ValidationOnlySeesOutbounds(input: Input)
    requires RefFree(input.reserved) && RefFree(input.apps)
    ensures var route := BuildRoute(input);
      ValidateRouteRefs(input.final, route.Rules(), route.sets, input.outs)
        in {None, Some(UnknownFinal), Some(UnknownOutbound)}
  {
    var route := BuildRoute(input);
    ClosedReferences(input);
    KnownRulesValid(Arr(route.Rules()), route.Rules(), input.outs, TagsOf(route.sets));
  }
}
