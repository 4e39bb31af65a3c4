/** Legacy geo matchers the runtime builder leaves behind: it expands the ones of
    top-level rules only, so a logical rule keeps those nested in it. */
module GeoResidue {
  import opened JsonValue
  import opened RuleKeys
  import opened RuleSemantics
  import opened RuleRefs
  import opened FirstMatch
  import opened GeoBuild
  import opened RouteBuild
  import opened RouteFilter
  import opened RoutePlan
  import opened DnsMode
  import opened FakeIp
  import opened DnsPipeline

  predicate HasGeo(rule: Value) {
    Has(rule, Geoip) || Has(rule, Geosite)
  }

  /** A rule nested in `rule`, at any depth, has a legacy matcher. */
  predicate NestsGeo(rule: Value) {
    SomeRule(SubRules(rule), HasGeo)
  }

  // ---- one rule

  lemma GeoHereOrNested(rule: Value)
    ensures SomeNode(rule, HasGeo) <==> HasGeo(rule) || NestsGeo(rule)
  {}

  lemma ReplacedGeo(rule: Value, kind: GeoKind, v: Value)
    requires rule.Obj? && !(Has(rule, Geoip) && Has(rule, Geosite)) && Has(rule, KindKey(kind))
    ensures !HasGeo(Replaced(rule, KindKey(kind), v))
  {}

  /** What expansion leaves of a rule has a legacy matcher exactly when one is
      nested in it. */
  lemma ExpandedGeo(rule: Value, kinds: set<GeoKind>, src: Sources, sets: seq<Value>)
    requires GeoSite in kinds && (GeoIp in kinds || WithoutGeoip(rule))
    ensures var r := ExpandGeoRule(rule, kinds, src, sets).0;
      r.Some? ==> (SomeNode(r.value, HasGeo) <==> NestsGeo(rule))
  {
    var r := ExpandGeoRule(rule, kinds, src, sets).0;
    if r.Some? {
      GeoHereOrNested(r.value);
      match GeoMatcherOf(rule, kinds)
      case Expand(kind, codes) =>
        var v: Value := Arr(ToStrs(GeoNames(kind, codes)));
        ReplacedShape(rule, KindKey(kind), v);
        ReplacedGeo(rule, kind, v);
      case _ =>
    }
  }

  // ---- the route

  lemma {:induction false} LeftSignal(results: seq<Option<Value>>, p: Value -> bool)
    ensures SomeRule(Left(results), p) <==>
      exists i :: 0 <= i < |results| && results[i].Some? && SomeNode(results[i].value, p)
  {
    if results == [] {
    } else {
      LeftSignal(results[1..], p);
      SomeConcat(One(results[0]), Left(results[1..]), p);
      if i :| 0 <= i < |results| && results[i].Some? && SomeNode(results[i].value, p) {
        if i > 0 { assert results[1..][i - 1] == results[i]; } else { assert One(results[0])[0] == results[0].value; }
      }
      if i :| 0 <= i < |results[1..]| && results[1..][i].Some? && SomeNode(results[1..][i].value, p) {
        assert results[i + 1] == results[1..][i];
      }
    }
  }

  lemma SomeConcat(a: seq<Value>, b: seq<Value>, p: Value -> bool)
    ensures SomeRule(a + b, p) <==> SomeRule(a, p) || SomeRule(b, p)
  {
    if i :| 0 <= i < |a| && SomeNode(a[i], p) { assert (a + b)[i] == a[i]; }
    if i :| 0 <= i < |b| && SomeNode(b[i], p) { assert (a + b)[|a| + i] == b[i]; }
  }

  lemma ModesHaveNoGeo(input: Input)
    ensures !SomeRule(ModeRules(input), HasGeo)
  {}

  lemma ProfileGeo(input: Input, i: nat)
    requires i < |ProfileRules(input)| && ProfileEach(input)[i].Some?
    ensures SomeNode(ProfileEach(input)[i].value, HasGeo) <==> NestsGeo(ProfileRules(input)[i])
  {
    ProfileExpands(input, i);
    ExpandedGeo(ProfileRules(input)[i], ROUTE_GEO_KINDS, input.src, []);
  }

  /** The emitted route holds a legacy matcher exactly when one of the builder's
      own rules does, or a rule of the profile that is emitted nests one. */
  lemma RouteGeoExactly(input: Input)
    ensures SomeRule(BuildRoute(input).Rules(), HasGeo) <==>
      || SomeRule(input.reserved + input.apps, HasGeo)
      || exists i :: 0 <= i < |ProfileRules(input)| && ProfileEach(input)[i].Some? && NestsGeo(ProfileRules(input)[i])
  {
    var route, pinned := BuildRoute(input), input.reserved + input.apps;
    assert route.Rules() == (pinned + ModeRules(input)) + (route.custom + route.subscription);
    SomeConcat(pinned + ModeRules(input), route.custom + route.subscription, HasGeo);
    SomeConcat(pinned, ModeRules(input), HasGeo);
    ModesHaveNoGeo(input);
    ProfileIsLeft(input);
    LeftSignal(ProfileEach(input), HasGeo);
    forall i | 0 <= i < |ProfileRules(input)| && ProfileEach(input)[i].Some?
      ensures SomeNode(ProfileEach(input)[i].value, HasGeo) <==> NestsGeo(ProfileRules(input)[i])
    {
      ProfileGeo(input, i);
    }
  }

  // ---- DNS

  /** A DNS rule as it is expanded, when it is. */
  function DnsAs(rule: Value, input: Input): Option<Value> {
    var r := ExpandGeoRule(rule, DNS_GEO_KINDS, input.src, []).0;
    if !Has(rule, Geoip) && r.Some? && RuleSetRefsKnown(r.value, TagsOf(BuildRoute(input).sets)) then r else None
  }

  lemma {:induction false} ExpandMembers(
      rules: seq<Value>, kinds: set<GeoKind>, src: Sources, sets: seq<Value>, e: Value)
    ensures e in ExpandGeoRules(rules, kinds, src, sets).0 <==>
      exists r :: r in rules && ExpandGeoRule(r, kinds, src, []).0 == Some(e)
  {
    if rules == [] {
    } else {
      var (first, sets1) := ExpandGeoRule(rules[0], kinds, src, sets);
      assert first == ExpandGeoRule(rules[0], kinds, src, []).0;
      ExpandMembers(rules[1..], kinds, src, sets1, e);
      assert forall r :: r in rules <==> r == rules[0] || r in rules[1..];
    }
  }

  lemma DnsMembers(input: Input, e: Value)
    ensures e in BuildRoute(input).dns <==> exists r :: r in input.dnsRules && DnsAs(r, input) == Some(e)
  {
    var subSets := SubscriptionSets(input);
    EnabledIsPermitted(input);
    var allSets := LocalSets(ExpandGeoipRules(UsableCustom(input, subSets), subSets, input.src).1);
    var plain := Filter(input.dnsRules, WithoutGeoip);
    var (dns0, sets) := DnsGeosite(input.dnsRules, input.src, allSets);
    ExpandMembers(plain, DNS_GEO_KINDS, input.src, allSets, e);
    assert BuildRoute(input).dns == KnownRules(dns0, sets) && BuildRoute(input).sets == sets;
    if e in BuildRoute(input).dns {
      var r :| r in plain && ExpandGeoRule(r, DNS_GEO_KINDS, input.src, []).0 == Some(e);
      assert r in input.dnsRules && DnsAs(r, input) == Some(e);
    }
    if r :| r in input.dnsRules && DnsAs(r, input) == Some(e) {
      assert r in plain;
    }
  }

  lemma NestingRuleShows(input: Input, r: Value)
    requires r in input.dnsRules && DnsAs(r, input).Some? && NestsGeo(r)
    ensures SomeRule(BuildRoute(input).dns, HasGeo)
  {
    var dns, e := BuildRoute(input).dns, DnsAs(r, input).value;
    ExpandedGeo(r, DNS_GEO_KINDS, input.src, []);
    DnsMembers(input, e);
    var i :| 0 <= i < |dns| && dns[i] == e;
    assert SomeNode(dns[i], HasGeo);
  }

  lemma ShownRuleNests(input: Input, i: nat) returns (r: Value)
    requires i < |BuildRoute(input).dns| && SomeNode(BuildRoute(input).dns[i], HasGeo)
    ensures r in input.dnsRules && DnsAs(r, input).Some? && NestsGeo(r)
  {
    var e := BuildRoute(input).dns[i];
    DnsMembers(input, e);
    r :| r in input.dnsRules && DnsAs(r, input) == Some(e);
    ExpandedGeo(r, DNS_GEO_KINDS, input.src, []);
  }

  /** The same for the DNS rules. */
  lemma DnsGeoExactly(input: Input)
    ensures SomeRule(BuildRoute(input).dns, HasGeo) <==>
      exists r :: r in input.dnsRules && DnsAs(r, input).Some? && NestsGeo(r)
  {
    if SomeRule(BuildRoute(input).dns, HasGeo) {
      var i :| 0 <= i < |BuildRoute(input).dns| && SomeNode(BuildRoute(input).dns[i], HasGeo);
      var r := ShownRuleNests(input, i);
    }
    if r :| r in input.dnsRules && DnsAs(r, input).Some? && NestsGeo(r) {
      NestingRuleShows(input, r);
    }
  }

  lemma GeoIgnores()
    ensures Ignores(HasGeo, UNREAD)
  {
    forall a: Value, b: Value | AgreeExcept(a, b, UNREAD) ensures HasGeo(a) == HasGeo(b) {
      assert Get(a, Geoip) == Get(b, Geoip) && Get(a, Geosite) == Get(b, Geosite);
    }
  }

  /** The later DNS steps bring no legacy matcher back. */
  lemma PreparedGeoFree(
      servers: seq<Value>, rules: seq<Value>, ipv6: bool, isLegacySet: string -> bool, excluded: string -> bool)
    requires !SomeRule(rules, HasGeo)
    ensures var r := PrepareDns(servers, rules, ipv6, isLegacySet, excluded); r.Kept? ==> !SomeRule(r.rules, HasGeo)
  {
    var plain := RemoveStrategies(Arr(rules), rules);
    GeoIgnores();
    IgnoresFewer(HasGeo, UNREAD, {Strategy, Rules});
    IgnoresFewer(HasGeo, UNREAD, {QueryType, IpVersion, Rules});
    IgnoresFewer(HasGeo, UNREAD, {QueryType});
    BlockSignals(rules, HasGeo);
    if SomeRule(StripBlock(plain).0, HasGeo) { StripRulesKeepSignals(Arr(plain), plain, HasGeo); }
    var tags := V4OnlyTags(servers, excluded);
    if SomeRule(NarrowAll(plain, tags), HasGeo) { NarrowAllSignals(plain, tags, HasGeo); }
  }

  // ---- a rule that keeps one

  const NESTED: Value :=
    Obj(map[Type := Str("logical"), Mode := Str("or"), Outbound := Str("direct"),
            Rules := Arr([Obj(map[Geosite := Str("cn")])])])

  lemma NestedFacts(src: Sources, tags: set<string>)
    ensures NestsGeo(NESTED) && Permitted(NESTED) && EmittedAs(NESTED, src, tags) == Some(NESTED)
  {
    var leaf := Obj(map[Geosite := Str("cn")]);
    assert SubRules(NESTED) == [leaf] && SubRules(NESTED)[0] == leaf;
    assert SomeNode(leaf, HasGeo) && !IsLogical(leaf) && RuleSetRefsKnown(leaf, tags);
    assert RuleSetRefsKnown(NESTED, tags);
  }

  /** Every build of a subscription with such a rule emits it as it is. */
  lemma NestedGeoIsEmitted(input: Input)
    requires NESTED in NotDisabled(input)
    ensures SomeRule(BuildRoute(input).Rules(), HasGeo)
  {
    NestedFacts(input.src, TagsOf(SubscriptionSets(input)));
    var i :| 0 <= i < |NotDisabled(input)| && NotDisabled(input)[i] == NESTED;
    var k := |EnabledCustom(input)| + i;
    ProfileExpands(input, k);
    assert ProfileRules(input)[k] == NESTED && ProfileEach(input)[k] == Some(NESTED) by {
      assert SubscriptionAs(NESTED, input) == Some(NESTED);
    }
    RouteGeoExactly(input);
  }
}
