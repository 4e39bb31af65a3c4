/** What a built route holds, told from the members of the profile's rules and
    rule-sets: which rules of each layer are emitted, which definitions, and when
    the result passes validation. */
module RouteEmission {
  import opened JsonValue
  import opened RuleKeys
  import opened RuleSemantics
  import opened RuleRefs
  import opened FirstMatch
  import opened GeoBuild
  import opened GeoFiles
  import opened RouteBuild
  import opened RouteFilter
  import opened RouteValidation
  import opened RoutePlan
  import opened GeoResidue

  lemma {:induction false} LeftMembers(results: seq<Option<Value>>, e: Value)
    ensures e in Left(results) <==> Some(e) in results
  {
    if results == [] {
    } else {
      LeftMembers(results[1..], e);
      assert forall r :: r in results <==> r == results[0] || r in results[1..];
    }
  }

  /** `e` is what `rule` becomes in a route. */
  predicate Becomes(rule: Value, src: Sources, e: Value) {
    ExpandGeoRule(rule, ROUTE_GEO_KINDS, src, []).0 == Some(e)
  }

  lemma BecomesMembers(rule: Value, src: Sources, e: Value)
    requires Becomes(rule, src, e)
    ensures forall k :: k != Geoip && k != Geosite && k != RuleSet ==> Get(e, k) == Get(rule, k)
  {}

  /** Without a legacy matcher a rule becomes itself. */
  lemma PlainBecomes(rule: Value, src: Sources, e: Value)
    requires !Has(rule, Geoip) && !Has(rule, Geosite)
    ensures Becomes(rule, src, e) <==> e == rule
  {}

  // ---- subscription rules

  /** `rule` is emitted as `e`: it is neither disabled nor one of the builder's
      own, and every reference of `e` is defined. */
  predicate Emits(rule: Value, input: Input, e: Value) {
    && rule in input.subscription && !input.disabled(rule) && Permitted(rule) && Becomes(rule, input.src, e)
    && RuleSetRefsKnown(e, TagsOf(SubscriptionSets(input)))
  }

  lemma SubscriptionExactly(input: Input, e: Value)
    ensures e in BuildRoute(input).subscription <==> exists r :: Emits(r, input, e)
  {
    var rules := NotDisabled(input);
    var each := SubscriptionEach(rules, input);
    SubscriptionIsLeft(input);
    LeftMembers(each, e);
    if e in BuildRoute(input).subscription {
      var i :| 0 <= i < |each| && each[i] == Some(e);
      NotDisabledExactly(input, rules[i]);
      assert rules[i] in rules && Emits(rules[i], input, e);
    }
    if r :| Emits(r, input, e) {
      NotDisabledExactly(input, r);
      var i :| 0 <= i < |rules| && rules[i] == r;
      assert each[i] == Some(e);
    }
  }

  lemma EmittedIsPermitted(rule: Value, input: Input, e: Value)
    requires Emits(rule, input, e)
    ensures Permitted(e)
  {
    BecomesMembers(rule, input.src, e);
    assert Get(e, Action) == Get(rule, Action) && Get(e, ClashMode) == Get(rule, ClashMode);
  }

  lemma PlainRulePermitted(input: Input, rule: Value)
    requires rule in input.subscription && !input.disabled(rule) && !Has(rule, Geoip) && !Has(rule, Geosite)
    requires RuleSetRefsKnown(rule, TagsOf(SubscriptionSets(input)))
    ensures rule in BuildRoute(input).subscription <==> Permitted(rule)
  {
    SubscriptionExactly(input, rule);
    PlainBecomes(rule, input.src, rule);
    if Permitted(rule) { assert Emits(rule, input, rule); }
    if r :| Emits(r, input, rule) { EmittedIsPermitted(r, input, rule); }
  }

  lemma PermittedMembers(rule: Value)
    ensures Permitted(rule) <==>
      && GetStr(rule, Action) != Some("sniff") && GetStr(rule, Action) != Some("hijack-dns")
      && (GetStr(rule, ClashMode) == None || Lower(GetStr(rule, ClashMode).value) == "rule")
  {}

  /** A rule without a legacy matcher, enabled and with its references defined, is
      emitted if and only if its action is neither `sniff` nor `hijack-dns` and its
      `clash_mode` is absent, no text, or `rule` in any case. */
  lemma PlainRuleEmitted(input: Input, rule: Value)
    requires rule in input.subscription && !input.disabled(rule) && !Has(rule, Geoip) && !Has(rule, Geosite)
    requires RuleSetRefsKnown(rule, TagsOf(SubscriptionSets(input)))
    ensures rule in BuildRoute(input).subscription <==>
      && GetStr(rule, Action) != Some("sniff") && GetStr(rule, Action) != Some("hijack-dns")
      && (GetStr(rule, ClashMode) == None || Lower(GetStr(rule, ClashMode).value) == "rule")
  {
    PlainRulePermitted(input, rule);
    PermittedMembers(rule);
  }

  // ---- custom rules

  /** A custom rule is emitted as `e`: it is not disabled, its outbound is there
      and its references are defined. */
  predicate EmitsCustom(rule: Value, input: Input, e: Value) {
    && rule in input.custom && !input.disabled(rule) && Becomes(rule, input.src, e)
    && Usable(rule, input.outs, TagsOf(SubscriptionSets(input)))
  }

  lemma CustomExactly(input: Input, e: Value)
    ensures e in BuildRoute(input).custom <==> exists r :: EmitsCustom(r, input, e)
  {
    var rules := EnabledCustom(input);
    var each := CustomEach(rules, input);
    BuiltCustom(input);
    LeftMembers(each, e);
    if e in BuildRoute(input).custom {
      var i :| 0 <= i < |each| && each[i] == Some(e);
      assert rules[i] in rules && EmitsCustom(rules[i], input, e);
    }
    if r :| EmitsCustom(r, input, e) {
      assert r in rules;
      var i :| 0 <= i < |rules| && rules[i] == r;
      assert each[i] == Some(e);
    }
  }

  lemma BuiltCustom(input: Input)
    ensures BuildRoute(input).custom == Left(CustomEach(EnabledCustom(input), input))
  {
    EnabledIsPermitted(input);
    CustomIsLeft(EnabledCustom(input), input, ResolveSets(input.src, SubscriptionSets(input)));
  }

  // ---- DNS rules

  /** The categories of an expanded DNS rule are all defined in the end. */
  lemma DnsNamesDefined(input: Input, rule: Value)
    requires rule in input.dnsRules && !Has(rule, Geoip)
    requires ExpandGeoRule(rule, DNS_GEO_KINDS, input.src, []).0.Some?
    ensures NamesIn(rule, DNS_GEO_KINDS) <= TagsOf(BuildRoute(input).sets)
  {
    var subSets := SubscriptionSets(input);
    EnabledIsPermitted(input);
    var allSets := LocalSets(ExpandGeoipRules(UsableCustom(input, subSets), subSets, input.src).1);
    var plain := Filter(input.dnsRules, WithoutGeoip);
    assert rule in plain;
    var i :| 0 <= i < |plain| && plain[i] == rule;
    NamesDefined(plain, DNS_GEO_KINDS, input.src, allSets, i);
    assert BuildRoute(input).sets == DnsGeosite(input.dnsRules, input.src, allSets).1;
  }

  /** With everything planned on disk, a DNS rule is emitted exactly when it has no
      `geoip`, its `geosite` is valid and each of its categories has some source,
      and the sets it names itself are defined. */
  lemma DnsRuleEmitted(input: Input, rule: Value)
    requires rule in input.dnsRules
    ensures Planned(input) ==> (DnsAs(rule, input).Some? <==>
      && !Has(rule, Geoip) && !DropsRule(rule, DNS_GEO_KINDS, input.src)
      && RuleSetRefsKnown(rule, TagsOf(BuildRoute(input).sets)))
  {
    if Planned(input) && !Has(rule, Geoip) {
      var i :| 0 <= i < |input.dnsRules| && input.dnsRules[i] == rule;
      PlanCovers(input);
      assert NamesCached(input.dnsRules, DNS_GEO_KINDS, input.src);
      CachedRuleDrops(input.dnsRules, DNS_GEO_KINDS, input.src, i, []);
      if ExpandGeoRule(rule, DNS_GEO_KINDS, input.src, []).0.Some? {
        DnsNamesDefined(input, rule);
        ExpandedRefs(rule, DNS_GEO_KINDS, input.src, TagsOf(BuildRoute(input).sets));
      }
    }
  }

  // ---- definitions

  /** A definition that reads a file of this machine. */
  predicate LocalFile(s: Value) {
    && Get(s, Type) == Some(Str("local")) && Get(s, Url) == None && Get(s, Key.DownloadUrl) == None
    && match Get(s, Path)
       case Some(Str(path)) => path != ""
       case _ => false
  }

  lemma LocalExactly(s: Value)
    ensures LocalOnly(s) <==> LocalFile(s)
  {}

  lemma {:induction false} ResolvedMembers(src: Sources, sets: seq<Value>, s: Value)
    ensures s in ResolveSets(src, sets) <==> exists m :: m in sets && ResolveSet(src, m) == Some(s)
  {
    if sets == [] {
    } else {
      ResolvedMembers(src, sets[1..], s);
      assert forall m :: m in sets <==> m == sets[0] || m in sets[1..];
    }
  }

  /** A definition of the profile, or a file for a code of one of its rules. */
  ghost predicate FromProfile(s: Value, input: Input) {
    || (exists m :: m in input.ruleSets && ResolveSet(input.src, m) == Some(s))
    || (exists name :: name in LegacyGeoRuleSetNames(input.subscription + input.custom, input.dnsRules) &&
          GeoSet(input.src, name) == Some(s))
  }

  /** The definitions of an expansion that starts from some of the profile. */
  lemma ExpansionFromProfile(input: Input, rules: seq<Value>, kinds: set<GeoKind>, sets: seq<Value>, s: Value)
    requires s in ExpandGeoRules(rules, kinds, input.src, sets).1 && (s in sets ==> FromProfile(s, input))
    requires LegacyNames(rules, kinds) <= LegacyGeoRuleSetNames(input.subscription + input.custom, input.dnsRules)
    ensures FromProfile(s, input)
  {
    var more := ExpandGeoRules(rules, kinds, input.src, sets).1;
    ExpansionAddsFiles(rules, kinds, input.src, sets);
    var i :| 0 <= i < |more| && more[i] == s;
    if i >= |sets| { assert FileFor(more[i], input.src, LegacyNames(rules, kinds), sets); }
  }

  lemma KeptByExpansion(rules: seq<Value>, kinds: set<GeoKind>, src: Sources, sets: seq<Value>, s: Value)
    requires s in sets
    ensures s in ExpandGeoRules(rules, kinds, src, sets).1
  {
    ExpansionAddsFiles(rules, kinds, src, sets);
    var i :| 0 <= i < |sets| && sets[i] == s;
    assert ExpandGeoRules(rules, kinds, src, sets).1[i] == s;
  }

  /** The definitions once subscription and custom rules are expanded. */
  function RouteSets(input: Input): seq<Value> {
    var subSets := SubscriptionSets(input);
    LocalSets(ExpandGeoipRules(UsableCustom(input, subSets), subSets, input.src).1)
  }

  lemma BuiltSets(input: Input)
    ensures BuildRoute(input).sets
         == ExpandGeoRules(Filter(input.dnsRules, WithoutGeoip), DNS_GEO_KINDS, input.src, RouteSets(input)).1
  {
    EnabledIsPermitted(input);
  }

  lemma RouteSetsFromProfile(input: Input, s: Value)
    requires s in RouteSets(input)
    ensures FromProfile(s, input)
  {
    var subSets, rules := SubscriptionSets(input), input.subscription + input.custom;
    FilterLocal(ExpandGeoipRules(PermittedRules(input), input.ruleSets, input.src).1);
    LocalSetsResolve(input.src, subSets);
    FewerNames(PermittedRules(input), rules, ROUTE_GEO_KINDS);
    FewerNames(UsableCustom(input, subSets), rules, ROUTE_GEO_KINDS);
    if s in subSets {
      ResolvedMembers(input.src, input.ruleSets, s);
      ExpansionFromProfile(input, PermittedRules(input), ROUTE_GEO_KINDS, ResolveSets(input.src, input.ruleSets), s);
    }
    ExpansionFromProfile(input, UsableCustom(input, subSets), ROUTE_GEO_KINDS, subSets, s);
  }

  /** Every definition of a route reads a local file, and comes from the profile
      or from a code of one of its rules. */
  lemma DefinitionsAreFiles(input: Input, s: Value)
    requires s in BuildRoute(input).sets
    ensures LocalFile(s) && FromProfile(s, input)
  {
    var plain, before := Filter(input.dnsRules, WithoutGeoip), RouteSets(input);
    BuiltSets(input);
    FilterLocal(ExpandGeoipRules(UsableCustom(input, SubscriptionSets(input)), SubscriptionSets(input), input.src).1);
    ExpandListKnown(plain, DNS_GEO_KINDS, input.src, before);
    FewerNames(plain, input.dnsRules, DNS_GEO_KINDS);
    if s in before { RouteSetsFromProfile(input, s); }
    ExpansionFromProfile(input, plain, DNS_GEO_KINDS, before, s);
    LocalExactly(s);
  }

  lemma ResolvedStays(input: Input, m: Value)
    requires m in input.ruleSets && ResolveSet(input.src, m).Some? && LocalFile(ResolveSet(input.src, m).value)
    ensures ResolveSet(input.src, m).value in BuildRoute(input).sets
  {
    var s, subSets := ResolveSet(input.src, m).value, SubscriptionSets(input);
    LocalExactly(s);
    ResolvedMembers(input.src, input.ruleSets, s);
    KeptByExpansion(PermittedRules(input), ROUTE_GEO_KINDS, input.src, ResolveSets(input.src, input.ruleSets), s);
    FilterLocal(ExpandGeoipRules(PermittedRules(input), input.ruleSets, input.src).1);
    LocalSetsResolve(input.src, subSets);
    KeptByExpansion(UsableCustom(input, subSets), ROUTE_GEO_KINDS, input.src, subSets, s);
    BuiltSets(input);
    KeptByExpansion(Filter(input.dnsRules, WithoutGeoip), DNS_GEO_KINDS, input.src, RouteSets(input), s);
  }

  /** A local rule-set of the profile stays, and so does the copy a marker gets. */
  lemma LocalDefinitionsStay(input: Input, m: Value)
    requires m in input.ruleSets
    ensures LocalFile(m) ==> m in BuildRoute(input).sets
    ensures ResolveSet(input.src, m).Some? && LocalFile(ResolveSet(input.src, m).value) ==>
      ResolveSet(input.src, m).value in BuildRoute(input).sets
  {
    if LocalFile(m) { assert ResolveSet(input.src, m) == Some(m); }
    if ResolveSet(input.src, m).Some? && LocalFile(ResolveSet(input.src, m).value) { ResolvedStays(input, m); }
  }

  // ---- validation of a built route

  /** A built route passes if and only if its default outbound and the outbounds of
      its rules are known, at every depth. */
  lemma BuiltRouteValid(input: Input)
    requires RefFree(input.reserved) && RefFree(input.apps)
    ensures var route := BuildRoute(input);
      ValidateRouteRefs(input.final, route.Rules(), route.sets, input.outs) == None <==>
        && (input.final == "direct" || input.final == "block" || input.final in input.outs)
        && forall i :: 0 <= i < |route.Rules()| ==> OutboundsKnown(route.Rules()[i], input.outs)
  {
    var route := BuildRoute(input);
    ClosedReferences(input);
    ValidRouteExactly(input.final, route.Rules(), route.sets, input.outs);
    forall i | 0 <= i < |route.Rules()|
      ensures Resolves(route.Rules()[i], input.outs, route.sets) <==> OutboundsKnown(route.Rules()[i], input.outs)
    {
      KnownResolves(route.Rules()[i], route.sets);
    }
  }

  lemma EmittedOutbound(input: Input, e: Value)
    requires e in BuildRoute(input).custom
    ensures OwnOutboundKnown(e, input.outs)
  {
    CustomExactly(input, e);
    var r :| EmitsCustom(r, input, e);
    BecomesMembers(r, input.src, e);
    assert Get(e, Outbound) == Get(r, Outbound);
  }

  lemma EmittedRefs(input: Input, e: Value)
    requires RefFree(input.reserved) && RefFree(input.apps) && e in BuildRoute(input).custom
    ensures RuleSetRefsKnown(e, TagsOf(BuildRoute(input).sets))
  {
    var rules := BuildRoute(input).Rules();
    ClosedReferences(input);
    assert e in rules;
    var i :| 0 <= i < |rules| && rules[i] == e;
  }

  /** An emitted custom rule passes if and only if the rules nested in it name
      known outbounds: its own was looked at, theirs were not. */
  lemma CustomRuleValid(input: Input, e: Value)
    requires RefFree(input.reserved) && RefFree(input.apps) && e in BuildRoute(input).custom
    ensures ValidateRule(e, input.outs, TagsOf(BuildRoute(input).sets)) == None <==>
      (IsLogical(e) ==> forall i :: 0 <= i < |SubRules(e)| ==> OutboundsKnown(SubRules(e)[i], input.outs))
  {
    EmittedOutbound(input, e);
    EmittedRefs(input, e);
    KnownResolves(e, BuildRoute(input).sets);
    ValidRuleExactly(e, input.outs, BuildRoute(input).sets);
  }

  const GONE: Value :=
    Obj(map[Type := Str("logical"), Mode := Str("or"), Outbound := Str("direct"),
            Rules := Arr([Obj(map[Outbound := Str("gone")])])])

  lemma GoneFacts(outs: set<string>, tags: set<string>)
    requires "direct" in outs && "gone" !in outs
    ensures Usable(GONE, outs, tags) && !OutboundsKnown(GONE, outs) && !Has(GONE, Geoip) && !Has(GONE, Geosite)
  {
    var leaf := Obj(map[Outbound := Str("gone")]);
    assert SubRules(GONE) == [leaf] && SubRules(GONE)[0] == leaf;
    assert Get(leaf, Outbound) == Some(Str("gone")) && !IsLogical(leaf) && RuleSetRefsKnown(leaf, tags);
    assert IsLogical(GONE) && !OutboundsKnown(leaf, outs);
  }

  /** So a stored custom rule whose nested rule names an outbound of another
      subscription is emitted, and the build is refused. */
  lemma NestedOutboundRefused(input: Input)
    requires RefFree(input.reserved) && RefFree(input.apps) && GONE in input.custom && !input.disabled(GONE)
    requires "direct" in input.outs && "gone" !in input.outs
    ensures var route := BuildRoute(input);
      GONE in route.custom && ValidateRouteRefs(input.final, route.Rules(), route.sets, input.outs) != None
  {
    var route := BuildRoute(input);
    GoneFacts(input.outs, TagsOf(SubscriptionSets(input)));
    PlainBecomes(GONE, input.src, GONE);
    assert EmitsCustom(GONE, input, GONE);
    CustomExactly(input, GONE);
    BuiltRouteValid(input);
    assert GONE in route.Rules();
    var i :| 0 <= i < |route.Rules()| && route.Rules()[i] == GONE;
  }
}
