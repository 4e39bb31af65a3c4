/** Which subscription rules the builder emits, and that the download planner
    asks for exactly the files this takes. */
module RoutePlan {
  import opened JsonValue
  import opened RuleKeys
  import opened RuleSemantics
  import opened RuleRefs
  import opened FirstMatch
  import opened GeoBuild
  import opened RouteBuild
  import opened RouteFilter

  // ---- one rule at a time

  /** A rule as the builder emits it, when it does. */
  function EmittedAs(rule: Value, src: Sources, tags: set<string>): Option<Value> {
    var r := ExpandGeoRule(rule, ROUTE_GEO_KINDS, src, []).0;
    if r.Some? && RuleSetRefsKnown(r.value, tags) then r else None
  }

  function EmittedEach(rules: seq<Value>, src: Sources, tags: set<string>): (r: seq<Option<Value>>)
    ensures |r| == |rules|
  {
    if rules == [] then [] else [EmittedAs(rules[0], src, tags)] + EmittedEach(rules[1..], src, tags)
  }

  lemma {:induction false} EmittedIsLeft(rules: seq<Value>, src: Sources, sets: seq<Value>, defined: seq<Value>)
    ensures KnownRules(ExpandGeoRules(rules, ROUTE_GEO_KINDS, src, sets).0, defined) ==
      Left(EmittedEach(rules, src, TagsOf(defined)))
  {
    if rules == [] {
    } else {
      var (first, sets1) := ExpandGeoRule(rules[0], ROUTE_GEO_KINDS, src, sets);
      var rest := ExpandGeoRules(rules[1..], ROUTE_GEO_KINDS, src, sets1).0;
      EmittedIsLeft(rules[1..], src, sets1, defined);
      assert first == ExpandGeoRule(rules[0], ROUTE_GEO_KINDS, src, []).0;
      if first.Some? {
        assert ([first.value] + rest)[1..] == rest;
      } else {
        assert [] + rest == rest;
      }
      assert EmittedEach(rules, src, TagsOf(defined))[1..] == EmittedEach(rules[1..], src, TagsOf(defined));
    }
  }

  /** The rule-sets subscription rules may refer to. */
  function SubscriptionSets(input: Input): seq<Value> {
    LocalSets(ExpandGeoipRules(PermittedRules(input), input.ruleSets, input.src).1)
  }

  /** A subscription rule that is not disabled, as the builder emits it. */
  function SubscriptionAs(rule: Value, input: Input): Option<Value> {
    if Permitted(rule) then EmittedAs(rule, input.src, TagsOf(SubscriptionSets(input))) else None
  }

  function SubscriptionEach(rules: seq<Value>, input: Input): (r: seq<Option<Value>>)
    ensures |r| == |rules| && forall i :: 0 <= i < |r| ==> r[i] == SubscriptionAs(rules[i], input)
  {
    if rules == [] then [] else [SubscriptionAs(rules[0], input)] + SubscriptionEach(rules[1..], input)
  }

  lemma {:induction false} SubscriptionSkips(rules: seq<Value>, input: Input)
    ensures Left(EmittedEach(TakingEffect(rules), input.src, TagsOf(SubscriptionSets(input))))
         == Left(SubscriptionEach(rules, input))
  {
    if rules == [] {
    } else {
      var tags, rest := TagsOf(SubscriptionSets(input)), TakingEffect(rules[1..]);
      SubscriptionSkips(rules[1..], input);
      LeftCons(SubscriptionAs(rules[0], input), SubscriptionEach(rules[1..], input));
      PermittedExactly(rules[0]);
      if Permitted(rules[0]) {
        assert ([rules[0]] + rest)[1..] == rest;
        LeftCons(EmittedAs(rules[0], input.src, tags), EmittedEach(rest, input.src, tags));
      }
    }
  }

  lemma SubscriptionIsLeft(input: Input)
    ensures BuildRoute(input).subscription == Left(SubscriptionEach(NotDisabled(input), input))
  {
    var sets := SubscriptionSets(input);
    EnabledIsPermitted(input);
    EmittedIsLeft(PermittedRules(input), input.src, ResolveSets(input.src, input.ruleSets), sets);
    SubscriptionSkips(NotDisabled(input), input);
  }

  // ---- custom rules

  /** A custom rule that is not disabled, as the builder emits it. */
  function CustomAs(rule: Value, input: Input): Option<Value> {
    if Usable(rule, input.outs, TagsOf(SubscriptionSets(input)))
    then ExpandGeoRule(rule, ROUTE_GEO_KINDS, input.src, []).0 else None
  }

  function CustomEach(rules: seq<Value>, input: Input): (r: seq<Option<Value>>)
    ensures |r| == |rules| && forall i :: 0 <= i < |r| ==> r[i] == CustomAs(rules[i], input)
  {
    if rules == [] then [] else [CustomAs(rules[0], input)] + CustomEach(rules[1..], input)
  }

  function EnabledCustom(input: Input): seq<Value> {
    Filter(input.custom, EnabledTest(input))
  }

  lemma {:induction false} CustomIsLeft(rules: seq<Value>, input: Input, sets: seq<Value>)
    ensures var usable := Filter(rules, UsableTest(input.outs, SubscriptionSets(input)));
      ExpandGeoRules(usable, ROUTE_GEO_KINDS, input.src, sets).0 == Left(CustomEach(rules, input))
  {
    if rules == [] {
    } else {
      var test := UsableTest(input.outs, SubscriptionSets(input));
      var rest := Filter(rules[1..], test);
      LeftCons(CustomAs(rules[0], input), CustomEach(rules[1..], input));
      UsableExactly(rules[0], input.outs, TagsOf(SubscriptionSets(input)));
      if test(rules[0]) {
        var (first, sets1) := ExpandGeoRule(rules[0], ROUTE_GEO_KINDS, input.src, sets);
        assert ([rules[0]] + rest)[1..] == rest;
        assert first == CustomAs(rules[0], input);
        CustomIsLeft(rules[1..], input, sets1);
      } else {
        CustomIsLeft(rules[1..], input, sets);
      }
    }
  }

  // ---- the whole profile

  /** The user's rules: custom ones, then those of the subscription. */
  function ProfileRules(input: Input): seq<Value> {
    EnabledCustom(input) + NotDisabled(input)
  }

  /** Each of them as the builder emits it. */
  function ProfileEach(input: Input): (r: seq<Option<Value>>)
    ensures |r| == |ProfileRules(input)|
  {
    CustomEach(EnabledCustom(input), input) + SubscriptionEach(NotDisabled(input), input)
  }

  lemma ProfileIsLeft(input: Input)
    ensures BuildRoute(input).custom + BuildRoute(input).subscription == Left(ProfileEach(input))
  {
    EnabledIsPermitted(input);
    SubscriptionIsLeft(input);
    CustomIsLeft(EnabledCustom(input), input, ResolveSets(input.src, SubscriptionSets(input)));
    LeftConcat(CustomEach(EnabledCustom(input), input), SubscriptionEach(NotDisabled(input), input));
  }

  lemma ProfileExpands(input: Input, i: nat)
    requires i < |ProfileRules(input)|
    ensures var custom := EnabledCustom(input);
      ProfileEach(input)[i] == (if i < |custom| then CustomAs(custom[i], input)
                                else SubscriptionAs(NotDisabled(input)[i - |custom|], input))
    ensures ProfileEach(input)[i].Some? ==>
      ProfileEach(input)[i] == ExpandGeoRule(ProfileRules(input)[i], ROUTE_GEO_KINDS, input.src, []).0
  {}

  // ---- what a rule needs to be emitted

  lemma OwnNamesDefined(rule: Value, kinds: set<GeoKind>, src: Sources, sets: seq<Value>)
    requires ExpandGeoRule(rule, kinds, src, []).0.Some?
    ensures NamesIn(rule, kinds) <= TagsOf(ExpandGeoRule(rule, kinds, src, sets).1)
  {
    match GeoMatcherOf(rule, kinds)
    case Expand(kind, codes) =>
      var names := GeoNames(kind, codes);
      AddSetsTags(src, names, sets);
      forall i | 0 <= i < |codes| ensures GeoTag(kind, codes[i]) in TagsOf(AddSets(src, names, sets)) {
        assert names[i] == GeoTag(kind, codes[i]);
      }
    case _ =>
  }

  lemma {:induction false} NamesDefined(
      rules: seq<Value>, kinds: set<GeoKind>, src: Sources, sets: seq<Value>, i: nat)
    requires i < |rules| && ExpandGeoRule(rules[i], kinds, src, []).0.Some?
    ensures TagsOf(sets) <= TagsOf(ExpandGeoRules(rules, kinds, src, sets).1)
    ensures NamesIn(rules[i], kinds) <= TagsOf(ExpandGeoRules(rules, kinds, src, sets).1)
  {
    var sets1 := ExpandGeoRule(rules[0], kinds, src, sets).1;
    ExpandedKnown(rules[0], kinds, src, sets);
    ExpandListKnown(rules[1..], kinds, src, sets1);
    if i > 0 {
      NamesDefined(rules[1..], kinds, src, sets1, i - 1);
    } else {
      OwnNamesDefined(rules[0], kinds, src, sets);
    }
  }

  /** The references of an expanded rule are those it had and its own names. */
  lemma ExpandedRefs(rule: Value, kinds: set<GeoKind>, src: Sources, tags: set<string>)
    ensures var r := ExpandGeoRule(rule, kinds, src, []).0;
      r.Some? ==> (RuleSetRefsKnown(r.value, tags) <==> RuleSetRefsKnown(rule, tags) && NamesIn(rule, kinds) <= tags)
  {
    match GeoMatcherOf(rule, kinds)
    case Expand(kind, codes) =>
      var names := GeoNames(kind, codes);
      var r := Replaced(rule, KindKey(kind), Arr(ToStrs(names)));
      assert forall i :: 0 <= i < |codes| ==> names[i] == GeoTag(kind, codes[i]);
      if NamesIn(rule, kinds) <= tags {
        forall i | 0 <= i < |names| ensures names[i] in tags {
          assert GeoTag(kind, codes[i]) in NamesIn(rule, kinds);
        }
        ReplacedRefs(rule, KindKey(kind), names, tags);
      }
      if RuleSetRefsKnown(r, tags) {
        assert RuleSetFieldKnown(r, tags) && Get(r, RuleSet) == Some(Arr(ToStrs(names)));
        forall i | 0 <= i < |names| ensures names[i] in tags {
          assert ToStrs<Key>(names)[i] == Str(names[i]);
        }
        ReplacedRefs(rule, KindKey(kind), names, tags);
      }
    case _ =>
  }

  lemma EmittedUnlessDropped(rule: Value, src: Sources, tags: set<string>)
    ensures EmittedAs(rule, src, tags).Some? <==>
      ExpandGeoRule(rule, ROUTE_GEO_KINDS, src, []).0.Some? && RuleSetRefsKnown(rule, tags) &&
        NamesIn(rule, ROUTE_GEO_KINDS) <= tags
  {
    ExpandedRefs(rule, ROUTE_GEO_KINDS, src, tags);
  }

  // ---- which added sets survive the local-only filter

  function LocalTags(sets: seq<Value>): set<string> {
    TagsOf(LocalSets(sets))
  }

  /** `more` only adds local sets, under tags `sets` did not have. */
  ghost predicate AddsLocal(sets: seq<Value>, more: seq<Value>) {
    && TagsOf(sets) <= TagsOf(more)
    && (forall t :: t in TagsOf(sets) ==> (t in LocalTags(more) <==> t in LocalTags(sets)))
    && (forall t :: t in TagsOf(more) && t !in TagsOf(sets) ==> t in LocalTags(more))
  }

  lemma {:induction false} LocalSetsAppend(sets: seq<Value>, s: Value)
    requires LocalOnly(s)
    ensures LocalSets(sets + [s]) == LocalSets(sets) + [s]
  {
    if sets == [] {
      assert sets + [s] == [s] && [s][1..] == [];
    } else {
      assert (sets + [s])[0] == sets[0] && (sets + [s])[1..] == sets[1..] + [s];
      LocalSetsAppend(sets[1..], s);
    }
  }

  lemma AddsOne(sets: seq<Value>, s: Value)
    requires LocalOnly(s) && GetStr(s, Tag).Some? && GetStr(s, Tag).value !in TagsOf(sets)
    ensures AddsLocal(sets, sets + [s])
  {
    TagsOfAppend(sets, s);
    LocalSetsAppend(sets, s);
    TagsOfAppend(LocalSets(sets), s);
  }

  lemma {:induction false} AddSetsLocal(src: Sources, names: seq<string>, sets: seq<Value>)
    requires AllResolve(src, names)
    ensures AddsLocal(sets, AddSets(src, names, sets))
  {
    if names == [] {
    } else {
      GeoSetFacts(src, names[0]);
      if names[0] in TagsOf(sets) {
        AddSetsLocal(src, names[1..], sets);
      } else {
        var s := GeoSet(src, names[0]).value;
        AddsOne(sets, s);
        AddSetsLocal(src, names[1..], sets + [s]);
      }
    }
  }

  lemma {:induction false} ExpansionAddsLocal(rules: seq<Value>, src: Sources, sets: seq<Value>)
    ensures AddsLocal(sets, ExpandGeoRules(rules, ROUTE_GEO_KINDS, src, sets).1)
  {
    if rules == [] {
    } else {
      var sets1 := ExpandGeoRule(rules[0], ROUTE_GEO_KINDS, src, sets).1;
      match GeoMatcherOf(rules[0], ROUTE_GEO_KINDS) {
        case Expand(kind, codes) =>
          if AllResolve(src, GeoNames(kind, codes)) { AddSetsLocal(src, GeoNames(kind, codes), sets); }
        case _ =>
      }
      assert AddsLocal(sets, sets1);
      ExpansionAddsLocal(rules[1..], src, sets1);
    }
  }

  /** A profile rule-set that stays remote holds the tag of a geo set. */
  predicate Shadowed(input: Input, name: string) {
    var resolved := ResolveSets(input.src, input.ruleSets);
    name in TagsOf(resolved) && name !in LocalTags(resolved)
  }

  /** Every planned URL is downloaded. */
  predicate Downloaded(input: Input) {
    && input.src.cacheDir.Some?
    && RequiredRuleSetUrls(input.ruleSets, PermittedRules(input), input.dnsRules, input.src) <= input.src.cached
  }

  /** Planner and builder agree: once everything is downloaded, a subscription
      rule is emitted exactly when its geo matcher is valid, each of its codes
      has some source, no remote set of the profile holds the tag of one, and
      the sets the rule names itself are defined. */
  lemma PlannedRulesEmitted(input: Input, i: nat)
    requires i < |PermittedRules(input)|
    ensures var rule, tags := PermittedRules(input)[i], TagsOf(SubscriptionSets(input));
      Downloaded(input) ==>
        (EmittedAs(rule, input.src, tags).Some? <==>
          && !DropsRule(rule, ROUTE_GEO_KINDS, input.src) && RuleSetRefsKnown(rule, tags)
          && forall name :: name in NamesIn(rule, ROUTE_GEO_KINDS) ==> !Shadowed(input, name))
  {
    if Downloaded(input) {
      var rules, resolved := PermittedRules(input), ResolveSets(input.src, input.ruleSets);
      PlannedRuleDrops(input.ruleSets, rules, input.dnsRules, input.src, []);
      EmittedUnlessDropped(rules[i], input.src, TagsOf(SubscriptionSets(input)));
      if ExpandGeoRule(rules[i], ROUTE_GEO_KINDS, input.src, []).0.Some? {
        NamesDefined(rules, ROUTE_GEO_KINDS, input.src, resolved, i);
        ExpansionAddsLocal(rules, input.src, resolved);
        forall name | name in NamesIn(rules[i], ROUTE_GEO_KINDS)
          ensures name in TagsOf(SubscriptionSets(input)) <==> !Shadowed(input, name)
        {}
      }
    }
  }

  // ---- profiles as the subscription parser leaves them

  /** A local rule-set, or a marker that becomes one or goes. */
  predicate ParsedSet(s: Value) {
    LocalOnly(s) || GetStr(s, Type) == Some("download") || GetStr(s, Type) == Some("bundled")
  }

  lemma ParsedResolvesLocal(src: Sources, s: Value)
    requires ParsedSet(s) && ResolveSet(src, s).Some?
    ensures LocalOnly(ResolveSet(src, s).value)
  {}

  lemma {:induction false} ParsedResolveLocal(src: Sources, sets: seq<Value>)
    requires forall i :: 0 <= i < |sets| ==> ParsedSet(sets[i])
    ensures AllLocal(ResolveSets(src, sets))
  {
    if sets == [] {
    } else {
      ParsedResolveLocal(src, sets[1..]);
      if ResolveSet(src, sets[0]).Some? { ParsedResolvesLocal(src, sets[0]); }
    }
  }

  /** No rule-set of a parsed profile shadows a geo set, so planner and builder
      agree on it without that clause. */
  lemma ParsedRulesEmitted(input: Input, i: nat)
    requires i < |PermittedRules(input)| && forall j :: 0 <= j < |input.ruleSets| ==> ParsedSet(input.ruleSets[j])
    ensures forall name :: !Shadowed(input, name)
    ensures var rule, tags := PermittedRules(input)[i], TagsOf(SubscriptionSets(input));
      Downloaded(input) ==>
        (EmittedAs(rule, input.src, tags).Some? <==>
          !DropsRule(rule, ROUTE_GEO_KINDS, input.src) && RuleSetRefsKnown(rule, tags))
  {
    ParsedResolveLocal(input.src, input.ruleSets);
    LocalSetsKept(ResolveSets(input.src, input.ruleSets));
    PlannedRulesEmitted(input, i);
  }

  const CN_RULE: Value := Obj(map[Geosite := Str("cn"), Outbound := Str("direct")])

  const REMOTE_CN: Value := Obj(map[Type := Str("remote"), Tag := Str("geosite-cn"), Url := Str("https://a/b.srs")])

  /** A stored profile whose remote `geosite-cn` is no longer loaded, with the
      bundled file of that name on disk. */
  function ShadowedInput(): Input {
    Input([], [], "proxy", "direct", [CN_RULE], [REMOTE_CN], [], r => false, {}, [],
          Sources(Some("/geo"), {"geosite-cn"}, Some("/cache"), {}, url => url, name => true))
  }

  lemma CnRule()
    ensures GeoMatcherOf(CN_RULE, ROUTE_GEO_KINDS) == Expand(GeoSite, ["cn"]) && GeoTag(GeoSite, "cn") == "geosite-cn"
    ensures Permitted(CN_RULE) && !IsLogical(CN_RULE) && !Has(CN_RULE, RuleSet)
  {}

  lemma ResolveOther(src: Sources, s: Value)
    requires GetStr(s, Type) == Some("remote")
    ensures ResolveSets(src, [s]) == [s]
  {
    assert [s][1..] == [];
  }

  lemma NamesOfOne(rule: Value, kinds: set<GeoKind>)
    ensures LegacyNames([rule], kinds) == NamesIn(rule, kinds)
  {
    assert [rule][1..] == [];
  }

  lemma ShadowedSets()
    ensures var input := ShadowedInput();
      ResolveSets(input.src, input.ruleSets) == [REMOTE_CN] && Shadowed(input, "geosite-cn")
  {
    var input := ShadowedInput();
    ResolveOther(input.src, REMOTE_CN);
    FilterOne(REMOTE_CN, LocalOnly);
    var resolved := [REMOTE_CN];
    assert GetStr(resolved[0], Tag) == Some("geosite-cn") && !LocalOnly(REMOTE_CN);
  }

  lemma CnNames()
    ensures NamesIn(CN_RULE, ROUTE_GEO_KINDS) == {"geosite-cn"}
  {
    CnRule();
    var codes := ["cn"];
    var names := set i | 0 <= i < |codes| :: GeoTag(GeoSite, codes[i]);
    assert NamesIn(CN_RULE, ROUTE_GEO_KINDS) == names;
    assert GeoTag(GeoSite, codes[0]) in names;
  }

  lemma ShadowedRules()
    ensures var input := ShadowedInput();
      PermittedRules(input) == [CN_RULE] && NamesIn(CN_RULE, ROUTE_GEO_KINDS) == {"geosite-cn"} && Downloaded(input)
  {
    var input := ShadowedInput();
    CnRule();
    FilterOne(CN_RULE, EnabledTest(input));
    FilterOne(CN_RULE, Permitted);
    NamesOfOne(CN_RULE, ROUTE_GEO_KINDS);
    CnNames();
    assert LegacyGeoRuleSetNames([CN_RULE], []) == {"geosite-cn"};
    assert IsPresent(input.src, "geosite-cn");
    assert GeoBuild.DownloadUrl(REMOTE_CN) == None;
  }

  /** The clause cannot be dropped: everything planned is there, the rule has a
      source and names no set itself, and it is not emitted. */
  lemma ShadowedRuleIsDropped()
    ensures var input := ShadowedInput();
      && PermittedRules(input) == [CN_RULE] && Downloaded(input) && Shadowed(input, "geosite-cn")
      && !DropsRule(CN_RULE, ROUTE_GEO_KINDS, input.src)
      && RuleSetRefsKnown(CN_RULE, TagsOf(SubscriptionSets(input)))
      && EmittedAs(CN_RULE, input.src, TagsOf(SubscriptionSets(input))) == None
  {
    CnRule();
    ShadowedSets();
    ShadowedRules();
    assert "geosite-cn" in NamesIn(CN_RULE, ROUTE_GEO_KINDS);
    PlannedRulesEmitted(ShadowedInput(), 0);
  }

  // ---- the plan covers a whole build

  /** What the app plans for: the rules of the profile and the custom rules. */
  function BuildPlan(input: Input): set<string> {
    RequiredRuleSetUrls(input.ruleSets, input.subscription + input.custom, input.dnsRules, input.src)
  }

  /** Every downloadable name of the rules has its URL in `urls`. */
  ghost predicate Covers(rules: seq<Value>, kinds: set<GeoKind>, src: Sources, urls: set<string>) {
    forall name :: name in LegacyNames(rules, kinds) && !IsPresent(src, name) && UpstreamUrlForName(name).Some? ==>
      UpstreamUrlForName(name).value in urls
  }

  lemma {:induction false} FewerNames(some: seq<Value>, rules: seq<Value>, kinds: set<GeoKind>)
    requires forall r :: r in some ==> r in rules
    ensures LegacyNames(some, kinds) <= LegacyNames(rules, kinds)
  {
    if some == [] {
    } else {
      assert some[0] in rules;
      var i :| 0 <= i < |rules| && rules[i] == some[0];
      NamesCovered(rules, kinds, i);
      FewerNames(some[1..], rules, kinds);
    }
  }

  lemma PlanCovers(input: Input)
    ensures Covers(input.subscription + input.custom, ROUTE_GEO_KINDS, input.src, BuildPlan(input))
    ensures Covers(input.dnsRules, DNS_GEO_KINDS, input.src, BuildPlan(input))
  {
    var rules := input.subscription + input.custom;
    forall name | name in LegacyGeoRuleSetNames(rules, input.dnsRules) && !IsPresent(input.src, name) &&
      UpstreamUrlForName(name).Some?
      ensures UpstreamUrlForName(name).value in BuildPlan(input)
    {}
  }

  lemma SameGeoExpansion(
    some: seq<Value>, rules: seq<Value>, kinds: set<GeoKind>, src: Sources, lean: Sources, sets: seq<Value>)
    requires SameDisk(src, lean) && Covers(rules, kinds, src, lean.cached) && forall r :: r in some ==> r in rules
    ensures ExpandGeoRules(some, kinds, src, sets) == ExpandGeoRules(some, kinds, lean, sets)
  {
    FewerNames(some, rules, kinds);
    SameExpansion(some, kinds, src, lean, sets);
  }

  /** A build never reads a cached download outside the plan: with everything
      planned on disk, the rest of the cache plays no part in the route. */
  lemma BuildReadsOnlyThePlan(input: Input)
    requires Planned(input)
    ensures BuildRoute(input) == BuildRoute(input.(src := input.src.(cached := BuildPlan(input))))
  {
    var src, lean := input.src, input.src.(cached := BuildPlan(input));
    var input' := input.(src := lean);
    var rules := input.subscription + input.custom;
    EnabledIsPermitted(input);
    EnabledIsPermitted(input');
    PlanCovers(input);
    SameResolved(input.ruleSets, src, lean, BuildPlan(input));
    SameEnabled(input, input');
    SameGeoExpansion(PermittedRules(input), rules, ROUTE_GEO_KINDS, src, lean, ResolveSets(src, input.ruleSets));
    var subSets := SubscriptionSets(input);
    FilterLocal(ExpandGeoipRules(PermittedRules(input), input.ruleSets, src).1);
    LocalSetsResolve(src, subSets);
    LocalSetsResolve(lean, subSets);
    SameGeoExpansion(UsableCustom(input, subSets), rules, ROUTE_GEO_KINDS, src, lean, subSets);
    var allSets := LocalSets(ExpandGeoipRules(UsableCustom(input, subSets), subSets, src).1);
    SameGeoExpansion(Filter(input.dnsRules, WithoutGeoip), input.dnsRules, DNS_GEO_KINDS, src, lean, allSets);
  }

  /** Which rules are enabled does not depend on the files. */
  lemma SameEnabled(input: Input, input': Input)
    requires input' == input.(src := input'.src)
    ensures PermittedRules(input) == PermittedRules(input')
    ensures forall sets: seq<Value> :: UsableCustom(input, sets) == UsableCustom(input', sets)
  {
    SameFilter(input.subscription, EnabledTest(input), EnabledTest(input'));
    SameFilter(input.custom, EnabledTest(input), EnabledTest(input'));
  }

  // ---- what is emitted, told from the profile and the plan

  /** Everything the app plans for is on disk. */
  predicate Planned(input: Input) {
    input.src.cacheDir.Some? && BuildPlan(input) <= input.src.cached
  }

  lemma PlanDownloaded(input: Input)
    requires Planned(input)
    ensures Downloaded(input)
    ensures NamesCached(input.subscription + input.custom, ROUTE_GEO_KINDS, input.src)
  {
    var rules := input.subscription + input.custom;
    PlanCovers(input);
    FewerNames(PermittedRules(input), rules, ROUTE_GEO_KINDS);
    assert LegacyGeoRuleSetNames(PermittedRules(input), input.dnsRules) <= LegacyGeoRuleSetNames(rules, input.dnsRules);
    assert RequiredRuleSetUrls(input.ruleSets, PermittedRules(input), input.dnsRules, input.src) <= BuildPlan(input);
  }

  /** Valid, and every code has a source that nothing shadows. */
  predicate Sourced(rule: Value, input: Input) {
    && !DropsRule(rule, ROUTE_GEO_KINDS, input.src)
    && forall name :: name in NamesIn(rule, ROUTE_GEO_KINDS) ==> !Shadowed(input, name)
  }

  lemma SubscriptionEmitted(input: Input, rule: Value)
    requires rule in NotDisabled(input)
    ensures Planned(input) ==> (SubscriptionAs(rule, input).Some? <==>
      Permitted(rule) && Sourced(rule, input) && RuleSetRefsKnown(rule, TagsOf(SubscriptionSets(input))))
  {
    if Planned(input) && Permitted(rule) {
      PlanDownloaded(input);
      assert rule in PermittedRules(input);
      var i :| 0 <= i < |PermittedRules(input)| && PermittedRules(input)[i] == rule;
      PlannedRulesEmitted(input, i);
    }
  }

  lemma CustomDrops(input: Input, i: nat)
    requires i < |input.custom| && Planned(input)
    ensures ExpandGeoRule(input.custom[i], ROUTE_GEO_KINDS, input.src, []).0 == None <==>
      DropsRule(input.custom[i], ROUTE_GEO_KINDS, input.src)
  {
    var rules, k := input.subscription + input.custom, |input.subscription| + i;
    PlanDownloaded(input);
    CachedRuleDrops(rules, ROUTE_GEO_KINDS, input.src, k, []);
    assert rules[k] == input.custom[i];
  }

  /** With everything planned on disk, a custom rule is emitted exactly when it is
      usable, its geo matcher is valid and each of its codes has some source. */
  lemma CustomEmitted(input: Input, rule: Value)
    requires rule in EnabledCustom(input)
    ensures Planned(input) ==> (CustomAs(rule, input).Some? <==>
      Usable(rule, input.outs, TagsOf(SubscriptionSets(input))) &&
      !DropsRule(rule, ROUTE_GEO_KINDS, input.src))
  {
    if Planned(input) {
      var i :| 0 <= i < |input.custom| && input.custom[i] == rule;
      CustomDrops(input, i);
    }
  }

  /** The names the kept rules of a list define. */
  function KeptNames(rules: seq<Value>, src: Sources): set<string> {
    if rules == [] then {}
    else
      (if DropsRule(rules[0], ROUTE_GEO_KINDS, src) then {} else NamesIn(rules[0], ROUTE_GEO_KINDS)) +
      KeptNames(rules[1..], src)
  }

  lemma {:induction false} AddSetsExact(src: Sources, names: seq<string>, sets: seq<Value>)
    requires AllResolve(src, names)
    ensures TagsOf(AddSets(src, names, sets)) == TagsOf(sets) + (set i | 0 <= i < |names| :: names[i])
  {
    if names == [] {
    } else {
      var next := if names[0] in TagsOf(sets) then sets else sets + [GeoSet(src, names[0]).value];
      GeoSetFacts(src, names[0]);
      TagsOfAppend(sets, GeoSet(src, names[0]).value);
      AddSetsExact(src, names[1..], next);
      NamesCons(names);
    }
  }

  lemma NamesCons(names: seq<string>)
    requires names != []
    ensures (set i | 0 <= i < |names| :: names[i]) == {names[0]} + (set i | 0 <= i < |names[1..]| :: names[1..][i])
  {
    forall i | 0 <= i < |names[1..]|
      ensures names[1..][i] in set j | 0 <= j < |names| :: names[j]
    {
      assert names[1..][i] == names[i + 1];
    }
    forall i | 0 < i < |names|
      ensures names[i] in set j | 0 <= j < |names[1..]| :: names[1..][j]
    {
      assert names[i] == names[1..][i - 1];
    }
  }

  lemma NamesAreTags(kind: GeoKind, codes: seq<string>)
    ensures (set i | 0 <= i < |GeoNames(kind, codes)| :: GeoNames(kind, codes)[i])
         == (set i | 0 <= i < |codes| :: GeoTag(kind, codes[i]))
  {
    var names := GeoNames(kind, codes);
    var a, b := set i | 0 <= i < |names| :: names[i], set i | 0 <= i < |codes| :: GeoTag(kind, codes[i]);
    forall i | 0 <= i < |codes| ensures names[i] in b && GeoTag(kind, codes[i]) in a {
      assert names[i] == GeoTag(kind, codes[i]);
    }
  }

  lemma OneRuleTags(rule: Value, src: Sources, sets: seq<Value>)
    requires ExpandGeoRule(rule, ROUTE_GEO_KINDS, src, sets).0 == None <==> DropsRule(rule, ROUTE_GEO_KINDS, src)
    ensures TagsOf(ExpandGeoRule(rule, ROUTE_GEO_KINDS, src, sets).1) == TagsOf(sets) +
      (if DropsRule(rule, ROUTE_GEO_KINDS, src) then {} else NamesIn(rule, ROUTE_GEO_KINDS))
  {
    match GeoMatcherOf(rule, ROUTE_GEO_KINDS)
    case Expand(kind, codes) =>
      var names := GeoNames(kind, codes);
      if AllResolve(src, names) {
        AddSetsExact(src, names, sets);
        NamesAreTags(kind, codes);
      }
    case _ =>
  }

  lemma {:induction false} ExpansionTags(rules: seq<Value>, src: Sources, sets: seq<Value>)
    requires NamesCached(rules, ROUTE_GEO_KINDS, src)
    ensures TagsOf(ExpandGeoRules(rules, ROUTE_GEO_KINDS, src, sets).1) == TagsOf(sets) + KeptNames(rules, src)
  {
    if rules == [] {
    } else {
      CachedRuleDrops(rules, ROUTE_GEO_KINDS, src, 0, sets);
      OneRuleTags(rules[0], src, sets);
      ExpansionTags(rules[1..], src, ExpandGeoRule(rules[0], ROUTE_GEO_KINDS, src, sets).1);
    }
  }

  /** Which tags rules may refer to, without running the build: the local sets of
      the profile, and the names of kept rules that nothing shadows. */
  lemma DefinedTags(input: Input)
    requires Downloaded(input)
    ensures TagsOf(SubscriptionSets(input)) == LocalTags(ResolveSets(input.src, input.ruleSets)) +
      (set name | name in KeptNames(PermittedRules(input), input.src) && !Shadowed(input, name))
  {
    var rules, resolved := PermittedRules(input), ResolveSets(input.src, input.ruleSets);
    forall name | name in LegacyNames(rules, ROUTE_GEO_KINDS) && !IsPresent(input.src, name) &&
        UpstreamUrlForName(name).Some?
      ensures IsCached(input.src, UpstreamUrlForName(name).value)
    {
      assert name in LegacyGeoRuleSetNames(rules, input.dnsRules);
      assert UpstreamUrlForName(name).value
        in RequiredRuleSetUrls(input.ruleSets, rules, input.dnsRules, input.src);
    }
    ExpansionTags(rules, input.src, resolved);
    ExpansionAddsLocal(rules, input.src, resolved);
    LocalTagsBelow(ExpandGeoRules(rules, ROUTE_GEO_KINDS, input.src, resolved).1);
    LocalTagsBelow(resolved);
  }

  lemma LocalTagsBelow(sets: seq<Value>)
    ensures LocalTags(sets) <= TagsOf(sets)
  {
    var local := LocalSets(sets);
    forall tag | tag in LocalTags(sets) ensures tag in TagsOf(sets) {
      var i :| 0 <= i < |local| && GetStr(local[i], Tag) == Some(tag);
      assert local[i] in local;
      var j :| 0 <= j < |sets| && sets[j] == local[i];
    }
  }
}
