/** DNS rules that leave the whole pipeline still refer only to rule-sets the
    configuration defines. */
module DnsClosure {
  import opened JsonValue
  import opened RuleKeys
  import opened RuleSemantics
  import opened GeoBuild
  import opened RouteBuild
  import opened RouteValidation
  import opened ShareRules
  import opened ShareDefinitions
  import opened DnsMode
  import opened FakeIp
  import opened DnsPipeline

  /** Every `rule_set` of the rules, and of those nested in them, is defined. */
  predicate AllDefined(rules: seq<Value>, sets: seq<Value>) {
    forall i :: 0 <= i < |rules| ==> SetsDefined(rules[i], sets)
  }

  /** A rule with the same reference and kind stays defined when its nested
      rules are. */
  lemma SameReference(a: Value, b: Value, sets: seq<Value>)
    requires Get(a, RuleSet) == Get(b, RuleSet) && Get(a, Type) == Get(b, Type)
    requires SetsDefined(a, sets) && (IsLogical(a) ==> AllDefined(SubRules(b), sets))
    ensures SetsDefined(b, sets)
  {}

  lemma {:induction false} RemovedDefined(rule: Value, sets: seq<Value>)
    requires SetsDefined(rule, sets)
    ensures SetsDefined(RemoveStrategy(rule), sets)
    decreases rule
  {
    if rule.Obj? {
      RemovedSubRules(rule);
      RemoveLookup(rule, RuleSet);
      RemoveLookup(rule, Type);
      if IsLogical(rule) {
        forall i | 0 <= i < |SubRules(rule)| ensures SetsDefined(RemoveStrategy(SubRules(rule)[i]), sets) {
          RemovedDefined(SubRules(rule)[i], sets);
        }
      }
      SameReference(rule, RemoveStrategy(rule), sets);
    }
  }

  lemma {:induction false} StrippedDefined(rule: Value, sets: seq<Value>)
    requires SetsDefined(rule, sets)
    ensures SetsDefined(StripRule(rule).0, sets)
    decreases rule, 0
  {
    if rule.Obj? {
      StripSubRulesAre(rule);
      StripLookup(rule, RuleSet);
      StripLookup(rule, Type);
      if IsLogical(rule) { StrippedAllDefined(rule, SubRules(rule), sets); }
      SameReference(rule, StripRule(rule).0, sets);
    }
  }

  lemma {:induction false} StrippedAllDefined(parent: Value, rules: seq<Value>, sets: seq<Value>)
    requires AllBelow(rules, parent) && AllDefined(rules, sets)
    ensures AllDefined(StripRules(parent, rules).0, sets)
    decreases parent, 0, |rules|
  {
    if rules == [] {
    } else {
      StrippedDefined(rules[0], sets);
      StrippedAllDefined(parent, rules[1..], sets);
    }
  }

  lemma {:induction false} NarrowedDefined(rules: seq<Value>, v4Only: set<string>, sets: seq<Value>)
    requires AllDefined(rules, sets)
    ensures AllDefined(NarrowAll(rules, v4Only), sets)
  {
    if rules == [] {
    } else {
      NarrowedDefined(rules[1..], v4Only, sets);
      var n := NarrowRule(rules[0], v4Only);
      if n.Some? && n.value != rules[0] {
        assert Get(n.value, Rules) == Get(rules[0], Rules);
        assert SubRules(n.value) == SubRules(rules[0]);
        SameReference(rules[0], n.value, sets);
      }
    }
  }

  lemma PreparedDefined(servers: seq<Value>, rules: seq<Value>, ipv6: bool, isLegacySet: string -> bool,
      excluded: string -> bool, sets: seq<Value>)
    requires AllDefined(rules, sets)
    ensures var r := PrepareDns(servers, rules, ipv6, isLegacySet, excluded); r.Kept? ==> AllDefined(r.rules, sets)
  {
    var plain := RemoveStrategies(Arr(rules), rules);
    forall i | 0 <= i < |rules| ensures SetsDefined(plain[i], sets) { RemovedDefined(rules[i], sets); }
    StrippedAllDefined(Arr(plain), plain, sets);
    NarrowedDefined(plain, V4OnlyTags(servers, excluded), sets);
  }

  /** From the profile's DNS rules to the emitted ones: what is kept refers only
      to defined rule-sets, and the block stays on one side of the mode split. */
  lemma EmittedDnsIsSound(input: Input, servers: seq<Value>, ipv6: bool, isLegacySet: string -> bool,
      excluded: string -> bool)
    ensures var route := BuildRoute(input);
      var r := PrepareDns(servers, route.dns, ipv6, isLegacySet, excluded);
      r.Kept? ==> AllDefined(r.rules, route.sets) && ModeConsistent(r.rules, isLegacySet)
  {
    var route := BuildRoute(input);
    EmittedDnsKnown(input);
    forall i | 0 <= i < |route.dns| ensures SetsDefined(route.dns[i], route.sets) {
      KnownResolves(route.dns[i], route.sets);
    }
    PreparedDefined(servers, route.dns, ipv6, isLegacySet, excluded, route.sets);
    PipelineConsistent(servers, route.dns, ipv6, isLegacySet, excluded);
  }

  lemma EmittedDnsKnown(input: Input)
    ensures AllKnown(BuildRoute(input).dns, BuildRoute(input).sets)
  {
    var subSets := LocalSets(ExpandGeoipRules(Enabled(input), input.ruleSets, input.src).1);
    var allSets := LocalSets(ExpandGeoipRules(UsableCustom(input, subSets), subSets, input.src).1);
    var (dns0, sets) := DnsGeosite(input.dnsRules, input.src, allSets);
    FilterKnown(dns0, sets);
    assert BuildRoute(input).dns == KnownRules(dns0, sets) && BuildRoute(input).sets == sets;
  }

  /** The same for a shared document, whose DNS rules come after the route rules,
      lose `strategy` and are settled into a mode, but not narrowed. */
  lemma SharedDnsIsSound(rules: seq<Value>, dnsRules: seq<Value>, outs: set<string>, t: Tables,
      isLegacySet: string -> bool)
    requires Closed(t)
    ensures var t1 := ExpandList(rules, outs, t).1;
      var (dns, t2) := ExpandList(dnsRules, outs, t1);
      var r := Reconcile(RemoveStrategies(Arr(dns), dns), isLegacySet);
      r.Kept? ==> AllDefined(r.rules, t2.sets) && ModeConsistent(r.rules, isLegacySet)
  {
    var t1 := ExpandList(rules, outs, t).1;
    var (dns, t2) := ExpandList(dnsRules, outs, t1);
    SharedRulesResolve(rules, outs, t);
    SharedRulesResolve(dnsRules, outs, t1);
    PreparedDefined([], dns, false, isLegacySet, range => false, t2.sets);
    PipelineConsistent([], dns, false, isLegacySet, range => false);
  }
}
