/** The DNS steps of a build in order: drop `strategy`, settle the mode, then
    narrow fake-ip rules. */
module DnsPipeline {
  import opened JsonValue
  import opened RuleKeys
  import opened RuleSemantics
  import opened DnsMode
  import opened DnsStrip
  import opened FakeIp

  function PrepareDns(servers: seq<Value>, rules: seq<Value>, ipv6: bool, isLegacySet: string -> bool,
      excluded: string -> bool): Reconciled
  {
    var r := Reconcile(RemoveStrategies(Arr(rules), rules), isLegacySet);
    if r.Kept? && ipv6 && !r.legacy then Kept(StripFakeIpAaaa(servers, r.rules, excluded), false) else r
  }

  /** `strategy` goes from every rule object, at every depth. */
  method RemoveDnsRuleStrategy(parent: Value, rules: seq<Value>) returns (r: seq<Value>)
    requires AllBelow(rules, parent)
    ensures r == RemoveStrategies(parent, rules)
    decreases parent
  {
    r := rules;
    for i := 0 to |rules|
      invariant |r| == |rules|
      invariant forall j :: 0 <= j < |rules| ==> r[j] == if j < i then RemoveStrategy(rules[j]) else rules[j]
    {
      var rule := rules[i];
      if rule.Obj? {
        var m := rule.fields - {Strategy};
        if GetArr(rule, Rules).Some? {
          var subs := RemoveDnsRuleStrategy(rule, SubRules(rule));
          m := m[Rules := Arr(subs)];
        }
        r := r[i := Obj(m)];
      }
    }
  }

  /** The three steps on a block, as a build runs them. */
  method PrepareDnsRules(servers: seq<Value>, rules: seq<Value>, ipv6: bool, isLegacySet: string -> bool,
      excluded: string -> bool)
    returns (r: Reconciled)
    ensures r == PrepareDns(servers, rules, ipv6, isLegacySet, excluded)
  {
    var plain := RemoveDnsRuleStrategy(Arr(rules), rules);
    r := ReconcileLegacyDnsRules(plain, isLegacySet);
    if r.Kept? && ipv6 && !r.legacy {
      var kept := StripFakeIp(servers, r.rules, excluded);
      r := Kept(kept, false);
    }
  }

  // ---- removing `strategy`

  predicate HasStrategy(rule: Value) {
    Has(rule, Strategy)
  }

  lemma RemoveLookup(rule: Value, k: Key)
    requires rule.Obj?
    ensures Get(RemoveStrategy(rule), k) == (
      if k == Strategy then None
      else if k == Rules && GetArr(rule, Rules).Some? then Some(Arr(RemoveStrategies(rule, SubRules(rule))))
      else Get(rule, k))
  {}

  lemma RemovedSubRules(rule: Value)
    requires rule.Obj?
    ensures SubRules(RemoveStrategy(rule)) == RemoveStrategies(rule, SubRules(rule))
  {
    RemoveLookup(rule, Rules);
  }

  /** No rule at any depth keeps `strategy`, and no other signal changes. */
  lemma {:induction false} RemoveStrategySignals(rule: Value, p: Value -> bool)
    requires Ignores(p, {Strategy, Rules})
    ensures SomeNode(RemoveStrategy(rule), p) == SomeNode(rule, p)
    decreases rule
  {
    if rule.Obj? {
      var r := RemoveStrategy(rule);
      RemovedSubRules(rule);
      forall k | k !in {Strategy, Rules} ensures Get(r, k) == Get(rule, k) { RemoveLookup(rule, k); }
      assert AgreeExcept(r, rule, {Strategy, Rules});
      forall i | 0 <= i < |SubRules(rule)| ensures SomeNode(SubRules(r)[i], p) == SomeNode(SubRules(rule)[i], p) {
        RemoveStrategySignals(SubRules(rule)[i], p);
      }
    }
  }

  lemma {:induction false} NoStrategyLeft(rule: Value)
    ensures !SomeNode(RemoveStrategy(rule), HasStrategy)
    decreases rule
  {
    if rule.Obj? {
      RemovedSubRules(rule);
      RemoveLookup(rule, Strategy);
      forall i | 0 <= i < |SubRules(rule)| ensures !SomeNode(RemoveStrategy(SubRules(rule)[i]), HasStrategy) {
        NoStrategyLeft(SubRules(rule)[i]);
      }
    }
  }

  lemma BlockSignals(rules: seq<Value>, p: Value -> bool)
    requires Ignores(p, {Strategy, Rules})
    ensures SomeRule(RemoveStrategies(Arr(rules), rules), p) == SomeRule(rules, p)
  {
    forall i | 0 <= i < |rules| ensures SomeNode(RemoveStrategies(Arr(rules), rules)[i], p) == SomeNode(rules[i], p) {
      RemoveStrategySignals(rules[i], p);
    }
  }

  // ---- which members the signals read

  lemma SameMatchResponse(a: Value, b: Value)
    requires Get(a, MatchResponse) == Get(b, MatchResponse)
    ensures MatchResponseEnabled(a) == MatchResponseEnabled(b)
  {}

  lemma FilterIgnores()
    ensures Ignores(AddressFilter, UNREAD)
  {
    forall a: Value, b: Value | AgreeExcept(a, b, UNREAD) ensures AddressFilter(a) == AddressFilter(b) {
      SameMatchResponse(a, b);
      assert Get(a, IpCidr) == Get(b, IpCidr) && Get(a, IpIsPrivate) == Get(b, IpIsPrivate);
      assert Get(a, IpAcceptAny) == Get(b, IpAcceptAny) &&
        Get(a, RuleSetIpCidrAcceptEmpty) == Get(b, RuleSetIpCidrAcceptEmpty);
    }
  }

  lemma SetRefIgnores(isLegacySet: string -> bool)
    ensures Ignores(SetRefTest(isLegacySet), UNREAD)
  {
    forall a: Value, b: Value | AgreeExcept(a, b, UNREAD)
      ensures LegacySetRef(a, isLegacySet) == LegacySetRef(b, isLegacySet)
    {
      SameMatchResponse(a, b);
      assert Get(a, RuleSet) == Get(b, RuleSet);
    }
  }

  // ---- when a build is refused

  lemma {:induction false} WithoutStrategyField(rule: Value)
    requires SomeNode(rule, LegacyField) && !SomeNode(rule, HasStrategy)
    ensures SomeNode(rule, AddressFilter)
    decreases rule
  {
    if !AddressFilter(rule) {
      assert !Has(rule, Strategy);
      var i :| 0 <= i < |SubRules(rule)| && SomeNode(SubRules(rule)[i], LegacyField);
      WithoutStrategyField(SubRules(rule)[i]);
    }
  }

  lemma {:induction false} FilterIsLegacy(rule: Value)
    requires SomeNode(rule, AddressFilter)
    ensures SomeNode(rule, LegacyField)
    decreases rule
  {
    if !AddressFilter(rule) {
      var i :| 0 <= i < |SubRules(rule)| && SomeNode(SubRules(rule)[i], AddressFilter);
      FilterIsLegacy(SubRules(rule)[i]);
    }
  }

  /** Once `strategy` is gone, only address filters put a block in legacy mode
      by their own fields. */
  lemma LegacyAfterRemoval(rules: seq<Value>)
    ensures SomeRule(RemoveStrategies(Arr(rules), rules), LegacyField) == SomeRule(rules, AddressFilter)
  {
    var plain := RemoveStrategies(Arr(rules), rules);
    FilterIgnores();
    IgnoresFewer(AddressFilter, UNREAD, {Strategy, Rules});
    BlockSignals(rules, AddressFilter);
    if i :| 0 <= i < |plain| && SomeNode(plain[i], LegacyField) {
      NoStrategyLeft(rules[i]);
      WithoutStrategyField(plain[i]);
    }
    if i :| 0 <= i < |plain| && SomeNode(plain[i], AddressFilter) {
      FilterIsLegacy(plain[i]);
    }
  }

  // ---- the signals, told from members

  /** The rule looks at a response: `match_response` is true or a tag. */
  predicate Responds(rule: Value) {
    Get(rule, MatchResponse) == Some(Bool(true)) ||
    (GetStr(rule, MatchResponse).Some? && |GetStr(rule, MatchResponse).value| > 0)
  }

  /** A legacy address filter, which a rule on responses does not have. */
  predicate FiltersAddresses(rule: Value) {
    || Has(rule, RuleSetIpCidrAcceptEmpty)
    || (!Responds(rule) && Has(rule, IpCidr))
    || (!Responds(rule) && (Get(rule, IpIsPrivate) == Some(Bool(true)) || Get(rule, IpAcceptAny) == Some(Bool(true))))
  }

  /** A reference to a set of addresses, outside of rules on responses. */
  predicate RefersToAddresses(rule: Value, isLegacySet: string -> bool) {
    !Responds(rule) && Has(rule, RuleSet) && exists tag :: tag in RuleSetList(rule.fields[RuleSet]) && isLegacySet(tag)
  }

  function RefersTest(isLegacySet: string -> bool): Value -> bool {
    r => RefersToAddresses(r, isLegacySet)
  }

  /** A switch that is on: true, 1, or text for either. */
  predicate On(rule: Value, key: Key) {
    || Get(rule, key) == Some(Bool(true)) || Get(rule, key) == Some(Num(1)) || Get(rule, key) == Some(Str("1"))
    || (GetStr(rule, key).Some? && Lower(GetStr(rule, key).value) == "true")
  }

  predicate NeedsModern(rule: Value) {
    || Responds(rule) || On(rule, Race) || On(rule, Speculative) || On(rule, DisableOptimisticCache)
    || Get(rule, Action) == Some(Str("evaluate")) || Get(rule, Action) == Some(Str("respond"))
    || (exists k :: k in {ResponseRcode, ResponseAnswer, ResponseNs, ResponseExtra} && Has(rule, k))
  }

  lemma OptionExactly(rule: Value)
    ensures ModernOption(rule) <==> On(rule, Race) || On(rule, Speculative) || On(rule, DisableOptimisticCache)
  {}

  lemma SignalsExactly(rule: Value, isLegacySet: string -> bool)
    ensures AddressFilter(rule) <==> FiltersAddresses(rule)
    ensures LegacySetRef(rule, isLegacySet) <==> RefersToAddresses(rule, isLegacySet)
    ensures ModernFeature(rule) <==> NeedsModern(rule)
  {
    OptionExactly(rule);
    assert MatchResponseEnabled(rule) <==> Responds(rule);
    if Has(rule, RuleSet) {
      var tags := RuleSetList(rule.fields[RuleSet]);
      assert forall i :: 0 <= i < |tags| ==> tags[i] in tags;
    }
  }

  lemma {:induction false} SameSignal(rule: Value, p: Value -> bool, q: Value -> bool)
    requires forall r: Value :: p(r) == q(r)
    ensures SomeNode(rule, p) == SomeNode(rule, q)
    decreases rule
  {
    if rule.Obj? {
      forall i | 0 <= i < |SubRules(rule)| ensures SomeNode(SubRules(rule)[i], p) == SomeNode(SubRules(rule)[i], q) {
        SameSignal(SubRules(rule)[i], p, q);
      }
    }
  }

  lemma SameSignals(rules: seq<Value>, p: Value -> bool, q: Value -> bool)
    requires forall r: Value :: p(r) == q(r)
    ensures SomeRule(rules, p) == SomeRule(rules, q)
  {
    forall i | 0 <= i < |rules| ensures SomeNode(rules[i], p) == SomeNode(rules[i], q) { SameSignal(rules[i], p, q); }
  }

  lemma BlockSignalsExactly(rules: seq<Value>, isLegacySet: string -> bool)
    ensures SomeRule(rules, AddressFilter) == SomeRule(rules, FiltersAddresses)
    ensures SomeRule(rules, SetRefTest(isLegacySet)) == SomeRule(rules, RefersTest(isLegacySet))
    ensures SomeRule(rules, ModernFeature) == SomeRule(rules, NeedsModern)
  {
    forall r: Value
      ensures AddressFilter(r) == FiltersAddresses(r)
      ensures LegacySetRef(r, isLegacySet) == RefersToAddresses(r, isLegacySet) && ModernFeature(r) == NeedsModern(r)
    {
      SignalsExactly(r, isLegacySet);
    }
    SameSignals(rules, AddressFilter, FiltersAddresses);
    SameSignals(rules, SetRefTest(isLegacySet), RefersTest(isLegacySet));
    SameSignals(rules, ModernFeature, NeedsModern);
  }

  /** The profile's rules put the block in legacy mode; `strategy` never does. */
  predicate LegacyProfile(rules: seq<Value>, isLegacySet: string -> bool) {
    SomeRule(rules, FiltersAddresses) || SomeRule(rules, RefersTest(isLegacySet))
  }

  lemma LegacyProfileExactly(rules: seq<Value>, isLegacySet: string -> bool)
    ensures var plain := RemoveStrategies(Arr(rules), rules);
      LegacyMode(plain, isLegacySet) == LegacyProfile(rules, isLegacySet) &&
      SomeRule(plain, ModernFeature) == SomeRule(rules, NeedsModern)
  {
    LegacyAfterRemoval(rules);
    SetRefIgnores(isLegacySet);
    ModernIgnores();
    IgnoresFewer(SetRefTest(isLegacySet), UNREAD, {Strategy, Rules});
    IgnoresFewer(ModernFeature, UNREAD, {Strategy, Rules});
    BlockSignals(rules, SetRefTest(isLegacySet));
    BlockSignals(rules, ModernFeature);
    BlockSignalsExactly(rules, isLegacySet);
  }

  /** The build is refused exactly when the profile mixes an address filter or
      an IP-only rule-set with a modern feature; `strategy` never matters. */
  lemma RejectedExactly(servers: seq<Value>, rules: seq<Value>, ipv6: bool, isLegacySet: string -> bool,
      excluded: string -> bool)
    ensures PrepareDns(servers, rules, ipv6, isLegacySet, excluded).Rejected? <==>
      LegacyProfile(rules, isLegacySet) && SomeRule(rules, NeedsModern)
  {
    LegacyProfileExactly(rules, isLegacySet);
  }

  /** What is built from a profile's rules, told from their own signals: refused,
      stripped, or left as they are but for `strategy` and, where IPv6 is on, the
      AAAA queries of fake-ip rules. */
  lemma PreparedExactly(servers: seq<Value>, rules: seq<Value>, ipv6: bool, isLegacySet: string -> bool,
      excluded: string -> bool)
    ensures var plain := RemoveStrategies(Arr(rules), rules);
      PrepareDns(servers, rules, ipv6, isLegacySet, excluded) ==
        if LegacyProfile(rules, isLegacySet) then
          (if SomeRule(rules, NeedsModern) then Rejected else Kept(Stripped(plain), true))
        else Kept(if ipv6 then NarrowAll(plain, V4OnlyTags(servers, excluded)) else plain, false)
  {
    var plain := RemoveStrategies(Arr(rules), rules);
    LegacyProfileExactly(rules, isLegacySet);
    StripRulesAre(Arr(plain), plain);
  }

  lemma TypedSignals(rule: Value, v: Value, p: Value -> bool)
    requires rule.Obj? && Ignores(p, {QueryType})
    ensures SomeNode(Obj(rule.fields[QueryType := v]), p) == SomeNode(rule, p)
  {
    var n := Obj(rule.fields[QueryType := v]);
    assert forall k :: k != QueryType ==> Get(n, k) == Get(rule, k);
    assert AgreeExcept(n, rule, {QueryType});
    assert Get(n, Rules) == Get(rule, Rules) && SubRules(n) == SubRules(rule);
  }

  /** Narrowing a fake-ip rule changes no signal. */
  lemma NarrowSignals(rule: Value, tags: set<string>, p: Value -> bool)
    requires Ignores(p, {QueryType}) && NarrowRule(rule, tags).Some?
    ensures SomeNode(NarrowRule(rule, tags).value, p) == SomeNode(rule, p)
  {
    var n := NarrowRule(rule, tags).value;
    if n != rule { TypedSignals(rule, n.fields[QueryType], p); }
  }

  lemma {:induction false} NarrowAllSignals(rules: seq<Value>, tags: set<string>, p: Value -> bool)
    requires Ignores(p, {QueryType}) && SomeRule(NarrowAll(rules, tags), p)
    ensures SomeRule(rules, p)
  {
    var all := NarrowAll(rules, tags);
    var i :| 0 <= i < |all| && SomeNode(all[i], p);
    if rules == [] {
    } else {
      var n, rest := NarrowRule(rules[0], tags), NarrowAll(rules[1..], tags);
      if n.Some? && i == 0 {
        NarrowSignals(rules[0], tags, p);
        assert SomeNode(rules[0], p);
      } else {
        assert rest[if n.Some? then i - 1 else i] == all[i];
        NarrowAllSignals(rules[1..], tags, p);
        var j :| 0 <= j < |rules[1..]| && SomeNode(rules[1..][j], p);
        assert rules[j + 1] == rules[1..][j];
      }
    }
  }

  /** Whatever comes out of the pipeline is on one side of the split. */
  lemma PipelineConsistent(servers: seq<Value>, rules: seq<Value>, ipv6: bool, isLegacySet: string -> bool,
      excluded: string -> bool)
    ensures var r := PrepareDns(servers, rules, ipv6, isLegacySet, excluded);
      r.Kept? ==> ModeConsistent(r.rules, isLegacySet)
  {
    var plain := RemoveStrategies(Arr(rules), rules);
    ReconcileConsistent(plain, isLegacySet);
    var r := Reconcile(plain, isLegacySet);
    if r.Kept? && ipv6 && !r.legacy {
      NarrowedStaysModern(plain, V4OnlyTags(servers, excluded), isLegacySet);
    }
  }

  lemma NarrowedStaysModern(rules: seq<Value>, tags: set<string>, isLegacySet: string -> bool)
    requires !LegacyMode(rules, isLegacySet)
    ensures !LegacyMode(NarrowAll(rules, tags), isLegacySet)
  {
    var narrowed := NarrowAll(rules, tags);
    SetRefIgnores(isLegacySet);
    IgnoresFewer(SetRefTest(isLegacySet), UNREAD, {QueryType});
    if SomeRule(narrowed, SetRefTest(isLegacySet)) {
      NarrowAllSignals(rules, tags, SetRefTest(isLegacySet));
    }
    LegacyFieldIgnoresType();
    if SomeRule(narrowed, LegacyField) {
      NarrowAllSignals(rules, tags, LegacyField);
    }
  }

  lemma LegacyFieldIgnoresType()
    ensures Ignores(LegacyField, {QueryType})
  {
    FilterIgnores();
    IgnoresFewer(AddressFilter, UNREAD, {QueryType});
    forall a: Value, b: Value | AgreeExcept(a, b, {QueryType}) ensures LegacyField(a) == LegacyField(b) {
      assert Get(a, Strategy) == Get(b, Strategy);
    }
  }
}
