/** Which rules the DNS visitor reaches, and which ones stripping the
    address-family fields drops, told from the rules as they come in. */
module DnsStrip {
  import opened JsonValue
  import opened RuleKeys
  import opened RuleSemantics
  import opened DnsMode

  // ---- rules by their place

  /** The rule reached by these indices, one for each level. */
  function NodeAt(rule: Value, path: seq<nat>): Option<Value>
    decreases |path|
  {
    if path == [] then Some(rule)
    else if path[0] < |SubRules(rule)| then NodeAt(SubRules(rule)[path[0]], path[1..])
    else None
  }

  /** The rule there is an object and satisfies `p`. */
  predicate HoldsAt(rule: Value, path: seq<nat>, p: Value -> bool) {
    NodeAt(rule, path).Some? && NodeAt(rule, path).value.Obj? && p(NodeAt(rule, path).value)
  }

  lemma {:induction false} PathOf(rule: Value, p: Value -> bool) returns (path: seq<nat>)
    requires SomeNode(rule, p)
    ensures HoldsAt(rule, path, p)
    decreases rule
  {
    if p(rule) {
      path := [];
    } else {
      var i :| 0 <= i < |SubRules(rule)| && SomeNode(SubRules(rule)[i], p);
      var rest := PathOf(SubRules(rule)[i], p);
      path := [i] + rest;
      assert path[0] == i && path[1..] == rest;
    }
  }

  lemma {:induction false} AtPath(rule: Value, path: seq<nat>, p: Value -> bool)
    requires HoldsAt(rule, path, p)
    ensures SomeNode(rule, p)
    decreases |path|
  {
    if path == [] {
    } else {
      AtPath(SubRules(rule)[path[0]], path[1..], p);
    }
  }

  /** The visitor reaches every rule object at every depth. */
  lemma SomeNodeExactly(rule: Value, p: Value -> bool)
    ensures SomeNode(rule, p) <==> exists path :: HoldsAt(rule, path, p)
  {
    if SomeNode(rule, p) {
      var path := PathOf(rule, p);
    }
    if path :| HoldsAt(rule, path, p) { AtPath(rule, path, p); }
  }

  // ---- dropped rules

  /** The two address-family fields, and the members that are no condition. */
  const WITHOUT_CONDITION: set<Key> := {
    QueryType, IpVersion, Type, Mode, Rules, Invert, MatchResponse, Action, Server, Tag, Strategy, DisableCache,
    DisableOptimisticCache, Timeout, RewriteTtl, ClientSubnet, RemoveClientSubnet, Speculative, Race, Method, NoDrop,
    Rcode, Answer, Ns, Extra, RuleSetIpCidrAcceptEmpty, RuleSetIpCidrMatchSource, RuleSetIpcidrMatchSource}

  lemma WithoutConditionExactly(key: Key)
    ensures key in WITHOUT_CONDITION <==> NonMatchKey(key) || key == QueryType || key == IpVersion
  {}

  /** Some match condition besides the two address-family fields. */
  predicate Conditional(rule: Value) {
    rule.Obj? && exists k :: k in rule.fields && k !in WITHOUT_CONDITION
  }

  /** Nothing but the logical wrapper and the two fields. */
  predicate Bare(rule: Value) {
    rule.Obj? && forall k :: k in rule.fields ==> k in {Type, Mode, Rules, Invert, QueryType, IpVersion}
  }

  /** No nested rule holds anything up, and what the rule has itself is the bare
      wrapper, or no condition where one of the two fields was lost. */
  predicate Hollow(rule: Value)
    decreases rule
  {
    && rule.Obj? && (forall i :: 0 <= i < |SubRules(rule)| ==> Hollow(SubRules(rule)[i]))
    && (Bare(rule) || (FamilyFields(rule) > 0 && !Conditional(rule)))
  }

  lemma StrippedKeys(rule: Value, k: Key)
    requires rule.Obj?
    ensures var r := StripRule(rule).0;
      r.Obj? && (k in r.fields <==> k in rule.fields && k != QueryType && k != IpVersion)
  {}

  lemma StrippedBare(rule: Value)
    requires rule.Obj?
    ensures StripRule(rule).0.Obj? && (OnlyWrapper(StripRule(rule).0.fields) <==> Bare(rule))
  {
    forall k: Key ensures k in StripRule(rule).0.fields <==> k in rule.fields && k != QueryType && k != IpVersion {
      StrippedKeys(rule, k);
    }
  }

  lemma StrippedCondition(rule: Value)
    requires rule.Obj?
    ensures StripRule(rule).0.Obj? && (NoCondition(StripRule(rule).0.fields) <==> !Conditional(rule))
  {
    var r := StripRule(rule).0;
    if k :| k in r.fields && !NonMatchKey(k) {
      StrippedKeys(rule, k);
      WithoutConditionExactly(k);
    }
    if k :| k in rule.fields && k !in WITHOUT_CONDITION {
      StrippedKeys(rule, k);
      WithoutConditionExactly(k);
    }
  }

  /** A rule is dropped if and only if it is hollow. */
  lemma {:induction false} DroppedExactly(rule: Value)
    ensures StripRule(rule).2 <==> Hollow(rule)
    decreases rule, 0
  {
    if rule.Obj? {
      EachDroppedExactly(rule, SubRules(rule));
      StripCounts(rule);
      StrippedBare(rule);
      StrippedCondition(rule);
    }
  }

  lemma {:induction false} EachDroppedExactly(parent: Value, rules: seq<Value>)
    requires AllBelow(rules, parent)
    ensures StripRules(parent, rules).0 == [] <==> forall i :: 0 <= i < |rules| ==> Hollow(rules[i])
    decreases parent, 0, |rules|
  {
    if rules == [] {
    } else {
      DroppedExactly(rules[0]);
      EachDroppedExactly(parent, rules[1..]);
      assert forall i :: 0 <= i < |rules[1..]| ==> rules[1..][i] == rules[i + 1];
    }
  }

  /** A condition anywhere in a rule keeps the rule. */
  lemma {:induction false} ConditionKeepsRule(rule: Value)
    requires SomeNode(rule, Conditional)
    ensures !StripRule(rule).2
    decreases rule
  {
    if !Conditional(rule) {
      var i :| 0 <= i < |SubRules(rule)| && SomeNode(SubRules(rule)[i], Conditional);
      ConditionKeepsRule(SubRules(rule)[i]);
      DroppedExactly(SubRules(rule)[i]);
    }
    DroppedExactly(rule);
  }

  /** The rules that are not hollow, each stripped, in order. */
  function Stripped(rules: seq<Value>): (r: seq<Value>)
    ensures |r| <= |rules|
  {
    if rules == [] then []
    else (if Hollow(rules[0]) then [] else [StripRule(rules[0]).0]) + Stripped(rules[1..])
  }

  lemma {:induction false} StripRulesAre(parent: Value, rules: seq<Value>)
    requires AllBelow(rules, parent)
    ensures StripRules(parent, rules).0 == Stripped(rules)
  {
    if rules == [] {
    } else {
      DroppedExactly(rules[0]);
      StripRulesAre(parent, rules[1..]);
    }
  }

  lemma {:induction false} NoneHollow(rules: seq<Value>)
    ensures |Stripped(rules)| == |rules| <==> forall i :: 0 <= i < |rules| ==> !Hollow(rules[i])
    ensures |Stripped(rules)| == |rules| ==>
      forall i :: 0 <= i < |rules| ==> Stripped(rules)[i] == StripRule(rules[i]).0
  {
    if rules == [] {
    } else {
      NoneHollow(rules[1..]);
      assert forall i :: 0 <= i < |rules[1..]| ==> rules[1..][i] == rules[i + 1];
    }
  }

  /** One rule after the strip: the two fields are gone, nested rules are treated
      alike, and every other member is as it was. */
  predicate StrippedOf(r: Value, rule: Value) {
    if !rule.Obj? then r == rule
    else
      && r.Obj? && r.fields.Keys == rule.fields.Keys - {QueryType, IpVersion}
      && SubRules(r) == Stripped(SubRules(rule))
      && forall k :: k in r.fields && (k != Rules || GetArr(rule, Rules) == None) ==> r.fields[k] == rule.fields[k]
  }

  lemma StripRuleIs(rule: Value)
    ensures StrippedOf(StripRule(rule).0, rule)
  {
    if rule.Obj? {
      StripRulesAre(rule, SubRules(rule));
      StripSubRulesAre(rule);
    }
  }

  /** In legacy mode a block keeps its length exactly when no rule is hollow, and
      then every rule stays in its place, less the two fields. */
  lemma LegacyBlockKept(rules: seq<Value>, isLegacySet: string -> bool)
    requires LegacyMode(rules, isLegacySet) && !SomeRule(rules, ModernFeature)
    ensures var r := Reconcile(rules, isLegacySet);
      && r.Kept? && r.legacy && r.rules == Stripped(rules)
      && (|r.rules| == |rules| <==> forall i :: 0 <= i < |rules| ==> !Hollow(rules[i]))
      && (|r.rules| == |rules| ==> forall i :: 0 <= i < |rules| ==> StrippedOf(r.rules[i], rules[i]))
  {
    StripRulesAre(Arr(rules), rules);
    NoneHollow(rules);
    forall i | 0 <= i < |rules| ensures StrippedOf(StripRule(rules[i]).0, rules[i]) { StripRuleIs(rules[i]); }
  }

  /** In particular, rules that each have a condition somewhere all stay. */
  lemma ConditionalBlockKept(rules: seq<Value>, isLegacySet: string -> bool)
    requires LegacyMode(rules, isLegacySet) && !SomeRule(rules, ModernFeature)
    requires forall i :: 0 <= i < |rules| ==> SomeNode(rules[i], Conditional)
    ensures var r := Reconcile(rules, isLegacySet);
      r.Kept? && |r.rules| == |rules| && forall i :: 0 <= i < |rules| ==> StrippedOf(r.rules[i], rules[i])
  {
    LegacyBlockKept(rules, isLegacySet);
    forall i | 0 <= i < |rules| ensures !Hollow(rules[i]) {
      ConditionKeepsRule(rules[i]);
      DroppedExactly(rules[i]);
    }
  }

  /** A block without a legacy signal is left alone. */
  lemma ModernBlockUntouched(rules: seq<Value>, isLegacySet: string -> bool)
    requires !LegacyMode(rules, isLegacySet)
    ensures Reconcile(rules, isLegacySet) == Kept(rules, false)
  {}
}
