/** What the validation of a route accepts: at every depth, known outbounds,
    defined rule-sets, and a list of rules in every logical rule. */
module RouteValidation {
  import opened JsonValue
  import opened RuleKeys
  import opened RuleSemantics
  import opened RuleRefs
  import opened GeoBuild
  import opened RouteBuild

  /** A tag, or a list of nothing but tags. */
  predicate NamesSets(v: Value) {
    match v
    case Str(_) => true
    case Arr(items) => forall i :: 0 <= i < |items| ==> items[i].Str?
    case _ => false
  }

  /** Some definition has this tag. */
  predicate DefinedIn(tag: string, sets: seq<Value>) {
    exists i :: 0 <= i < |sets| && Get(sets[i], Tag) == Some(Str(tag))
  }

  /** The rule's own reference to rule-sets holds up. */
  predicate OwnSetsDefined(rule: Value, sets: seq<Value>) {
    Has(rule, RuleSet) ==>
      NamesSets(rule.fields[RuleSet]) &&
      forall tag :: tag in RuleSetList(rule.fields[RuleSet]) ==> DefinedIn(tag, sets)
  }

  lemma DefinedExactly(tag: string, sets: seq<Value>)
    ensures tag in TagsOf(sets) <==> DefinedIn(tag, sets)
  {
    if DefinedIn(tag, sets) {
      var i :| 0 <= i < |sets| && Get(sets[i], Tag) == Some(Str(tag));
      assert GetStr(sets[i], Tag) == Some(tag);
    }
  }

  lemma OwnSetsExactly(rule: Value, sets: seq<Value>)
    ensures RuleSetFieldKnown(rule, TagsOf(sets)) <==> OwnSetsDefined(rule, sets)
  {
    forall tag ensures tag in TagsOf(sets) <==> DefinedIn(tag, sets) { DefinedExactly(tag, sets); }
    if Has(rule, RuleSet) && rule.fields[RuleSet].Arr? && NamesSets(rule.fields[RuleSet]) {
      var items := rule.fields[RuleSet].items;
      StrItemsOfStrs(items);
      assert forall i :: 0 <= i < |items| ==> items[i].s == StrItems(items)[i];
      assert forall i :: 0 <= i < |items| ==> StrItems(items)[i] in StrItems(items);
    }
  }

  /** The outbound a rule names, if it names one, is there. */
  predicate OwnOutboundKnown(rule: Value, outs: set<string>) {
    match Get(rule, Outbound)
    case Some(Str(out)) => out == "direct" || out == "block" || out in outs
    case _ => true
  }

  /** The same for the rule and every rule nested in it. */
  predicate OutboundsKnown(rule: Value, outs: set<string>)
    decreases rule
  {
    && OwnOutboundKnown(rule, outs)
    && (IsLogical(rule) ==> forall i :: 0 <= i < |SubRules(rule)| ==> OutboundsKnown(SubRules(rule)[i], outs))
  }

  predicate SetsDefined(rule: Value, sets: seq<Value>)
    decreases rule
  {
    && OwnSetsDefined(rule, sets)
    && (IsLogical(rule) ==> forall i :: 0 <= i < |SubRules(rule)| ==> SetsDefined(SubRules(rule)[i], sets))
  }

  predicate GroupsListed(rule: Value)
    decreases rule
  {
    IsLogical(rule) ==>
      GetArr(rule, RuleKeys.Rules).Some? &&
      forall i :: 0 <= i < |SubRules(rule)| ==> GroupsListed(SubRules(rule)[i])
  }

  predicate Resolves(rule: Value, outs: set<string>, sets: seq<Value>) {
    OutboundsKnown(rule, outs) && SetsDefined(rule, sets) && GroupsListed(rule)
  }

  /** A rule passes if and only if all of that holds. */
  lemma {:induction false} ValidRuleExactly(rule: Value, outs: set<string>, sets: seq<Value>)
    ensures ValidateRule(rule, outs, TagsOf(sets)) == None <==> Resolves(rule, outs, sets)
    decreases rule, 0
  {
    OwnSetsExactly(rule, sets);
    if IsLogical(rule) && GetArr(rule, RuleKeys.Rules).Some? {
      ValidRulesExactly(rule, SubRules(rule), outs, sets);
    }
  }

  lemma {:induction false} ValidRulesExactly(parent: Value, rules: seq<Value>, outs: set<string>, sets: seq<Value>)
    requires forall i :: 0 <= i < |rules| ==> rules[i] < parent
    ensures ValidateRules(parent, rules, outs, TagsOf(sets)) == None <==>
      forall i :: 0 <= i < |rules| ==> Resolves(rules[i], outs, sets)
    decreases parent, 0, |rules|
  {
    if rules == [] {
    } else {
      ValidRuleExactly(rules[0], outs, sets);
      ValidRulesExactly(parent, rules[1..], outs, sets);
      assert forall i :: 0 <= i < |rules[1..]| ==> rules[1..][i] == rules[i + 1];
    }
  }

  /** A route passes if and only if its default is known and every rule passes. */
  lemma ValidRouteExactly(final: string, rules: seq<Value>, sets: seq<Value>, outs: set<string>)
    ensures ValidateRouteRefs(final, rules, sets, outs) == None <==>
      && (final == "direct" || final == "block" || final in outs)
      && forall i :: 0 <= i < |rules| ==> Resolves(rules[i], outs, sets)
  {
    ValidRulesExactly(Arr(rules), rules, outs, sets);
  }

  /** Every logical rule lists some rules. */
  predicate GroupsFilled(rule: Value)
    decreases rule
  {
    IsLogical(rule) ==>
      SubRules(rule) != [] && forall i :: 0 <= i < |SubRules(rule)| ==> GroupsFilled(SubRules(rule)[i])
  }

  /** The builder's filters keep a rule for its references if and only if they are
      defined at every depth and no group is empty. */
  lemma {:induction false} KnownExactly(rule: Value, sets: seq<Value>)
    ensures RuleSetRefsKnown(rule, TagsOf(sets)) <==> SetsDefined(rule, sets) && GroupsFilled(rule)
    decreases rule
  {
    OwnSetsExactly(rule, sets);
    if IsLogical(rule) {
      var rules := SubRules(rule);
      forall i | 0 <= i < |rules|
        ensures RuleSetRefsKnown(rules[i], TagsOf(sets)) <==> SetsDefined(rules[i], sets) && GroupsFilled(rules[i])
      {
        KnownExactly(rules[i], sets);
      }
    }
  }

  lemma {:induction false} FilledAreListed(rule: Value)
    requires GroupsFilled(rule)
    ensures GroupsListed(rule)
    decreases rule
  {
    if IsLogical(rule) {
      forall i | 0 <= i < |SubRules(rule)| ensures GroupsListed(SubRules(rule)[i]) {
        FilledAreListed(SubRules(rule)[i]);
      }
    }
  }

  lemma KnownResolves(rule: Value, sets: seq<Value>)
    requires RuleSetRefsKnown(rule, TagsOf(sets))
    ensures SetsDefined(rule, sets) && GroupsListed(rule)
  {
    KnownExactly(rule, sets);
    FilledAreListed(rule);
  }
}
