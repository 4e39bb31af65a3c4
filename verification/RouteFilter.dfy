/** What the builder's filters let through, told from the members of the rules. */
module RouteFilter {
  import opened JsonValue
  import opened RuleKeys
  import opened RuleSemantics
  import opened RuleRefs
  import opened GeoBuild
  import opened RouteBuild

  // ---- filtering keeps order and multiplicity

  lemma FilterOne(v: Value, p: Value -> bool)
    ensures Filter([v], p) == if p(v) then [v] else []
  {
    assert [v][1..] == [];
  }

  lemma {:induction false} FilterConcat(a: seq<Value>, b: seq<Value>, p: Value -> bool)
    ensures Filter(a + b, p) == Filter(a, p) + Filter(b, p)
  {
    if a == [] {
      assert a + b == b;
    } else {
      FilterConcat(a[1..], b, p);
      assert (a + b)[0] == a[0] && (a + b)[1..] == a[1..] + b;
    }
  }

  lemma {:induction false} SameFilter(rules: seq<Value>, p: Value -> bool, q: Value -> bool)
    requires forall r: Value :: p(r) == q(r)
    ensures Filter(rules, p) == Filter(rules, q)
  {
    if rules == [] {
    } else {
      SameFilter(rules[1..], p, q);
    }
  }

  // ---- subscription rules

  /** Its action is not one of the builder's own, and its `clash_mode`, if it is
      text, is `rule` in any case. */
  predicate Permitted(rule: Value) {
    && Get(rule, Action) != Some(Str("sniff")) && Get(rule, Action) != Some(Str("hijack-dns"))
    && match Get(rule, ClashMode)
       case Some(Str(mode)) => Lower(mode) == "rule"
       case _ => true
  }

  lemma PermittedExactly(rule: Value)
    ensures TakesEffect(rule) <==> Permitted(rule)
  {
    assert Lower("rule") == "rule";
  }

  /** The subscription rules that are neither disabled nor the builder's own. */
  function PermittedRules(input: Input): seq<Value> {
    Filter(NotDisabled(input), Permitted)
  }

  lemma EnabledIsPermitted(input: Input)
    ensures Enabled(input) == PermittedRules(input)
  {
    forall r: Value ensures TakesEffect(r) == Permitted(r) { PermittedExactly(r); }
    SameFilter(NotDisabled(input), TakesEffect, Permitted);
  }

  lemma NotDisabledExactly(input: Input, rule: Value)
    ensures rule in NotDisabled(input) <==> rule in input.subscription && !input.disabled(rule)
  {}

  // ---- custom rules

  /** Its outbound, if it names one, is there, and so is every set it refers to. */
  predicate Usable(rule: Value, outs: set<string>, tags: set<string>) {
    && RuleSetRefsKnown(rule, tags)
    && match Get(rule, Outbound)
       case Some(Str(out)) => out in outs
       case _ => true
  }

  lemma UsableExactly(rule: Value, outs: set<string>, tags: set<string>)
    ensures CustomRuleUsable(rule, outs, tags) <==> Usable(rule, outs, tags)
  {}
}
