/** Which rule-set tags a rule refers to, and whether they are all defined. */
module RuleRefs {
  import opened JsonValue
  import opened RuleKeys
  import opened RuleSemantics

  predicate RuleSetFieldKnown(rule: Value, tags: set<string>) {
    match Get(rule, RuleSet)
    case None => true
    case Some(Str(tag)) => tag in tags
    case Some(Arr(items)) => forall i :: 0 <= i < |items| ==> items[i].Str? && items[i].s in tags
    case Some(_) => false
  }

  predicate RuleSetRefsKnown(rule: Value, tags: set<string>)
    decreases rule
  {
    RuleSetFieldKnown(rule, tags) &&
    (IsLogical(rule) ==>
      GetArr(rule, Rules).Some? && SubRules(rule) != [] &&
      forall i :: 0 <= i < |SubRules(rule)| ==> RuleSetRefsKnown(SubRules(rule)[i], tags))
  }

  lemma {:induction false} RefsKnownMonotone(rule: Value, tags: set<string>, more: set<string>)
    requires RuleSetRefsKnown(rule, tags) && tags <= more
    ensures RuleSetRefsKnown(rule, more)
    decreases rule
  {
    if IsLogical(rule) {
      forall i | 0 <= i < |SubRules(rule)| ensures RuleSetRefsKnown(SubRules(rule)[i], more) {
        RefsKnownMonotone(SubRules(rule)[i], tags, more);
      }
    }
  }
}
