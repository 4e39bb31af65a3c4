/** Which rules are certain to be shared whole: a condition on the rule and the
    tags defined before it, met exactly when nothing below it is lost. */
module SharePortable {
  import opened JsonValue
  import opened RuleKeys
  import opened RuleSemantics
  import opened RuleRefs
  import opened FirstMatch
  import opened RouteValidation
  import opened ShareRules
  import opened GeoListProofs
  import opened ShareMeaning
  import opened ShareNormalForm

  function OwnTags(kind: GeoKind, rule: Value): set<string> {
    if Has(rule, KindKey(kind)) then ListTags(kind, GeoCodes(rule.fields[KindKey(kind)])) else {}
  }

  /** The rule-set tags the geo lists of a rule define. */
  function GeoTags(rule: Value): set<string>
    decreases rule, 0
  {
    if IsLogical(rule) then EachTags(rule, SubRules(rule)) else OwnTags(GeoIp, rule) + OwnTags(GeoSite, rule)
  }

  function EachTags(parent: Value, rules: seq<Value>): set<string>
    requires forall i :: 0 <= i < |rules| ==> rules[i] < parent
    decreases parent, 0, |rules|
  {
    if rules == [] then {} else GeoTags(rules[0]) + EachTags(parent, rules[1..])
  }

  /** A rule the share path turns away at once. */
  predicate TurnedAway(rule: Value, outs: set<string>) {
    !rule.Obj? || Has(rule, Inbound) || !OwnOutboundKnown(rule, outs)
  }

  /** Some condition besides the geo lists. */
  predicate OtherMatcher(rule: Value) {
    rule.Obj? && exists k :: k in rule.fields && k != Geoip && k != Geosite && !MetaKey(k)
  }

  lemma ConditionLeftExactly(rule: Value)
    requires rule.Obj?
    ensures ConditionLeft(rule) <==> OtherMatcher(rule) || GeoEmits(rule)
  {
    var base := rule.fields - {Geoip, Geosite};
    assert forall k :: k in base <==> k in rule.fields && k != Geoip && k != Geosite;
    assert IsLogical(Obj(base)) ==> Type in base && !MetaKey(Type);
  }

  /** Its outbound exists, the sets it names are defined by then, some condition
      is left, and the same holds of every rule nested in it. */
  predicate Portable(rule: Value, outs: set<string>, tags: set<string>)
    decreases rule, 0
  {
    && !TurnedAway(rule, outs)
    && (if IsLogical(rule) then
          && GetArr(rule, Rules).Some? && (IsOr(rule) ==> SubRules(rule) != [])
          && PortableEach(rule, SubRules(rule), outs, tags)
        else
          RuleSetFieldKnown(rule, tags) && (NoGeo(rule) || OtherMatcher(rule) || GeoEmits(rule)))
  }

  /** Sets a rule defines are there for the rules after it. */
  predicate PortableEach(parent: Value, rules: seq<Value>, outs: set<string>, tags: set<string>)
    requires forall i :: 0 <= i < |rules| ==> rules[i] < parent
    decreases parent, 0, |rules|
  {
    rules != [] ==>
      && Portable(rules[0], outs, tags)
      && PortableEach(parent, rules[1..], outs, tags + GeoTags(rules[0]))
  }

  lemma {:induction false} PortableMonotone(rule: Value, outs: set<string>, tags: set<string>, more: set<string>)
    requires Portable(rule, outs, tags) && tags <= more
    ensures Portable(rule, outs, more)
    decreases rule, 0
  {
    if IsLogical(rule) {
      PortableEachMonotone(rule, SubRules(rule), outs, tags, more);
    }
  }

  lemma {:induction false} PortableEachMonotone(
    parent: Value, rules: seq<Value>, outs: set<string>, tags: set<string>, more: set<string>)
    requires forall i :: 0 <= i < |rules| ==> rules[i] < parent
    requires PortableEach(parent, rules, outs, tags) && tags <= more
    ensures PortableEach(parent, rules, outs, more)
    decreases parent, 0, |rules|
  {
    if rules == [] {
    } else {
      PortableMonotone(rules[0], outs, tags, more);
      PortableEachMonotone(parent, rules[1..], outs, tags + GeoTags(rules[0]), more + GeoTags(rules[0]));
    }
  }

  lemma OwnTagsPushed(kind: GeoKind, rule: Value, t: Tables)
    ensures GeoAtoms(kind, rule, t).1.tags == t.tags + OwnTags(kind, rule)
  {
    if Has(rule, KindKey(kind)) {
      PushedTags(kind, GeoCodes(rule.fields[KindKey(kind)]), [], t);
    }
  }

  lemma LeafExact(rule: Value, outs: set<string>, t: Tables)
    requires !TurnedAway(rule, outs) && !IsLogical(rule)
    ensures Portable(rule, outs, t.tags) <==> RewriteGeoShareRule(rule, t).0 != []
    ensures Portable(rule, outs, t.tags) ==> RewriteGeoShareRule(rule, t).1.tags == t.tags + GeoTags(rule)
  {
    var (out, t') := RewriteGeoShareRule(rule, t);
    RewriteStable(rule, outs, t, t');
    ConditionLeftExactly(rule);
    if NoGeo(rule) {
      PlainRuleStable(rule, outs, t, t);
    } else {
      GeoLeafExact(rule, t);
    }
  }

  lemma GeoLeafExact(rule: Value, t: Tables)
    requires rule.Obj? && !IsLogical(rule) && !NoGeo(rule)
    ensures var (out, t') := RewriteGeoShareRule(rule, t);
      && (out != [] ==> RuleSetFieldKnown(rule, t.tags) && ConditionLeft(rule))
      && (RuleSetFieldKnown(rule, t.tags) ==> t'.tags == t.tags + OwnTags(GeoIp, rule) + OwnTags(GeoSite, rule))
  {
    var base := rule.fields - {Geoip, Geosite};
    var t1 := GeoAtoms(GeoIp, rule, t).1;
    BaseShape(rule, base);
    GeoAtomsTables(GeoIp, rule, t);
    GeoAtomsTables(GeoSite, rule, t1);
    OwnTagsPushed(GeoIp, rule, t);
    OwnTagsPushed(GeoSite, rule, t1);
  }

  /** Nothing of a rule is lost, if and only if it is portable. */
  lemma {:induction false} PortableExact(rule: Value, outs: set<string>, t: Tables)
    ensures Portable(rule, outs, t.tags) <==> ExpandShareRules(rule, outs, t).0 != [] && AlternativesKept(rule, outs, t)
    ensures Portable(rule, outs, t.tags) ==> ExpandShareRules(rule, outs, t).1.tags == t.tags + GeoTags(rule)
    decreases rule, 0
  {
    if TurnedAway(rule, outs) {
    } else if !IsLogical(rule) {
      LeafExact(rule, outs, t);
    } else if GetArr(rule, Rules).Some? {
      var rules := SubRules(rule);
      PortableEachExact(rule, rules, outs, t);
      var expanded := ExpandChildren(rule, rules, outs, t).0;
      if rules != [] && PortableEach(rule, rules, outs, t.tags) {
        assert expanded[0] != [] && Flatten(expanded) == expanded[0] + Flatten(expanded[1..]);
      }
    }
  }

  lemma {:induction false} PortableEachExact(parent: Value, rules: seq<Value>, outs: set<string>, t: Tables)
    requires forall i :: 0 <= i < |rules| ==> rules[i] < parent
    ensures PortableEach(parent, rules, outs, t.tags) <==> ChildrenKept(parent, rules, outs, t)
    ensures var (expanded, t') := ExpandChildren(parent, rules, outs, t);
      PortableEach(parent, rules, outs, t.tags) ==>
        t'.tags == t.tags + EachTags(parent, rules) && forall i :: 0 <= i < |rules| ==> expanded[i] != []
    decreases parent, 0, |rules|
  {
    if rules == [] {
    } else {
      var t1 := ExpandShareRules(rules[0], outs, t).1;
      PortableExact(rules[0], outs, t);
      PortableEachExact(parent, rules[1..], outs, t1);
    }
  }

  /** Whatever was shared before: more tags never hurt. */
  lemma PortableIsShared(rule: Value, outs: set<string>, tags: set<string>, t: Tables)
    requires Portable(rule, outs, tags) && tags <= t.tags
    ensures |ExpandShareRules(rule, outs, t).0| == 1 && AlternativesKept(rule, outs, t)
  {
    PortableMonotone(rule, outs, tags, t.tags);
    PortableExact(rule, outs, t);
  }

  /** A portable, faithful rule is shared as exactly one rule that matches the
      same flows with the same action. */
  lemma PortableMeaning(rule: Value, outs: set<string>, t: Tables, f: Flow)
    requires Portable(rule, outs, t.tags) && Faithful(rule)
    ensures var out := ExpandShareRules(rule, outs, t).0;
      |out| == 1 && Matches(out[0], f) == Matches(rule, f) && RuleAction(out[0]) == RuleAction(rule)
  {
    PortableIsShared(rule, outs, t.tags, t);
    ExpandMeaning(rule, outs, t, f);
  }

  // ---- tables stay between bounds

  lemma LeafTags(rule: Value, t: Tables)
    requires rule.Obj?
    ensures t.tags <= RewriteGeoShareRule(rule, t).1.tags <= t.tags + OwnTags(GeoIp, rule) + OwnTags(GeoSite, rule)
  {
    var t1 := GeoAtoms(GeoIp, rule, t).1;
    OwnTagsPushed(GeoIp, rule, t);
    OwnTagsPushed(GeoSite, rule, t1);
  }

  /** Sharing a rule defines tags of its own geo lists only. */
  lemma {:induction false} TagsBounded(rule: Value, outs: set<string>, t: Tables)
    ensures t.tags <= ExpandShareRules(rule, outs, t).1.tags <= t.tags + GeoTags(rule)
    decreases rule, 0
  {
    if TurnedAway(rule, outs) {
    } else if IsLogical(rule) {
      EachTagsBounded(rule, SubRules(rule), outs, t);
    } else {
      LeafTags(rule, t);
    }
  }

  lemma {:induction false} EachTagsBounded(parent: Value, rules: seq<Value>, outs: set<string>, t: Tables)
    requires forall i :: 0 <= i < |rules| ==> rules[i] < parent
    ensures t.tags <= ExpandChildren(parent, rules, outs, t).1.tags <= t.tags + EachTags(parent, rules)
    decreases parent, 0, |rules|
  {
    if rules == [] {
    } else {
      TagsBounded(rules[0], outs, t);
      EachTagsBounded(parent, rules[1..], outs, ExpandShareRules(rules[0], outs, t).1);
    }
  }

  // ---- dropped for sure, shared for sure

  /** Not shared, even with every tag of `high` defined. */
  predicate Vanishes(rule: Value, outs: set<string>, high: set<string>)
    decreases rule
  {
    || TurnedAway(rule, outs)
    || (if !IsLogical(rule) then !Portable(rule, outs, high)
        else if GetArr(rule, Rules).None? then true
        else if IsOr(rule) then forall i :: 0 <= i < |SubRules(rule)| ==> Vanishes(SubRules(rule)[i], outs, high)
        else exists i :: 0 <= i < |SubRules(rule)| && Vanishes(SubRules(rule)[i], outs, high))
  }

  /** Shared, if not whole, with the tags of `low` alone. */
  predicate Survives(rule: Value, outs: set<string>, low: set<string>)
    decreases rule
  {
    && !TurnedAway(rule, outs)
    && (if !IsLogical(rule) then Portable(rule, outs, low)
        else if GetArr(rule, Rules).None? then false
        else if IsOr(rule) then exists i :: 0 <= i < |SubRules(rule)| && Survives(SubRules(rule)[i], outs, low)
        else forall i :: 0 <= i < |SubRules(rule)| ==> Survives(SubRules(rule)[i], outs, low))
  }

  /** The tables a rule may meet. */
  predicate Between(low: set<string>, t: Tables, more: set<string>, high: set<string>) {
    low <= t.tags && t.tags + more <= high
  }

  lemma {:induction false} VanishesIsDropped(rule: Value, outs: set<string>, high: set<string>, t: Tables)
    requires Vanishes(rule, outs, high) && t.tags + GeoTags(rule) <= high
    ensures ExpandShareRules(rule, outs, t).0 == []
    decreases rule, 0
  {
    if TurnedAway(rule, outs) {
    } else if !IsLogical(rule) {
      if Portable(rule, outs, t.tags) { PortableMonotone(rule, outs, t.tags, high); }
      LeafExact(rule, outs, t);
    } else if GetArr(rule, Rules).Some? {
      var rules, expanded := SubRules(rule), ExpandChildren(rule, SubRules(rule), outs, t).0;
      if IsOr(rule) {
        forall i | 0 <= i < |rules| ensures expanded[i] == [] { EachVanishes(rule, rules, outs, high, t, i); }
        FlattenNothing(expanded);
      } else {
        var i :| 0 <= i < |rules| && Vanishes(rules[i], outs, high);
        EachVanishes(rule, rules, outs, high, t, i);
      }
    }
  }

  lemma {:induction false} FlattenNothing(lists: seq<seq<Value>>)
    requires forall i :: 0 <= i < |lists| ==> lists[i] == []
    ensures Flatten(lists) == []
  {
    if lists == [] {
    } else {
      FlattenNothing(lists[1..]);
    }
  }

  lemma {:induction false} EachVanishes(
      parent: Value, rules: seq<Value>, outs: set<string>, high: set<string>, t: Tables, i: nat)
    requires forall j :: 0 <= j < |rules| ==> rules[j] < parent
    requires i < |rules| && Vanishes(rules[i], outs, high) && t.tags + EachTags(parent, rules) <= high
    ensures ExpandChildren(parent, rules, outs, t).0[i] == []
    decreases parent, 0, |rules|
  {
    if i == 0 {
      VanishesIsDropped(rules[0], outs, high, t);
    } else {
      TagsBounded(rules[0], outs, t);
      EachVanishes(parent, rules[1..], outs, high, ExpandShareRules(rules[0], outs, t).1, i - 1);
    }
  }

  lemma {:induction false} SurvivesIsShared(rule: Value, outs: set<string>, low: set<string>, t: Tables)
    requires Survives(rule, outs, low) && low <= t.tags
    ensures ExpandShareRules(rule, outs, t).0 != []
    decreases rule, 0
  {
    if !IsLogical(rule) {
      PortableMonotone(rule, outs, low, t.tags);
      LeafExact(rule, outs, t);
    } else {
      var rules, expanded := SubRules(rule), ExpandChildren(rule, SubRules(rule), outs, t).0;
      if IsOr(rule) {
        var i :| 0 <= i < |rules| && Survives(rules[i], outs, low);
        EachSurvives(rule, rules, outs, low, t, i);
        FlattenSomething(expanded, i);
      } else {
        forall i | 0 <= i < |rules| ensures expanded[i] != [] { EachSurvives(rule, rules, outs, low, t, i); }
      }
    }
  }

  lemma {:induction false} FlattenSomething(lists: seq<seq<Value>>, i: nat)
    requires i < |lists| && lists[i] != []
    ensures Flatten(lists) != []
  {
    if i == 0 {
    } else {
      FlattenSomething(lists[1..], i - 1);
    }
  }

  lemma {:induction false} EachSurvives(
      parent: Value, rules: seq<Value>, outs: set<string>, low: set<string>, t: Tables, i: nat)
    requires forall j :: 0 <= j < |rules| ==> rules[j] < parent
    requires i < |rules| && Survives(rules[i], outs, low) && low <= t.tags
    ensures ExpandChildren(parent, rules, outs, t).0[i] != []
    decreases parent, 0, |rules|
  {
    if i == 0 {
      SurvivesIsShared(rules[0], outs, low, t);
    } else {
      TagsBounded(rules[0], outs, t);
      EachSurvives(parent, rules[1..], outs, low, ExpandShareRules(rules[0], outs, t).1, i - 1);
    }
  }

  /** The copy is no wider (`up`), or no narrower, whatever tags between the two
      bounds are defined: nothing that may be lost stands where losing it shows. */
  predicate Safe(rule: Value, outs: set<string>, low: set<string>, high: set<string>, up: bool)
    decreases rule
  {
    || Vanishes(rule, outs, high)
    || (if !IsLogical(rule) then LeafBounded(rule, up)
        else
          var side := up != Inverted(rule);
          forall i :: 0 <= i < |SubRules(rule)| ==>
            (side || Survives(SubRules(rule)[i], outs, low)) && Safe(SubRules(rule)[i], outs, low, high, side))
  }

  lemma {:induction false} SafeIsBounded(
      rule: Value, outs: set<string>, low: set<string>, high: set<string>, up: bool, t: Tables)
    requires Safe(rule, outs, low, high, up) && Between(low, t, GeoTags(rule), high)
    ensures Bounded(rule, outs, t, up)
    decreases rule, 0
  {
    if Vanishes(rule, outs, high) {
      VanishesIsDropped(rule, outs, high, t);
    } else if IsLogical(rule) {
      EachSafeIsBounded(rule, SubRules(rule), outs, low, high, up != Inverted(rule), t);
    }
  }

  lemma {:induction false} EachSafeIsBounded(
      parent: Value, rules: seq<Value>, outs: set<string>, low: set<string>, high: set<string>, up: bool, t: Tables)
    requires forall i :: 0 <= i < |rules| ==>
      rules[i] < parent && (up || Survives(rules[i], outs, low)) && Safe(rules[i], outs, low, high, up)
    requires Between(low, t, EachTags(parent, rules), high)
    ensures EachBounded(parent, rules, outs, t, up)
    decreases parent, 0, |rules|
  {
    if rules == [] {
    } else {
      TagsBounded(rules[0], outs, t);
      if !up { SurvivesIsShared(rules[0], outs, low, t); }
      SafeIsBounded(rules[0], outs, low, high, up, t);
      EachSafeIsBounded(parent, rules[1..], outs, low, high, up, ExpandShareRules(rules[0], outs, t).1);
    }
  }

  // ---- whole lists, by a condition on the list itself

  /** Every tag the rules of a list may define. */
  function ListGeoTags(rules: seq<Value>): set<string> {
    if rules == [] then {} else GeoTags(rules[0]) + ListGeoTags(rules[1..])
  }

  /** What the decision for `f` needs of one rule: it is faithful and portable; or
      it decides, survives and is safe from below; or it does not decide, and is
      safe from above or ends no search. */
  ghost predicate Settled(rule: Value, outs: set<string>, low: set<string>, high: set<string>, f: Flow) {
    || (Faithful(rule) && Portable(rule, outs, low))
    || (if Decides(rule, f) then Survives(rule, outs, low) && Safe(rule, outs, low, high, false)
        else NonTerminal(rule) || Safe(rule, outs, low, high, true))
  }

  lemma SettledIsKept(rule: Value, outs: set<string>, low: set<string>, high: set<string>, t: Tables, f: Flow)
    requires Settled(rule, outs, low, high, f) && Between(low, t, GeoTags(rule), high)
    ensures RuleKept(rule, outs, t, f)
  {
    if Faithful(rule) && Portable(rule, outs, low) {
      PortableIsShared(rule, outs, low, t);
      KeptIsBounded(rule, outs, t, !Decides(rule, f));
    } else if Decides(rule, f) {
      SurvivesIsShared(rule, outs, low, t);
      SafeIsBounded(rule, outs, low, high, false, t);
    } else if !NonTerminal(rule) {
      SafeIsBounded(rule, outs, low, high, true, t);
    }
  }

  /** Every rule up to the deciding one is settled. */
  ghost predicate ListSettled(rules: seq<Value>, outs: set<string>, low: set<string>, high: set<string>, f: Flow) {
    forall i: nat :: Reached(rules, i, f) ==> Settled(rules[i], outs, low, high, f)
  }

  lemma {:induction false} SettledListKept(
      rules: seq<Value>, outs: set<string>, low: set<string>, high: set<string>, t: Tables, f: Flow)
    requires ListSettled(rules, outs, low, high, f) && Between(low, t, ListGeoTags(rules), high)
    ensures ListKept(rules, outs, t, f)
  {
    if rules == [] {
    } else {
      assert Reached(rules, 0, f);
      SettledIsKept(rules[0], outs, low, high, t, f);
      if !Decides(rules[0], f) {
        TagsBounded(rules[0], outs, t);
        forall i: nat | Reached(rules[1..], i, f) ensures Settled(rules[1..][i], outs, low, high, f) {
          ReachedLater(rules, i, f);
        }
        SettledListKept(rules[1..], outs, low, high, ExpandShareRules(rules[0], outs, t).1, f);
      }
    }
  }

  /** Whole-list preservation, by a condition on the rules and the tags defined
      before them: a flow gets the decision of the original list. */
  lemma SettledDecision(rules: seq<Value>, outs: set<string>, t: Tables, final: string, f: Flow)
    requires ListSettled(rules, outs, t.tags, t.tags + ListGeoTags(rules), f)
    ensures Evaluate(ExpandList(rules, outs, t).0, final, f) == Evaluate(rules, final, f)
  {
    SettledListKept(rules, outs, t.tags, t.tags + ListGeoTags(rules), t, f);
    ListDecision(rules, outs, t, final, f);
  }
}
