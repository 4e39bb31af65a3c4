/** What the emitted route list decides in Rule, Global and Direct mode. */
module RouteModes {
  import opened JsonValue
  import opened RuleKeys
  import opened RuleSemantics
  import opened RuleRefs
  import opened FirstMatch
  import opened GeoBuild
  import opened RouteBuild
  import opened RouteFilter
  import opened RoutePlan

  lemma ModeRuleMeaning(mode: string, outbound: string, f: Flow)
    ensures Decides(ModeRule(mode, outbound), f) == (Lower(mode) == Lower(f.mode))
    ensures RuleAction(ModeRule(mode, outbound)) == map[Outbound := Str(outbound)]
  {
    var r := ModeRule(mode, outbound);
    assert !NonTerminal(r) && !IsLogical(r) && !Inverted(r);
    assert ClashMode in r.fields && FieldHolds(ClashMode, r.fields[ClashMode], f) == (Lower(mode) == Lower(f.mode));
    assert forall k :: k in r.fields && !MetaKey(k) ==> k == ClashMode;
    assert RuleAction(r) == map[Outbound := Str(outbound)];
  }

  /** The layers as specified: reserved and per-app rules first, then the mode;
      only Rule mode looks at custom and subscription rules. */
  ghost function Specified(input: Input, route: Route, f: Flow): Decision {
    var pinned := input.reserved + input.apps;
    if !Undecided(pinned, f) then Evaluate(pinned, input.final, f)
    else if EqIgnoreCase(f.mode, "global") then By(map[Outbound := Str(input.globalTarget)])
    else if EqIgnoreCase(f.mode, "direct") then By(map[Outbound := Str("direct")])
    else Evaluate(route.custom + route.subscription, input.final, f)
  }

  /** The emitted list does what the layers say, in every mode, for every
      subscription and every custom rule. */
  lemma RouteRefinesLayers(input: Input, f: Flow)
    ensures var route := BuildRoute(input);
      Evaluate(route.Rules(), input.final, f) == Specified(input, route, f)
  {
    var route := BuildRoute(input);
    var pinned, modes := input.reserved + input.apps, ModeRules(input);
    var rest := modes + (route.custom + route.subscription);
    assert route.Rules() == pinned + rest;
    if !Undecided(pinned, f) {
      EvaluateDecided(pinned, rest, input.final, f);
    } else {
      EvaluateSkips(pinned, rest, input.final, f);
      ModesDecide(input, route.custom + route.subscription, f);
    }
  }

  lemma TwoModes(a: string, x: string, b: string, y: string, rules: seq<Value>, final: string, f: Flow)
    ensures Evaluate([ModeRule(a, x), ModeRule(b, y)] + rules, final, f) ==
      if Lower(a) == Lower(f.mode) then By(map[Outbound := Str(x)])
      else if Lower(b) == Lower(f.mode) then By(map[Outbound := Str(y)])
      else Evaluate(rules, final, f)
  {
    ModeRuleMeaning(a, x, f);
    ModeRuleMeaning(b, y, f);
    EvaluateTwo(ModeRule(a, x), ModeRule(b, y), rules, final, f);
  }

  lemma ModesDecide(input: Input, rules: seq<Value>, f: Flow)
    ensures Evaluate(ModeRules(input) + rules, input.final, f) ==
      if EqIgnoreCase(f.mode, "global") then By(map[Outbound := Str(input.globalTarget)])
      else if EqIgnoreCase(f.mode, "direct") then By(map[Outbound := Str("direct")])
      else Evaluate(rules, input.final, f)
  {
    TwoModes("global", input.globalTarget, "direct", "direct", rules, input.final, f);
  }

  // ---- dropped mode rules are invisible

  /** A subscription rule for another mode, as the filter recognises it. */
  predicate OtherModeRule(rule: Value) {
    GetStr(rule, ClashMode).Some? && !EqIgnoreCase(GetStr(rule, ClashMode).value, "rule")
  }

  /** Such a rule stays silent in Rule mode exactly when it is not inverted. */
  lemma SilentInRuleMode(rule: Value)
    requires OtherModeRule(rule) && !IsLogical(rule)
    ensures !Inverted(rule) <==> forall f: Flow :: EqIgnoreCase(f.mode, "rule") ==> !Matches(rule, f)
  {
    assert !MetaKey(ClashMode);
    forall f: Flow | EqIgnoreCase(f.mode, "rule") ensures Matches(rule, f) == Inverted(rule) {
      assert !FieldHolds(ClashMode, rule.fields[ClashMode], f);
      assert !FieldsHold(rule.fields, f);
    }
    var f := Flow(iset{}, false, "rule", iset{});
    assert EqIgnoreCase(f.mode, "rule") && Matches(rule, f) == Inverted(rule);
  }

  /** A rule the filter removes, but whose removal cannot be seen: it ends no
      search, or it is a plain rule for another mode. */
  predicate Harmless(rule: Value) {
    !Permitted(rule) ==> NonTerminal(rule) || (OtherModeRule(rule) && !Inverted(rule) && !IsLogical(rule))
  }

  predicate AllHarmless(rules: seq<Value>) {
    forall i :: 0 <= i < |rules| ==> Harmless(rules[i])
  }

  /** The rule that decides `f`, if any does, passes the filter. */
  ghost predicate DeciderPermitted(rules: seq<Value>, f: Flow) {
    forall i: nat :: DecidesFirst(rules, i, f) ==> Permitted(rules[i])
  }

  lemma {:induction false} FilterDecides(rules: seq<Value>, final: string, f: Flow)
    requires DeciderPermitted(rules, f)
    ensures Evaluate(rules, final, f) == Evaluate(TakingEffect(rules), final, f)
  {
    if rules == [] {
    } else {
      var rest := TakingEffect(rules[1..]);
      EvaluateCons(rules[0], rest, final, f);
      PermittedExactly(rules[0]);
      if Decides(rules[0], f) {
        assert DecidesFirst(rules, 0, f);
      } else {
        forall i: nat | DecidesFirst(rules[1..], i, f) ensures Permitted(rules[1..][i]) {
          ReachedLater(rules, i, f);
          assert DecidesFirst(rules, i + 1, f);
        }
        FilterDecides(rules[1..], final, f);
      }
    }
  }

  /** Harmless rules never decide in Rule mode and fail the filter. */
  lemma HarmlessDeciders(rules: seq<Value>, f: Flow)
    requires EqIgnoreCase(f.mode, "rule") && AllHarmless(rules)
    ensures DeciderPermitted(rules, f)
  {
    forall i: nat | DecidesFirst(rules, i, f) ensures Permitted(rules[i]) {
      assert Harmless(rules[i]);
      if OtherModeRule(rules[i]) && !Inverted(rules[i]) && !IsLogical(rules[i]) {
        SilentInRuleMode(rules[i]);
      }
    }
  }

  /** What stands before the subscription's rules: the builder's own, and `before`. */
  function Ahead(input: Input, before: seq<Value>): seq<Value> {
    input.reserved + input.apps + ModeRules(input) + before
  }

  /** In every mode, removing the rules the filter removes changes no decision,
      unless one of them would have made it. */
  lemma DroppedRulesInvisible(input: Input, before: seq<Value>, rules: seq<Value>, f: Flow)
    requires Undecided(Ahead(input, before), f) ==> DeciderPermitted(rules, f)
    ensures Evaluate(Ahead(input, before) + rules, input.final, f)
         == Evaluate(Ahead(input, before) + TakingEffect(rules), input.final, f)
  {
    if Undecided(Ahead(input, before), f) {
      EvaluateSkips(Ahead(input, before), rules, input.final, f);
      EvaluateSkips(Ahead(input, before), TakingEffect(rules), input.final, f);
      FilterDecides(rules, input.final, f);
    } else {
      EvaluateDecided(Ahead(input, before), rules, input.final, f);
      EvaluateDecided(Ahead(input, before), TakingEffect(rules), input.final, f);
    }
  }

  /** In the three modes the app sets, harmless rules alone never are that one. */
  lemma HarmlessRulesInvisible(input: Input, before: seq<Value>, rules: seq<Value>, f: Flow)
    requires EqIgnoreCase(f.mode, "rule") || EqIgnoreCase(f.mode, "global") || EqIgnoreCase(f.mode, "direct")
    requires AllHarmless(rules)
    ensures Evaluate(Ahead(input, before) + rules, input.final, f)
         == Evaluate(Ahead(input, before) + TakingEffect(rules), input.final, f)
  {
    if EqIgnoreCase(f.mode, "rule") {
      HarmlessDeciders(rules, f);
    } else {
      var modes, pinned := ModeRules(input), input.reserved + input.apps;
      ModeRuleMeaning("global", input.globalTarget, f);
      ModeRuleMeaning("direct", "direct", f);
      var i := if EqIgnoreCase(f.mode, "global") then 0 else 1;
      assert Decides(modes[i], f) && Ahead(input, before)[|pinned| + i] == modes[i];
    }
    DroppedRulesInvisible(input, before, rules, f);
  }

  const HIJACK: Value := Obj(map[Other("protocol") := Str("dns"), Action := Str("hijack-dns")])

  lemma HijackFacts(f: Flow)
    requires (Other("protocol"), Str("dns")) in f.holds
    ensures Decides(HIJACK, f) && TakingEffect([HIJACK]) == []
  {
    assert !IsLogical(HIJACK) && !Inverted(HIJACK) && !NonTerminal(HIJACK);
    assert forall k :: k in HIJACK.fields && !MetaKey(k) ==> k == Other("protocol");
    FilterOne(HIJACK, TakesEffect);
  }

  /** The condition cannot be dropped: a `hijack-dns` rule that decides is removed,
      and the flow falls through to the default. */
  lemma HijackRuleIsVisible(input: Input, before: seq<Value>, f: Flow)
    requires Undecided(Ahead(input, before), f) && (Other("protocol"), Str("dns")) in f.holds
    ensures Evaluate(Ahead(input, before) + [HIJACK], input.final, f) == By(RuleAction(HIJACK))
    ensures Evaluate(Ahead(input, before) + TakingEffect([HIJACK]), input.final, f) == Decision.Default(input.final)
  {
    HijackFacts(f);
    EvaluateSkips(Ahead(input, before), [HIJACK], input.final, f);
    EvaluateSkips(Ahead(input, before), [], input.final, f);
  }

  // ---- from the profile to the running core

  /** What the decision for `f` needs of one rule and what the builder made of it:
      a rule that decides is emitted, and an emitted rule is read as a plain set
      reference or ends no search. */
  ghost predicate RuleEmitted(rule: Value, emitted: Option<Value>, f: Flow) {
    && (Decides(rule, f) ==> emitted.Some?)
    && (emitted.Some? ==> NonTerminal(rule) || Readable(rule, ROUTE_GEO_KINDS))
  }

  lemma EmittedStands(rule: Value, src: Sources, emitted: Option<Value>, f: Flow)
    requires RuleEmitted(rule, emitted, f)
    requires emitted.Some? ==> emitted == ExpandGeoRule(rule, ROUTE_GEO_KINDS, src, []).0
    ensures Stands(emitted, rule, f)
  {
    if emitted.Some? {
      ExpandedAction(rule, ROUTE_GEO_KINDS, src, []);
      SameTerminal(emitted.value, rule);
      if !NonTerminal(rule) { ExpandedMeaning(rule, ROUTE_GEO_KINDS, src, [], f); }
    }
  }

  /** The same for every rule of a list up to the deciding one. */
  ghost predicate ListEmitted(rules: seq<Value>, emitted: seq<Option<Value>>, f: Flow)
    requires |emitted| == |rules|
  {
    forall i: nat :: Reached(rules, i, f) ==> RuleEmitted(rules[i], emitted[i], f)
  }

  /** Neither a reserved or per-app rule nor the mode decides. */
  ghost predicate LeftToProfile(input: Input, f: Flow) {
    && Undecided(input.reserved + input.apps, f)
    && !EqIgnoreCase(f.mode, "global") && !EqIgnoreCase(f.mode, "direct")
  }

  /** A flow left to the profile that no emitted custom rule decides gets what the
      subscription's own list says. */
  lemma SubscriptionDecides(input: Input, f: Flow)
    requires LeftToProfile(input, f) && Undecided(BuildRoute(input).custom, f)
    requires ListEmitted(NotDisabled(input), SubscriptionEach(NotDisabled(input), input), f)
    ensures Evaluate(BuildRoute(input).Rules(), input.final, f) == Evaluate(NotDisabled(input), input.final, f)
  {
    var route, rules := BuildRoute(input), NotDisabled(input);
    var emitted := SubscriptionEach(rules, input);
    RouteRefinesLayers(input, f);
    EvaluateSkips(route.custom, route.subscription, input.final, f);
    SubscriptionIsLeft(input);
    forall i: nat | Reached(rules, i, f) ensures Stands(emitted[i], rules[i], f) {
      EmittedStands(rules[i], input.src, emitted[i], f);
    }
    StandDecides(emitted, rules, input.final, f);
  }

  /** The layers over the user's own rules, before any filter or rewrite. */
  ghost function ProfileSpecified(input: Input, f: Flow): Decision {
    var pinned := input.reserved + input.apps;
    if !Undecided(pinned, f) then Evaluate(pinned, input.final, f)
    else if EqIgnoreCase(f.mode, "global") then By(map[Outbound := Str(input.globalTarget)])
    else if EqIgnoreCase(f.mode, "direct") then By(map[Outbound := Str("direct")])
    else Evaluate(ProfileRules(input), input.final, f)
  }

  /** In every mode the emitted route decides as the layers over the user's own
      custom and subscription rules, as long as the rule that decides is emitted. */
  lemma ProfileDecides(input: Input, f: Flow)
    requires LeftToProfile(input, f) ==> ListEmitted(ProfileRules(input), ProfileEach(input), f)
    ensures Evaluate(BuildRoute(input).Rules(), input.final, f) == ProfileSpecified(input, f)
  {
    RouteRefinesLayers(input, f);
    if LeftToProfile(input, f) {
      var rules, emitted := ProfileRules(input), ProfileEach(input);
      ProfileIsLeft(input);
      forall i: nat | Reached(rules, i, f) ensures Stands(emitted[i], rules[i], f) {
        ProfileExpands(input, i);
        EmittedStands(rules[i], input.src, emitted[i], f);
      }
      StandDecides(emitted, rules, input.final, f);
    }
  }

  // ---- the same by a check before the build

  /** The builder emits rule `i` of the profile, by what is known beforehand. */
  predicate WillEmit(input: Input, i: nat)
    requires i < |ProfileRules(input)|
  {
    var rule, tags := ProfileRules(input)[i], TagsOf(SubscriptionSets(input));
    if i < |EnabledCustom(input)| then
      Usable(rule, input.outs, tags) && !DropsRule(rule, ROUTE_GEO_KINDS, input.src)
    else Permitted(rule) && Sourced(rule, input) && RuleSetRefsKnown(rule, tags)
  }

  lemma WillEmitExactly(input: Input, i: nat)
    requires i < |ProfileRules(input)|
    ensures Planned(input) ==> (WillEmit(input, i) <==> ProfileEach(input)[i].Some?)
  {
    var custom := EnabledCustom(input);
    ProfileExpands(input, i);
    if i < |custom| {
      assert ProfileRules(input)[i] == custom[i] && custom[i] in custom;
      CustomEmitted(input, custom[i]);
    } else {
      var rule := NotDisabled(input)[i - |custom|];
      assert ProfileRules(input)[i] == rule && rule in NotDisabled(input);
      SubscriptionEmitted(input, rule);
    }
  }

  /** With everything planned on disk the hypothesis speaks of the profile alone. */
  lemma PlannedProfileDecides(input: Input, f: Flow)
    requires Planned(input)
    requires LeftToProfile(input, f) ==> forall i: nat :: Reached(ProfileRules(input), i, f) ==>
      && (Decides(ProfileRules(input)[i], f) ==> WillEmit(input, i))
      && (WillEmit(input, i) ==>
            NonTerminal(ProfileRules(input)[i]) || Readable(ProfileRules(input)[i], ROUTE_GEO_KINDS))
    ensures Evaluate(BuildRoute(input).Rules(), input.final, f) == ProfileSpecified(input, f)
  {
    if LeftToProfile(input, f) {
      forall i: nat | Reached(ProfileRules(input), i, f)
        ensures RuleEmitted(ProfileRules(input)[i], ProfileEach(input)[i], f)
      {
        WillEmitExactly(input, i);
      }
    }
    ProfileDecides(input, f);
  }
}
