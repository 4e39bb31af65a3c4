/** The route builder as it runs: rule lists filtered in place, and one list of
    rule-set definitions that every expanded rule may add to. */
module RouteSteps {
  import opened JsonValue
  import opened RuleKeys
  import opened RuleSemantics
  import opened GeoBuild
  import opened RouteBuild

  lemma RetainStep(kept: seq<Value>, todo: seq<Value>, keep: Value -> bool)
    requires todo != []
    ensures kept + Filter(todo, keep) == (if keep(todo[0]) then kept + [todo[0]] else kept) + Filter(todo[1..], keep)
  {
    if keep(todo[0]) {
      assert Filter(todo, keep) == [todo[0]] + Filter(todo[1..], keep);
    }
  }

  method Retain(rules: seq<Value>, keep: Value -> bool) returns (kept: seq<Value>)
    ensures kept == Filter(rules, keep)
  {
    kept := [];
    var todo := rules;
    ghost var all := Filter(rules, keep);
    assert kept + all == all;
    while todo != []
      invariant kept + Filter(todo, keep) == all
      decreases |todo|
    {
      RetainStep(kept, todo, keep);
      if keep(todo[0]) { kept := kept + [todo[0]]; }
      todo := todo[1..];
    }
    assert kept + [] == kept;
  }

  class SetList {
    var sets: seq<Value>

    /** `bundled` and `download` entries of a profile become local files or go. */
    constructor (src: Sources, ruleSets: seq<Value>)
      ensures sets == ResolveSets(src, ruleSets)
    {
      var done: seq<Value> := [];
      var i := 0;
      assert ruleSets[0..] == ruleSets && [] + ResolveSets(src, ruleSets) == ResolveSets(src, ruleSets);
      while i < |ruleSets|
        invariant i <= |ruleSets|
        invariant done + ResolveSets(src, ruleSets[i..]) == ResolveSets(src, ruleSets)
      {
        assert ruleSets[i..][0] == ruleSets[i] && ruleSets[i..][1..] == ruleSets[i + 1..];
        var local := ResolveSet(src, ruleSets[i]);
        ghost var rest := ResolveSets(src, ruleSets[i + 1..]);
        if local.Some? {
          assert done + ([local.value] + rest) == (done + [local.value]) + rest;
          done := done + [local.value];
        }
        i := i + 1;
      }
      assert ruleSets[i..] == [] && done + [] == done;
      sets := done;
    }

    /** Looks every set up first, so a missing one leaves the list alone. */
    method Lookup(src: Sources, names: seq<string>) returns (found: Option<seq<Value>>)
      ensures found.Some? <==> AllResolve(src, names)
      ensures found.Some? ==> |found.value| == |names| && forall i :: 0 <= i < |names| ==>
        found.value[i] == GeoSet(src, names[i]).value
    {
      var resolved := [];
      for i := 0 to |names|
        invariant |resolved| == i
        invariant forall j :: 0 <= j < i ==> GeoSet(src, names[j]) == Some(resolved[j])
      {
        var local := GeoSet(src, names[i]);
        if local == None { return None; }
        resolved := resolved + [local.value];
      }
      return Some(resolved);
    }

    method ExpandGeoRule(rule: Value, kinds: set<GeoKind>, src: Sources) returns (r: Option<Value>)
      modifies this
      ensures (r, sets) == GeoBuild.ExpandGeoRule(rule, kinds, src, old(sets))
    {
      match GeoMatcherOf(rule, kinds) {
        case NoMatcher => return Some(rule);
        case Invalid => return None;
        case Expand(kind, codes) =>
          var names := GeoNames(kind, codes);
          var resolved := Lookup(src, names);
          if resolved == None { return None; }
          var i := 0;
          while i < |names|
            invariant i <= |names|
            invariant AddSets(src, names[i..], sets) == AddSets(src, names, old(sets))
          {
            if names[i] !in TagsOf(sets) { sets := sets + [resolved.value[i]]; }
            i := i + 1;
          }
          return Some(Obj((rule.fields - {KindKey(kind)})[RuleSet := Arr(ToStrs(names))]));
      }
    }

    method ExpandGeoRules(rules: seq<Value>, kinds: set<GeoKind>, src: Sources) returns (kept: seq<Value>)
      modifies this
      ensures (kept, sets) == GeoBuild.ExpandGeoRules(rules, kinds, src, old(sets))
    {
      kept := [];
      var i := 0;
      assert rules[0..] == rules;
      ghost var (all, _) := GeoBuild.ExpandGeoRules(rules, kinds, src, sets);
      assert kept + all == all;
      while i < |rules|
        invariant i <= |rules|
        invariant var (rest, after) := GeoBuild.ExpandGeoRules(rules[i..], kinds, src, sets);
          GeoBuild.ExpandGeoRules(rules, kinds, src, old(sets)) == (kept + rest, after)
      {
        assert rules[i..][0] == rules[i] && rules[i..][1..] == rules[i + 1..];
        var rule := ExpandGeoRule(rules[i], kinds, src);
        ghost var (rest, _) := GeoBuild.ExpandGeoRules(rules[i + 1..], kinds, src, sets);
        if rule.Some? {
          assert kept + ([rule.value] + rest) == (kept + [rule.value]) + rest;
          kept := kept + [rule.value];
        } else {
          assert kept + ([] + rest) == kept + rest;
        }
        i := i + 1;
      }
      assert rules[i..] == [] && kept + [] == kept;
    }

    method RetainLocal()
      modifies this
      ensures sets == LocalSets(old(sets))
    {
      sets := Retain(sets, LocalOnly);
    }
  }

  method BuildRoute(input: Input) returns (route: Route)
    ensures route == RouteBuild.BuildRoute(input)
  {
    var prefix := input.reserved + input.apps;
    prefix := prefix + [ModeRule("global", input.globalTarget)];
    prefix := prefix + [ModeRule("direct", "direct")];
    assert prefix == input.reserved + input.apps + ModeRules(input);

    var enabled := Retain(input.subscription, EnabledTest(input));
    enabled := Retain(enabled, TakesEffect);
    var table := new SetList(input.src, input.ruleSets);
    var subscription := table.ExpandGeoRules(enabled, ROUTE_GEO_KINDS, input.src);
    table.RetainLocal();
    var subSets := table.sets;
    subscription := Retain(subscription, KnownTest(subSets));

    var custom := Retain(input.custom, EnabledTest(input));
    custom := Retain(custom, UsableTest(input.outs, subSets));
    var all := new SetList(input.src, subSets);
    custom := all.ExpandGeoRules(custom, ROUTE_GEO_KINDS, input.src);
    all.RetainLocal();

    var dns := Retain(input.dnsRules, WithoutGeoip);
    dns := all.ExpandGeoRules(dns, DNS_GEO_KINDS, input.src);
    dns := Retain(dns, KnownTest(all.sets));
    return Route(prefix, custom, subscription, all.sets, dns);
  }
}
