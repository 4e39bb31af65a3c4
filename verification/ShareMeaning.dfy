/** The shared copy of a rule matches the same flows and does the same thing. */
module ShareMeaning {
  import opened JsonValue
  import opened RuleKeys
  import opened RuleSemantics
  import opened ShareRules
  import opened GeoListProofs
  import opened FirstMatch

  ghost predicate AllMatch(rules: seq<Value>, f: Flow) {
    forall i :: 0 <= i < |rules| ==> Matches(rules[i], f)
  }

  ghost predicate AnyMatch(rules: seq<Value>, f: Flow) {
    exists i :: 0 <= i < |rules| && Matches(rules[i], f)
  }

  lemma OneMatch(r: Value, f: Flow)
    ensures AllMatch([r], f) == Matches(r, f) && AnyMatch([r], f) == Matches(r, f)
  {
    if Matches(r, f) { assert Matches([r][0], f); }
    if AllMatch([r], f) { assert Matches([r][0], f); }
  }

  lemma AllMatchConcat(a: seq<Value>, b: seq<Value>, f: Flow)
    ensures AllMatch(a + b, f) == (AllMatch(a, f) && AllMatch(b, f))
  {
    if AllMatch(a + b, f) {
      assert forall i :: 0 <= i < |a| ==> (a + b)[i] == a[i];
      assert forall i :: 0 <= i < |b| ==> (a + b)[|a| + i] == b[i];
    }
  }

  lemma AnyMatchConcat(a: seq<Value>, b: seq<Value>, f: Flow)
    ensures AnyMatch(a + b, f) == (AnyMatch(a, f) || AnyMatch(b, f))
  {
    if i :| 0 <= i < |a| && Matches(a[i], f) { assert (a + b)[i] == a[i]; }
    if i :| 0 <= i < |b| && Matches(b[i], f) { assert (a + b)[|a| + i] == b[i]; }
  }

  /** The conjuncts of `AndChildren` hold together when the base fields and
      every part do. */
  lemma AndChildrenMeaning(base: map<Key, Value>, parts: seq<Value>, f: Flow)
    requires !IsLogical(Obj(base))
    ensures AllMatch(AndChildren(base, parts), f) == (FieldsHold(base, f) && AllMatch(parts, f))
  {
    var matchers := MatchersOf(base);
    var rest := matchers - {RuleSet};
    var existing := if RuleSet in matchers then RuleSetList(matchers[RuleSet]) else [];
    var a := if rest == map[] then [] else [Obj(rest)];
    var b := if existing == [] then [] else [Obj(map[RuleSet := RuleSetValue(existing)])];
    AllMatchConcat(a + b, parts, f);
    AllMatchConcat(a, b, f);
    RestMeaning(base, rest, f);
    OneMatch(Obj(rest), f);
    OneMatch(Obj(map[RuleSet := RuleSetValue(existing)]), f);
    if existing != [] {
      SetRuleMeaning(RuleSetValue(existing), f);
      RuleSetListOfValue(existing);
    }
  }

  lemma RestMeaning(base: map<Key, Value>, rest: map<Key, Value>, f: Flow)
    requires !IsLogical(Obj(base)) && rest == MatchersOf(base) - {RuleSet}
    ensures (rest == map[] || Matches(Obj(rest), f)) == FieldsHold(rest, f)
    ensures FieldsHold(base, f) == (FieldsHold(rest, f) && (RuleSet in base ==> SetRefHolds(base[RuleSet], f)))
  {
    assert !Inverted(Obj(rest)) && !IsLogical(Obj(rest));
    assert forall k :: k in rest ==> k in base && rest[k] == base[k] && !MetaKey(k);
    assert forall k :: k in base && !MetaKey(k) && k != RuleSet ==> k in rest;
    if RuleSet in base { assert FieldHolds(RuleSet, base[RuleSet], f) == SetRefHolds(base[RuleSet], f); }
  }

  lemma MergeGet(meta: map<Key, Value>, child: map<Key, Value>, k: Key)
    requires (forall k :: k in meta ==> MetaKey(k)) && !MetaKey(k)
    ensures Get(Obj(MergeRuleFields(meta, child)), k) == Get(Obj(child), k)
  {}

  lemma MergeFields(meta: map<Key, Value>, child: map<Key, Value>, f: Flow)
    requires forall k :: k in meta ==> MetaKey(k)
    ensures FieldsHold(MergeRuleFields(meta, child), f) == FieldsHold(child, f)
  {
    var m := MergeRuleFields(meta, child);
    assert forall k :: !MetaKey(k) ==> (k in m <==> k in child);
    assert forall k :: !MetaKey(k) && k in m ==> m[k] == child[k];
  }

  /** Merging one condition into the action fields keeps the condition; two
      `invert` flags cancel. */
  lemma MergeMeaning(meta: map<Key, Value>, child: map<Key, Value>, f: Flow)
    requires forall k :: k in meta ==> MetaKey(k)
    requires PartShaped(Obj(child))
    ensures Matches(Obj(MergeRuleFields(meta, child)), f) == (Inverted(Obj(meta)) != Matches(Obj(child), f))
  {
    var m := Obj(MergeRuleFields(meta, child));
    assert Inverted(m) == (Inverted(Obj(meta)) != Inverted(Obj(child)));
    MergeGet(meta, child, Type);
    MergeGet(meta, child, Mode);
    MergeGet(meta, child, Rules);
    MergeFields(meta, child, f);
    assert SubRules(m) == SubRules(Obj(child));
  }

  lemma RebuildLookup(parent: Value, mode: string, children: seq<Value>, k: Key)
    ensures Get(RebuildLogical(parent, mode, children), k) == (
      if k == Type then Some(Str("logical"))
      else if k == Mode then Some(Str(mode))
      else if k == Rules then Some(Arr(children))
      else if MetaKey(k) && parent.Obj? then Get(parent, k)
      else None)
  {
    var l := LogicalFields(mode, children);
    assert k in l <==> k == Type || k == Mode || k == Rules;
    var m := if parent.Obj? then MetaOf(parent.fields) else map[];
    assert k in m <==> parent.Obj? && k in parent.fields && MetaKey(k);
  }

  lemma RebuildAction(parent: Value, mode: string, children: seq<Value>)
    ensures RuleAction(RebuildLogical(parent, mode, children)) == RuleAction(parent)
  {
    var a, b := RuleAction(RebuildLogical(parent, mode, children)), RuleAction(parent);
    forall k | MetaKey(k) && k != Invert ensures k in a <==> k in b ensures k in a ==> a[k] == b[k] {
      RebuildLookup(parent, mode, children, k);
    }
  }

  /** A rebuilt logical rule keeps the action and `invert` of its parent. */
  lemma RebuildFacts(parent: Value, mode: string, children: seq<Value>)
    ensures var r := RebuildLogical(parent, mode, children);
      && IsLogical(r) && GetArr(r, Rules) == Some(children) && SubRules(r) == children
      && (IsOr(r) <==> mode == "or") && Inverted(r) == Inverted(parent)
  {
    RebuildLookup(parent, mode, children, Type);
    RebuildLookup(parent, mode, children, Mode);
    RebuildLookup(parent, mode, children, Rules);
    RebuildLookup(parent, mode, children, Invert);
  }

  lemma MetaFacts(base: map<Key, Value>)
    ensures Inverted(Obj(MetaOf(base))) == Inverted(Obj(base))
    ensures RuleAction(Obj(MetaOf(base))) == RuleAction(Obj(base))
    ensures forall k :: k in MetaOf(base) ==> MetaKey(k)
  {}

  predicate PartShaped(p: Value) {
    p.Obj? && forall k :: k in p.fields && MetaKey(k) ==> k == Invert
  }

  lemma MergeAction(meta: map<Key, Value>, child: map<Key, Value>)
    requires PartShaped(Obj(child))
    ensures RuleAction(Obj(MergeRuleFields(meta, child))) == RuleAction(Obj(meta))
  {}

  lemma AndRulePartsMeaning(base: map<Key, Value>, parts: seq<Value>, f: Flow)
    requires !IsLogical(Obj(base)) && parts != []
    requires forall i :: 0 <= i < |parts| ==> PartShaped(parts[i])
    ensures Matches(AndRuleParts(base, parts), f) == (Inverted(Obj(base)) != (FieldsHold(base, f) &&
      AllMatch(parts, f)))
    ensures RuleAction(AndRuleParts(base, parts)) == RuleAction(Obj(base))
  {
    var meta, children := MetaOf(base), AndChildren(base, parts);
    MetaFacts(base);
    AndChildrenMeaning(base, parts, f);
    assert children[|children| - 1] == parts[|parts| - 1];
    if |children| == 1 {
      MergeMeaning(meta, children[0].fields, f);
      MergeAction(meta, children[0].fields);
      assert AllMatch(children, f) == Matches(children[0], f);
    } else {
      assert AndRuleParts(base, parts) == RebuildLogical(Obj(base), "and", children);
      RebuildFacts(Obj(base), "and", children);
      RebuildAction(Obj(base), "and", children);
    }
  }

  // ---- one non-logical rule

  predicate FaithfulField(kind: GeoKind, rule: Value) {
    Has(rule, KindKey(kind)) ==> GeoListFaithful(kind, GeoCodes(rule.fields[KindKey(kind)]))
  }

  lemma PartFacts(atoms: seq<Literal>)
    requires atoms != []
    ensures PartShaped(OrAtoms(atoms))
  {
  }

  lemma PartsMeaning(atoms: seq<Literal>, f: Flow)
    ensures AllMatch(Parts(atoms), f) == (AtomSet(atoms) == {} || Clause(AtomSet(atoms), f))
  {
    if atoms != [] {
      OrAtomsMeaning(atoms, f);
      assert atoms[0] in AtomSet(atoms);
      OneMatch(OrAtoms(atoms), f);
    }
  }

  lemma PartIsEmitted(kind: GeoKind, rule: Value, t: Tables, f: Flow)
    ensures AllMatch(Parts(GeoAtoms(kind, rule, t).0), f)
         == (Has(rule, KindKey(kind)) ==> EmittedHolds(kind, GeoCodes(rule.fields[KindKey(kind)]), f))
  {
    PartsMeaning(GeoAtoms(kind, rule, t).0, f);
    if Has(rule, KindKey(kind)) {
      GeoAtomsKept(kind, GeoCodes(rule.fields[KindKey(kind)]), t);
    }
  }

  predicate BoundedField(kind: GeoKind, rule: Value, up: bool) {
    Has(rule, KindKey(kind)) ==> GeoListBounded(kind, GeoCodes(rule.fields[KindKey(kind)]), up)
  }

  lemma PartWithin(kind: GeoKind, rule: Value, t: Tables, up: bool, f: Flow)
    requires BoundedField(kind, rule, up)
    ensures Within(
      AllMatch(Parts(GeoAtoms(kind, rule, t).0), f),
      Has(rule, KindKey(kind)) ==> GeoHolds(kind, rule.fields[KindKey(kind)], f),
      up)
  {
    PartIsEmitted(kind, rule, t, f);
    if Has(rule, KindKey(kind)) {
      GeoListWithin(kind, GeoCodes(rule.fields[KindKey(kind)]), up, f);
    }
  }

  lemma GeoFieldsMeaning(rule: Value, base: map<Key, Value>, f: Flow)
    requires rule.Obj? && base == rule.fields - {Geoip, Geosite}
    ensures FieldsHold(rule.fields, f) == (
      && FieldsHold(base, f)
      && (Has(rule, Geoip) ==> GeoHolds(GeoIp, rule.fields[Geoip], f))
      && (Has(rule, Geosite) ==> GeoHolds(GeoSite, rule.fields[Geosite], f)))
  {
    if FieldsHold(rule.fields, f) {
      if Has(rule, Geoip) { assert FieldHolds(Geoip, rule.fields[Geoip], f); }
      if Has(rule, Geosite) { assert FieldHolds(Geosite, rule.fields[Geosite], f); }
    }
  }

  lemma BaseAction(rule: Value, base: map<Key, Value>)
    requires rule.Obj? && base == rule.fields - {Geoip, Geosite}
    ensures RuleAction(Obj(base)) == RuleAction(rule)
  {
    var a, b := RuleAction(Obj(base)), RuleAction(rule);
    assert forall k :: k in a <==> k in b;
    assert forall k :: k in a ==> a[k] == b[k];
  }

  lemma BaseFacts(rule: Value, base: map<Key, Value>)
    requires rule.Obj? && base == rule.fields - {Geoip, Geosite}
    ensures IsLogical(Obj(base)) == IsLogical(rule) && Inverted(Obj(base)) == Inverted(rule)
    ensures RuleAction(Obj(base)) == RuleAction(rule)
  {
    assert Get(Obj(base), Type) == Get(rule, Type) && Get(Obj(base), Invert) == Get(rule, Invert);
    BaseAction(rule, base);
  }

  function Compiled(base: map<Key, Value>, ips: seq<Literal>, sites: seq<Literal>): Value {
    if Parts(ips) + Parts(sites) == [] then Obj(base) else AndRuleParts(base, Parts(ips) + Parts(sites))
  }

  lemma CompiledMeaning(rule: Value, base: map<Key, Value>, ips: seq<Literal>, sites: seq<Literal>, f: Flow)
    requires rule.Obj? && !IsLogical(rule) && base == rule.fields - {Geoip, Geosite}
    ensures Matches(Compiled(base, ips, sites), f) ==
      (Inverted(rule) != (FieldsHold(base, f) && AllMatch(Parts(ips), f) && AllMatch(Parts(sites), f)))
    ensures RuleAction(Compiled(base, ips, sites)) == RuleAction(rule)
  {
    var parts := Parts(ips) + Parts(sites);
    AllMatchConcat(Parts(ips), Parts(sites), f);
    BaseFacts(rule, base);
    if ips != [] { PartFacts(ips); }
    if sites != [] { PartFacts(sites); }
    if parts != [] { AndRulePartsMeaning(base, parts, f); }
  }

  lemma RewriteIsCompiled(rule: Value, t: Tables)
    requires rule.Obj? && (Has(rule, Geoip) || Has(rule, Geosite))
    ensures var (ips, t1) := GeoAtoms(GeoIp, rule, t); var out := RewriteGeoShareRule(rule, t).0;
      out != [] ==> out[0] == Compiled(rule.fields - {Geoip, Geosite}, ips, GeoAtoms(GeoSite, rule, t1).0)
  {}

  /** The geo lists of a rule bound it on the given side; `invert` swaps sides. */
  predicate LeafBounded(rule: Value, up: bool) {
    BoundedField(GeoIp, rule, up != Inverted(rule)) && BoundedField(GeoSite, rule, up != Inverted(rule))
  }

  lemma RewriteWithin(rule: Value, t: Tables, up: bool, f: Flow)
    requires rule.Obj? && !IsLogical(rule) && LeafBounded(rule, up)
    ensures var out := RewriteGeoShareRule(rule, t).0;
      out != [] ==> Within(Matches(out[0], f), Matches(rule, f), up) && RuleAction(out[0]) == RuleAction(rule)
  {
    if Has(rule, Geoip) || Has(rule, Geosite) {
      var (ips, t1) := GeoAtoms(GeoIp, rule, t);
      var sites := GeoAtoms(GeoSite, rule, t1).0;
      var base := rule.fields - {Geoip, Geosite};
      RewriteIsCompiled(rule, t);
      CompiledMeaning(rule, base, ips, sites, f);
      GeoFieldsMeaning(rule, base, f);
      PartWithin(GeoIp, rule, t, up != Inverted(rule), f);
      PartWithin(GeoSite, rule, t1, up != Inverted(rule), f);
    }
  }

  lemma FaithfulIsBounded(rule: Value, up: bool)
    requires FaithfulField(GeoIp, rule) && FaithfulField(GeoSite, rule)
    ensures LeafBounded(rule, up)
  {}

  lemma RewriteMeaning(rule: Value, t: Tables, f: Flow)
    requires rule.Obj? && !IsLogical(rule) && FaithfulField(GeoIp, rule) && FaithfulField(GeoSite, rule)
    ensures var out := RewriteGeoShareRule(rule, t).0;
      out != [] ==> Matches(out[0], f) == Matches(rule, f) && RuleAction(out[0]) == RuleAction(rule)
  {
    FaithfulIsBounded(rule, true);
    FaithfulIsBounded(rule, false);
    RewriteWithin(rule, t, true, f);
    RewriteWithin(rule, t, false, f);
  }

  // ---- whole rule trees

  /** Every geo list below `rule` keeps its meaning. */
  predicate Faithful(rule: Value)
    decreases rule
  {
    if IsLogical(rule) then forall i :: 0 <= i < |SubRules(rule)| ==> Faithful(SubRules(rule)[i])
    else FaithfulField(GeoIp, rule) && FaithfulField(GeoSite, rule)
  }

  /** No alternative of an `or` below `rule` is lost on the way. */
  predicate AlternativesKept(rule: Value, outs: set<string>, t: Tables)
    decreases rule, 0
  {
    ExpandShareRules(rule, outs, t).0 != [] && IsLogical(rule) ==>
      ChildrenKept(rule, SubRules(rule), outs, t)
  }

  predicate ChildrenKept(parent: Value, rules: seq<Value>, outs: set<string>, t: Tables)
    requires forall i :: 0 <= i < |rules| ==> rules[i] < parent
    decreases parent, 0, |rules|
  {
    rules != [] ==>
      && ExpandShareRules(rules[0], outs, t).0 != []
      && AlternativesKept(rules[0], outs, t)
      && ChildrenKept(parent, rules[1..], outs, ExpandShareRules(rules[0], outs, t).1)
  }

  lemma {:induction false} ExpandMeaning(rule: Value, outs: set<string>, t: Tables, f: Flow)
    requires Faithful(rule) && AlternativesKept(rule, outs, t)
    ensures var out := ExpandShareRules(rule, outs, t).0;
      out != [] ==> |out| == 1 && Matches(out[0], f) == Matches(rule, f) && RuleAction(out[0]) == RuleAction(rule)
    decreases rule, 0
  {
    var out := ExpandShareRules(rule, outs, t).0;
    if out == [] {
    } else {
      if IsLogical(rule) {
        var rules := SubRules(rule);
        var (expanded, _) := ExpandChildren(rule, rules, outs, t);
        ChildrenMeaning(rule, rules, outs, t, f);
        var mode := if IsOr(rule) then "or" else "and";
        assert out == [RebuildLogical(rule, mode, Wrapped(expanded))];
        RebuildFacts(rule, mode, Wrapped(expanded));
        RebuildAction(rule, mode, Wrapped(expanded));
        assert AllMatch(SubRules(out[0]), f) == AllMatch(rules, f);
        assert AnyMatch(SubRules(out[0]), f) == AnyMatch(rules, f);
      } else {
        RewriteMeaning(rule, t, f);
      }
    }
  }

  lemma ConsMeaning(a: Value, x: seq<Value>, b: Value, y: seq<Value>, f: Flow)
    requires Matches(a, f) == Matches(b, f) && AllMatch(x, f) == AllMatch(y, f) && AnyMatch(x, f) == AnyMatch(y, f)
    ensures AllMatch([a] + x, f) == AllMatch([b] + y, f) && AnyMatch([a] + x, f) == AnyMatch([b] + y, f)
  {
    AllMatchConcat([a], x, f);
    AllMatchConcat([b], y, f);
    AnyMatchConcat([a], x, f);
    AnyMatchConcat([b], y, f);
    OneMatch(a, f);
    OneMatch(b, f);
  }

  lemma ConsChild(rules: seq<Value>, first: seq<Value>, rest: seq<seq<Value>>, f: Flow)
    requires rules != [] && |first| == 1 && Matches(first[0], f) == Matches(rules[0], f)
    requires AllMatch(Wrapped(rest), f) == AllMatch(rules[1..], f) &&
      AnyMatch(Wrapped(rest), f) == AnyMatch(rules[1..], f)
    requires Flatten(rest) == Wrapped(rest)
    ensures var all := [first] + rest;
      && Flatten(all) == Wrapped(all)
      && AllMatch(Wrapped(all), f) == AllMatch(rules, f)
      && AnyMatch(Wrapped(all), f) == AnyMatch(rules, f)
  {
    WrapCons(first, rest);
    assert rules == [rules[0]] + rules[1..];
    ConsMeaning(rules[0], rules[1..], first[0], Wrapped(rest), f);
  }

  lemma {:induction false} ChildrenMeaning(parent: Value, rules: seq<Value>, outs: set<string>, t: Tables, f: Flow)
    requires forall i :: 0 <= i < |rules| ==> rules[i] < parent && Faithful(rules[i])
    requires ChildrenKept(parent, rules, outs, t)
    ensures var expanded := ExpandChildren(parent, rules, outs, t).0;
      && Flatten(expanded) == Wrapped(expanded)
      && AllMatch(Wrapped(expanded), f) == AllMatch(rules, f)
      && AnyMatch(Wrapped(expanded), f) == AnyMatch(rules, f)
    decreases parent, 0, |rules|
  {
    if rules == [] {
    } else {
      var (first, t1) := ExpandShareRules(rules[0], outs, t);
      var (rest, _) := ExpandChildren(parent, rules[1..], outs, t1);
      ExpandMeaning(rules[0], outs, t, f);
      ChildrenMeaning(parent, rules[1..], outs, t1, f);
      ConsChild(rules, first, rest, f);
    }
  }

  lemma WrapCons(first: seq<Value>, rest: seq<seq<Value>>)
    requires |first| == 1
    ensures Wrapped([first] + rest) == [first[0]] + Wrapped(rest) &&
      Flatten([first] + rest) == [first[0]] + Flatten(rest)
  {
    assert ([first] + rest)[1..] == rest && first == [first[0]];
  }

  // ---- lost alternatives

  predicate NoInvertedGroup(rule: Value)
    decreases rule
  {
    IsLogical(rule) ==> !Inverted(rule) && forall i :: 0 <= i < |SubRules(rule)| ==> NoInvertedGroup(SubRules(rule)[i])
  }

  /** The copy, if there is one, is no wider (`up`) or no narrower than the rule.
      Losing an alternative narrows a group, so below an even number of `invert`s
      it is harmless to the upper bound and below an odd number to the lower one. */
  predicate Bounded(rule: Value, outs: set<string>, t: Tables, up: bool)
    decreases rule, 0
  {
    ExpandShareRules(rule, outs, t).0 != [] ==>
      if IsLogical(rule) then EachBounded(rule, SubRules(rule), outs, t, up != Inverted(rule))
      else LeafBounded(rule, up)
  }

  predicate EachBounded(parent: Value, rules: seq<Value>, outs: set<string>, t: Tables, up: bool)
    requires forall i :: 0 <= i < |rules| ==> rules[i] < parent
    decreases parent, 0, |rules|
  {
    rules != [] ==>
      && (up || ExpandShareRules(rules[0], outs, t).0 != [])
      && Bounded(rules[0], outs, t, up)
      && EachBounded(parent, rules[1..], outs, ExpandShareRules(rules[0], outs, t).1, up)
  }

  lemma {:induction false} ExpandWithin(rule: Value, outs: set<string>, t: Tables, up: bool, f: Flow)
    requires Bounded(rule, outs, t, up)
    ensures var out := ExpandShareRules(rule, outs, t).0;
      out != [] ==> Within(Matches(out[0], f), Matches(rule, f), up)
    decreases rule, 0
  {
    var out := ExpandShareRules(rule, outs, t).0;
    if out == [] {
    } else if IsLogical(rule) {
      var expanded := ExpandChildren(rule, SubRules(rule), outs, t).0;
      EachWithin(rule, SubRules(rule), outs, t, up != Inverted(rule), f);
      RebuildFacts(rule, "or", Flatten(expanded));
      RebuildFacts(rule, "and", Wrapped(expanded));
      GroupMatch(out[0], f);
      GroupMatch(rule, f);
    } else {
      RewriteWithin(rule, t, up, f);
    }
  }

  lemma GroupMatch(rule: Value, f: Flow)
    requires IsLogical(rule)
    ensures Matches(rule, f) ==
      (Inverted(rule) != if IsOr(rule) then AnyMatch(SubRules(rule), f) else AllMatch(SubRules(rule), f))
  {}

  ghost predicate AllPresent(expanded: seq<seq<Value>>) {
    forall i :: 0 <= i < |expanded| ==> expanded[i] != []
  }

  lemma {:induction false} EachWithin(
      parent: Value, rules: seq<Value>, outs: set<string>, t: Tables, up: bool, f: Flow)
    requires forall i :: 0 <= i < |rules| ==> rules[i] < parent
    requires EachBounded(parent, rules, outs, t, up)
    ensures var expanded := ExpandChildren(parent, rules, outs, t).0;
      && Within(AnyMatch(Flatten(expanded), f), AnyMatch(rules, f), up)
      && (AllPresent(expanded) ==> Within(AllMatch(Wrapped(expanded), f), AllMatch(rules, f), up))
    decreases parent, 0, |rules|
  {
    if rules == [] {
    } else {
      var (first, t1) := ExpandShareRules(rules[0], outs, t);
      var rest := ExpandChildren(parent, rules[1..], outs, t1).0;
      ExpandWithin(rules[0], outs, t, up, f);
      EachWithin(parent, rules[1..], outs, t1, up, f);
      HeadTail(rules, f);
      assert ([first] + rest)[1..] == rest && ([first] + rest)[0] == first;
      AnyMatchConcat(first, Flatten(rest), f);
      assert AllPresent([first] + rest) ==> AllPresent(rest) by {
        assert forall i :: 0 <= i < |rest| ==> ([first] + rest)[i + 1] == rest[i];
      }
      if first != [] {
        assert first == [first[0]];
        OneMatch(first[0], f);
        AllMatchConcat([first[0]], Wrapped(rest), f);
      }
    }
  }

  lemma HeadTail(rules: seq<Value>, f: Flow)
    requires rules != []
    ensures AnyMatch(rules, f) == (Matches(rules[0], f) || AnyMatch(rules[1..], f))
    ensures AllMatch(rules, f) == (Matches(rules[0], f) && AllMatch(rules[1..], f))
  {
    assert rules == [rules[0]] + rules[1..];
    OneMatch(rules[0], f);
    AllMatchConcat([rules[0]], rules[1..], f);
    AnyMatchConcat([rules[0]], rules[1..], f);
  }

  /** A faithful rule that keeps its alternatives is bounded on both sides. */
  lemma {:induction false} KeptIsBounded(rule: Value, outs: set<string>, t: Tables, up: bool)
    requires Faithful(rule) && AlternativesKept(rule, outs, t)
    ensures Bounded(rule, outs, t, up)
    decreases rule, 0
  {
    if IsLogical(rule) && ExpandShareRules(rule, outs, t).0 != [] {
      EachKeptIsBounded(rule, SubRules(rule), outs, t, up != Inverted(rule));
    }
  }

  lemma {:induction false} EachKeptIsBounded(
      parent: Value, rules: seq<Value>, outs: set<string>, t: Tables, up: bool)
    requires forall i :: 0 <= i < |rules| ==> rules[i] < parent && Faithful(rules[i])
    requires ChildrenKept(parent, rules, outs, t)
    ensures EachBounded(parent, rules, outs, t, up)
    decreases parent, 0, |rules|
  {
    if rules == [] {
    } else {
      KeptIsBounded(rules[0], outs, t, up);
      EachKeptIsBounded(parent, rules[1..], outs, ExpandShareRules(rules[0], outs, t).1, up);
    }
  }

  /** A faithful rule without inverted groups is bounded above, whatever it loses. */
  lemma {:induction false} PlainIsBounded(rule: Value, outs: set<string>, t: Tables)
    requires Faithful(rule) && NoInvertedGroup(rule)
    ensures Bounded(rule, outs, t, true)
    decreases rule, 0
  {
    if IsLogical(rule) {
      EachPlainIsBounded(rule, SubRules(rule), outs, t);
    }
  }

  lemma {:induction false} EachPlainIsBounded(parent: Value, rules: seq<Value>, outs: set<string>, t: Tables)
    requires forall i :: 0 <= i < |rules| ==> rules[i] < parent && Faithful(rules[i]) && NoInvertedGroup(rules[i])
    ensures EachBounded(parent, rules, outs, t, true)
    decreases parent, 0, |rules|
  {
    if rules == [] {
    } else {
      PlainIsBounded(rules[0], outs, t);
      EachPlainIsBounded(parent, rules[1..], outs, ExpandShareRules(rules[0], outs, t).1);
    }
  }

  /** Losing alternatives can only narrow a rule without inverted groups: the
      copy never captures a flow the original let pass. */
  lemma ExpandNeverWidens(rule: Value, outs: set<string>, t: Tables, f: Flow)
    requires Faithful(rule) && NoInvertedGroup(rule)
    ensures AnyMatch(ExpandShareRules(rule, outs, t).0, f) ==> Matches(rule, f)
  {
    var out := ExpandShareRules(rule, outs, t).0;
    PlainIsBounded(rule, outs, t);
    ExpandWithin(rule, outs, t, true, f);
    if out != [] {
      assert out == [out[0]];
      OneMatch(out[0], f);
    }
  }

  // ---- whole rule lists

  lemma LeafAction(rule: Value, t: Tables)
    requires rule.Obj? && !IsLogical(rule)
    ensures var out := RewriteGeoShareRule(rule, t).0;
      out != [] ==> RuleAction(out[0]) == RuleAction(rule)
  {
    if Has(rule, Geoip) || Has(rule, Geosite) {
      var (ips, t1) := GeoAtoms(GeoIp, rule, t);
      RewriteIsCompiled(rule, t);
      CompiledMeaning(
        rule, rule.fields - {Geoip, Geosite}, ips, GeoAtoms(GeoSite, rule, t1).0, Flow(iset{}, false, "", iset{}));
    }
  }

  lemma GroupAction(rule: Value, outs: set<string>, t: Tables)
    requires IsLogical(rule)
    ensures var out := ExpandShareRules(rule, outs, t).0;
      out != [] ==> RuleAction(out[0]) == RuleAction(rule)
  {
    if ExpandShareRules(rule, outs, t).0 != [] {
      var expanded := ExpandChildren(rule, SubRules(rule), outs, t).0;
      if IsOr(rule) {
        RebuildAction(rule, "or", Flatten(expanded));
      } else {
        RebuildAction(rule, "and", Wrapped(expanded));
      }
    }
  }

  /** A copy has the action of its rule, whatever it lost. */
  lemma ExpandAction(rule: Value, outs: set<string>, t: Tables)
    ensures var out := ExpandShareRules(rule, outs, t).0;
      out != [] ==> RuleAction(out[0]) == RuleAction(rule)
  {
    if IsLogical(rule) {
      GroupAction(rule, outs, t);
    } else if rule.Obj? {
      LeafAction(rule, t);
    }
  }

  /** What the decision for `f` needs of one rule: the deciding rule is shared as
      a copy that is no narrower, the copy of any other rule is no wider (or, like
      the rule, ends no search). */
  ghost predicate RuleKept(rule: Value, outs: set<string>, t: Tables, f: Flow) {
    if Decides(rule, f) then ExpandShareRules(rule, outs, t).0 != [] && Bounded(rule, outs, t, false)
    else NonTerminal(rule) || Bounded(rule, outs, t, true)
  }

  /** The same for every rule up to the deciding one; what follows plays no part. */
  ghost predicate ListKept(rules: seq<Value>, outs: set<string>, t: Tables, f: Flow) {
    rules != [] ==>
      RuleKept(rules[0], outs, t, f) &&
      (!Decides(rules[0], f) ==> ListKept(rules[1..], outs, ExpandShareRules(rules[0], outs, t).1, f))
  }

  /** The copy of a kept rule decides what the rule decides. */
  lemma CopyDecides(rule: Value, outs: set<string>, t: Tables, f: Flow)
    requires RuleKept(rule, outs, t, f)
    ensures var out := ExpandShareRules(rule, outs, t).0;
      out != [] ==> Decides(out[0], f) == Decides(rule, f) && RuleAction(out[0]) == RuleAction(rule)
  {
    var out := ExpandShareRules(rule, outs, t).0;
    if out != [] {
      ExpandAction(rule, outs, t);
      SameTerminal(out[0], rule);
      if !NonTerminal(rule) { ExpandWithin(rule, outs, t, !Decides(rule, f), f); }
    }
  }

  /** A flow gets the same decision from the shared list, or falls through to
      the default as before. */
  lemma {:induction false} ListDecision(rules: seq<Value>, outs: set<string>, t: Tables, final: string, f: Flow)
    requires ListKept(rules, outs, t, f)
    ensures Evaluate(ExpandList(rules, outs, t).0, final, f) == Evaluate(rules, final, f)
  {
    if rules == [] {
    } else {
      var (out, t') := ExpandShareRules(rules[0], outs, t);
      var rest := ExpandList(rules[1..], outs, t').0;
      CopyDecides(rules[0], outs, t, f);
      if out == [] {
        assert out + rest == rest;
      } else {
        assert out + rest == [out[0]] + rest;
        EvaluateCons(out[0], rest, final, f);
      }
      if !Decides(rules[0], f) {
        ListDecision(rules[1..], outs, t', final, f);
      }
    }
  }
}
