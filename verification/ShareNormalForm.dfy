/** Shared rules are in a normal form: no legacy matcher is left, every
    reference is defined, and sharing a copy again changes nothing. */
module ShareNormalForm {
  import opened JsonValue
  import opened RuleKeys
  import opened RuleSemantics
  import opened RuleRefs
  import opened ShareRules
  import opened GeoListProofs
  import opened ShareMeaning

  /** Sharing `r` with table `u` returns `r` and leaves the table alone. */
  predicate Stable(r: Value, outs: set<string>, u: Tables) {
    ExpandShareRules(r, outs, u) == ([r], u)
  }

  predicate AllStable(rules: seq<Value>, outs: set<string>, u: Tables) {
    forall i :: 0 <= i < |rules| ==> Stable(rules[i], outs, u)
  }

  predicate NoGeo(r: Value) {
    !Has(r, Geoip) && !Has(r, Geosite)
  }

  lemma LeafStable(r: Value, outs: set<string>, u: Tables)
    requires r.Obj? && !Has(r, Inbound) && OutboundOk(r, outs) && !IsLogical(r) && NoGeo(r) &&
      RuleSetFieldKnown(r, u.tags)
    ensures Stable(r, outs, u)
  {}

  function Singletons(rules: seq<Value>): (r: seq<seq<Value>>)
    ensures |r| == |rules| && forall i :: 0 <= i < |r| ==> r[i] == [rules[i]]
  {
    seq(|rules|, i requires 0 <= i < |rules| => [rules[i]])
  }

  lemma {:induction false} SingletonLists(rules: seq<Value>)
    ensures Flatten(Singletons(rules)) == rules && Wrapped(Singletons(rules)) == rules
  {
    if rules == [] {
    } else {
      SingletonLists(rules[1..]);
      assert Singletons(rules)[1..] == Singletons(rules[1..]);
    }
  }

  lemma {:induction false} StableChildren(parent: Value, rules: seq<Value>, outs: set<string>, u: Tables)
    requires forall i :: 0 <= i < |rules| ==> rules[i] < parent
    requires AllStable(rules, outs, u)
    ensures ExpandChildren(parent, rules, outs, u) == (Singletons(rules), u)
  {
    if rules == [] {
    } else {
      assert Stable(rules[0], outs, u);
      StableChildren(parent, rules[1..], outs, u);
      assert Singletons(rules) == [[rules[0]]] + Singletons(rules[1..]);
    }
  }

  lemma RebuildTwice(parent: Value, mode: string, rules: seq<Value>)
    ensures RebuildLogical(RebuildLogical(parent, mode, rules), mode, rules) == RebuildLogical(parent, mode, rules)
  {
    var r := RebuildLogical(parent, mode, rules);
    var rr := RebuildLogical(r, mode, rules);
    forall k ensures Get(rr, k) == Get(r, k) {
      RebuildLookup(parent, mode, rules, k);
      RebuildLookup(r, mode, rules, k);
    }
    assert forall k :: k in rr.fields <==> Get(rr, k).Some?;
    assert forall k :: k in r.fields <==> Get(r, k).Some?;
    assert rr.fields == r.fields;
  }

  lemma LogicalExpands(r: Value, mode: string, rules: seq<Value>, outs: set<string>, u: Tables)
    requires r.Obj? && !Has(r, Inbound) && OutboundOk(r, outs) && IsLogical(r) && GetArr(r, Rules) == Some(rules)
    requires (IsOr(r) <==> mode == "or") && (mode == "and" || (mode == "or" && rules != []))
    requires AllStable(rules, outs, u)
    ensures ExpandShareRules(r, outs, u) == ([RebuildLogical(r, mode, rules)], u)
  {
    StableChildren(r, rules, outs, u);
    SingletonLists(rules);
  }

  lemma LogicalStable(parent: Value, mode: string, rules: seq<Value>, outs: set<string>, u: Tables)
    requires OutboundOk(parent, outs) && AllStable(rules, outs, u)
    requires mode == "and" || (mode == "or" && rules != [])
    ensures Stable(RebuildLogical(parent, mode, rules), outs, u)
  {
    var r := RebuildLogical(parent, mode, rules);
    RebuildFacts(parent, mode, rules);
    RebuildLookup(parent, mode, rules, Inbound);
    RebuildLookup(parent, mode, rules, Outbound);
    LogicalExpands(r, mode, rules, outs, u);
    RebuildTwice(parent, mode, rules);
  }

  // ---- compiled geo rules

  lemma AtomStable(l: Literal, outs: set<string>, u: Tables)
    requires l.atom.InSet? ==> l.atom.tag in u.tags
    ensures Stable(AtomRule(l), outs, u)
  {
    LeafStable(AtomRule(l), outs, u);
  }

  lemma SetValueKnown(tags: seq<string>, known: set<string>)
    requires forall tag :: tag in tags ==> tag in known
    ensures RuleSetFieldKnown(Obj(map[RuleSet := RuleSetValue(tags)]), known)
  {}

  lemma PlainPartStable(atoms: seq<Literal>, outs: set<string>, u: Tables)
    requires atoms != [] && TagsKnown(atoms, u.tags) && PlainSets(atoms)
    ensures Stable(OrAtoms(atoms), outs, u) && RuleSetRefsKnown(OrAtoms(atoms), u.tags) && HasMatcher(OrAtoms(atoms))
  {
    var tags := seq(|atoms|, i requires 0 <= i < |atoms| => atoms[i].atom.tag);
    assert forall i :: 0 <= i < |atoms| ==> atoms[i] in atoms;
    SetValueKnown(tags, u.tags);
    assert RuleSet in OrAtoms(atoms).fields;
    LeafStable(OrAtoms(atoms), outs, u);
  }

  lemma AtomPartStable(l: Literal, outs: set<string>, u: Tables)
    requires l.atom.InSet? ==> l.atom.tag in u.tags
    ensures Stable(AtomRule(l), outs, u) && RuleSetRefsKnown(AtomRule(l), u.tags) && HasMatcher(AtomRule(l))
  {
    AtomStable(l, outs, u);
    assert RuleSet in AtomRule(l).fields || IpIsPrivate in AtomRule(l).fields;
  }

  /** One compiled list, alone or below an `and`. */
  lemma PartStable(atoms: seq<Literal>, outs: set<string>, u: Tables)
    requires atoms != [] && TagsKnown(atoms, u.tags)
    ensures Stable(OrAtoms(atoms), outs, u) && RuleSetRefsKnown(OrAtoms(atoms), u.tags) && HasMatcher(OrAtoms(atoms))
  {
    if PlainSets(atoms) {
      PlainPartStable(atoms, outs, u);
    } else if |atoms| == 1 {
      assert atoms[0] in atoms;
      AtomPartStable(atoms[0], outs, u);
    } else {
      var rules := SubRules(OrAtoms(atoms));
      forall i | 0 <= i < |rules| ensures Stable(rules[i], outs, u) && RuleSetRefsKnown(rules[i], u.tags) {
        assert atoms[i] in atoms;
        AtomPartStable(atoms[i], outs, u);
      }
      LogicalStable(Null, "or", rules, outs, u);
      assert OrAtoms(atoms) == RebuildLogical(Null, "or", rules);
    }
  }

  lemma MergeLookup(base: map<Key, Value>, child: map<Key, Value>, k: Key)
    requires PartShaped(Obj(child)) && k != Invert
    ensures Get(Obj(MergeRuleFields(MetaOf(base), child)), k) == if MetaKey(k) then Get(Obj(base), k)
      else Get(Obj(child), k)
  {}

  lemma MergedOrShape(base: map<Key, Value>, p: Value)
    requires PartShaped(p) && p.fields == LogicalFields("or", SubRules(p))
    ensures var r := Obj(MergeRuleFields(MetaOf(base), p.fields)); r == RebuildLogical(r, "or", SubRules(p))
  {
    var r := Obj(MergeRuleFields(MetaOf(base), p.fields));
    var rr := RebuildLogical(r, "or", SubRules(p));
    forall k ensures Get(r, k) == Get(rr, k) {
      RebuildLookup(r, "or", SubRules(p), k);
      if k != Invert { MergeLookup(base, p.fields, k); }
    }
    SameFields(r, rr);
  }

  lemma AtomRulesStable(atoms: seq<Literal>, outs: set<string>, u: Tables)
    requires atoms != [] && TagsKnown(atoms, u.tags) && IsLogical(OrAtoms(atoms))
    ensures var p := OrAtoms(atoms);
      AllStable(SubRules(p), outs, u) && |SubRules(p)| == |atoms| && p.fields == LogicalFields("or", SubRules(p))
  {
    forall i | 0 <= i < |atoms| ensures Stable(SubRules(OrAtoms(atoms))[i], outs, u) {
      assert atoms[i] in atoms;
      AtomStable(atoms[i], outs, u);
    }
  }

  lemma GroupRefs(parent: Value, mode: string, rules: seq<Value>, tags: set<string>)
    requires rules != [] && forall i :: 0 <= i < |rules| ==> RuleSetRefsKnown(rules[i], tags)
    ensures var r := RebuildLogical(parent, mode, rules); RuleSetRefsKnown(r, tags) && HasMatcher(r)
  {
    RebuildFacts(parent, mode, rules);
    RebuildLookup(parent, mode, rules, RuleSet);
  }

  lemma MergedOrStable(parent: Value, atoms: seq<Literal>, outs: set<string>, u: Tables)
    requires parent.Obj? && OutboundOk(parent, outs) && atoms != [] && TagsKnown(atoms, u.tags) &&
      IsLogical(OrAtoms(atoms))
    ensures var r := Obj(MergeRuleFields(MetaOf(parent.fields), OrAtoms(atoms).fields));
      Stable(r, outs, u) && RuleSetRefsKnown(r, u.tags) && HasMatcher(r)
  {
    var p := OrAtoms(atoms);
    var r := Obj(MergeRuleFields(MetaOf(parent.fields), p.fields));
    var rules := SubRules(p);
    PartStable(atoms, outs, u);
    PartFacts(atoms);
    AtomRulesStable(atoms, outs, u);
    MergedOrShape(parent.fields, p);
    MergeLookup(parent.fields, p.fields, Outbound);
    LogicalStable(r, "or", rules, outs, u);
    GroupRefs(r, "or", rules, u.tags);
  }

  /** Merging one compiled list into the action fields. */
  lemma MergedStable(parent: Value, atoms: seq<Literal>, outs: set<string>, u: Tables)
    requires parent.Obj? && OutboundOk(parent, outs) && atoms != [] && TagsKnown(atoms, u.tags)
    ensures var r := Obj(MergeRuleFields(MetaOf(parent.fields), OrAtoms(atoms).fields));
      Stable(r, outs, u) && RuleSetRefsKnown(r, u.tags) && HasMatcher(r)
  {
    if IsLogical(OrAtoms(atoms)) {
      MergedOrStable(parent, atoms, outs, u);
    } else {
      var p := OrAtoms(atoms);
      PartStable(atoms, outs, u);
      PartFacts(atoms);
      OrAtomsLeaf(atoms);
      MergedLeafStable(parent, p, outs, u);
    }
  }

  lemma OrAtomsLeaf(atoms: seq<Literal>)
    requires atoms != []
    ensures NoGeo(OrAtoms(atoms)) && !Has(OrAtoms(atoms), Inbound)
  {}

  lemma MergedLeafStable(parent: Value, p: Value, outs: set<string>, u: Tables)
    requires parent.Obj? && OutboundOk(parent, outs) && PartShaped(p) && !IsLogical(p) && NoGeo(p) && !Has(p, Inbound)
    requires RuleSetRefsKnown(p, u.tags) && HasMatcher(p)
    ensures var r := Obj(MergeRuleFields(MetaOf(parent.fields), p.fields));
      Stable(r, outs, u) && RuleSetRefsKnown(r, u.tags) && HasMatcher(r)
  {
    MergeLookup(parent.fields, p.fields, Outbound);
    MergedLeaf(parent.fields, p);
    MergedMatcher(parent.fields, p);
    LeafStable(Obj(MergeRuleFields(MetaOf(parent.fields), p.fields)), outs, u);
  }

  lemma MergedMatcher(base: map<Key, Value>, p: Value)
    requires PartShaped(p) && !IsLogical(p) && HasMatcher(p)
    ensures HasMatcher(Obj(MergeRuleFields(MetaOf(base), p.fields)))
  {
    var k :| k in p.fields && !MetaKey(k);
    MergeLookup(base, p.fields, k);
    assert k in MergeRuleFields(MetaOf(base), p.fields);
  }

  lemma MergedLeaf(base: map<Key, Value>, p: Value)
    requires PartShaped(p) && !IsLogical(p) && NoGeo(p) && !Has(p, Inbound)
    ensures var r := Obj(MergeRuleFields(MetaOf(base), p.fields));
      !IsLogical(r) && NoGeo(r) && !Has(r, Inbound) && Get(r, RuleSet) == Get(p, RuleSet)
  {
    var r := Obj(MergeRuleFields(MetaOf(base), p.fields));
    forall k | !MetaKey(k) ensures Get(r, k) == Get(p, k) { MergeLookup(base, p.fields, k); }
    assert Get(r, Type) == Get(p, Type);
    assert Get(r, Geoip) == Get(p, Geoip) && Get(r, Geosite) == Get(p, Geosite);
    assert Get(r, Inbound) == Get(p, Inbound);
  }

  lemma RestStable(base: map<Key, Value>, outs: set<string>, u: Tables)
    requires !IsLogical(Obj(base)) && NoGeo(Obj(base)) && Inbound !in base
    ensures var rest := MatchersOf(base) - {RuleSet};
      Stable(Obj(rest), outs, u) && RuleSetRefsKnown(Obj(rest), u.tags)
  {
    var rest := MatchersOf(base) - {RuleSet};
    assert Get(Obj(rest), Type) == Get(Obj(base), Type);
    assert Get(Obj(rest), Outbound) == None;
    LeafStable(Obj(rest), outs, u);
  }

  lemma ExistingStable(base: map<Key, Value>, existing: seq<string>, outs: set<string>, u: Tables)
    requires RuleSet in base && existing == RuleSetList(base[RuleSet]) && RuleSetFieldKnown(Obj(base), u.tags)
    ensures var r := Obj(map[RuleSet := RuleSetValue(existing)]);
      Stable(r, outs, u) && RuleSetRefsKnown(r, u.tags)
  {
    if base[RuleSet].Arr? {
      StrItemsOfStrs<Key>(base[RuleSet].items);
    }
    SetValueKnown(existing, u.tags);
    LeafStable(Obj(map[RuleSet := RuleSetValue(existing)]), outs, u);
  }

  lemma PartsStable(base: map<Key, Value>, ips: seq<Literal>, sites: seq<Literal>, outs: set<string>, u: Tables)
    requires !IsLogical(Obj(base)) && NoGeo(Obj(base)) && Inbound !in base && RuleSetFieldKnown(Obj(base), u.tags)
    requires TagsKnown(ips, u.tags) && TagsKnown(sites, u.tags)
    ensures forall c :: c in AndChildren(base, Parts(ips) + Parts(sites)) ==>
      Stable(c, outs, u) && RuleSetRefsKnown(c, u.tags)
  {
    if ips != [] { PartStable(ips, outs, u); }
    if sites != [] { PartStable(sites, outs, u); }
    RestStable(base, outs, u);
    if RuleSet in base { ExistingStable(base, RuleSetList(base[RuleSet]), outs, u); }
  }

  lemma CompiledStable(base: map<Key, Value>, ips: seq<Literal>, sites: seq<Literal>, outs: set<string>, u: Tables)
    requires !IsLogical(Obj(base)) && NoGeo(Obj(base)) && Inbound !in base && OutboundOk(Obj(base), outs)
    requires RuleSetFieldKnown(Obj(base), u.tags) && TagsKnown(ips, u.tags) && TagsKnown(sites, u.tags)
    requires ips != [] || sites != []
    ensures var r := AndRuleParts(base, Parts(ips) + Parts(sites));
      Stable(r, outs, u) && RuleSetRefsKnown(r, u.tags) && HasMatcher(r)
  {
    var parts := Parts(ips) + Parts(sites);
    var children := AndChildren(base, parts);
    assert children[|children| - 1] == parts[|parts| - 1];
    if |children| == 1 {
      var atoms := if sites != [] then sites else ips;
      assert children[0] == OrAtoms(atoms);
      MergedStable(Obj(base), atoms, outs, u);
    } else {
      PartsStable(base, ips, sites, outs, u);
      assert forall i :: 0 <= i < |children| ==> children[i] in children;
      ConjunctionStable(Obj(base), children, outs, u);
    }
  }

  lemma ConjunctionStable(base: Value, children: seq<Value>, outs: set<string>, u: Tables)
    requires OutboundOk(base, outs) && AllStable(children, outs, u) && children != []
    requires forall i :: 0 <= i < |children| ==> RuleSetRefsKnown(children[i], u.tags)
    ensures var r := RebuildLogical(base, "and", children);
      Stable(r, outs, u) && RuleSetRefsKnown(r, u.tags) && HasMatcher(r)
  {
    LogicalStable(base, "and", children, outs, u);
    GroupRefs(base, "and", children, u.tags);
  }

  /** The last check of the rewrite never drops a rule: everything it refers to
      was just defined. */
  lemma RewriteStable(rule: Value, outs: set<string>, t: Tables, u: Tables)
    requires rule.Obj? && !IsLogical(rule) && !Has(rule, Inbound) && OutboundOk(rule, outs)
    requires RewriteGeoShareRule(rule, t).1.tags <= u.tags
    ensures var (out, t') := RewriteGeoShareRule(rule, t);
      && t.tags <= t'.tags && AllStable(out, outs, u)
      && (RuleSetFieldKnown(rule, t.tags) && (NoGeo(rule) || ConditionLeft(rule)) ==> out != [])
  {
    if NoGeo(rule) {
      PlainRuleStable(rule, outs, t, u);
    } else {
      var base := rule.fields - {Geoip, Geosite};
      var (ips, t1) := GeoAtoms(GeoIp, rule, t);
      var (sites, t2) := GeoAtoms(GeoSite, rule, t1);
      BaseShape(rule, base);
      GeoAtomsTables(GeoIp, rule, t);
      GeoAtomsTables(GeoSite, rule, t1);
      if RuleSetFieldKnown(Obj(base), t.tags) {
        RefsKnownMonotone(Obj(base), t.tags, t2.tags);
        RefsKnownMonotone(Obj(base), t.tags, u.tags);
        if ips == [] && sites == [] {
          LeafStable(Obj(base), outs, u);
        } else {
          CompiledStable(base, ips, sites, outs, t2);
          CompiledStable(base, ips, sites, outs, u);
        }
      }
    }
  }

  lemma PlainRuleStable(rule: Value, outs: set<string>, t: Tables, u: Tables)
    requires rule.Obj? && !IsLogical(rule) && !Has(rule, Inbound) && OutboundOk(rule, outs) && NoGeo(rule) &&
      t.tags <= u.tags
    ensures RuleSetFieldKnown(rule, t.tags) ==> Stable(rule, outs, u) && RewriteGeoShareRule(rule, t) == ([rule], t)
    ensures !RuleSetFieldKnown(rule, t.tags) ==> RewriteGeoShareRule(rule, t) == ([], t)
  {
    if RuleSetRefsKnown(rule, t.tags) {
      RefsKnownMonotone(rule, t.tags, u.tags);
      LeafStable(rule, outs, u);
    }
  }

  lemma BaseShape(rule: Value, base: map<Key, Value>)
    requires rule.Obj? && !IsLogical(rule) && base == rule.fields - {Geoip, Geosite}
    ensures !IsLogical(Obj(base)) && NoGeo(Obj(base))
    ensures Get(Obj(base), RuleSet) == Get(rule, RuleSet) && Get(Obj(base), Outbound) == Get(rule, Outbound)
    ensures Get(Obj(base), Inbound) == Get(rule, Inbound)
  {
    assert Get(Obj(base), Type) == Get(rule, Type);
  }

  /** Some code of the rule survives. */
  predicate GeoEmits(rule: Value) {
    || (Has(rule, Geoip) && KeptLiterals(GeoIp, GeoCodes(rule.fields[Geoip])) != {})
    || (Has(rule, Geosite) && KeptLiterals(GeoSite, GeoCodes(rule.fields[Geosite])) != {})
  }

  /** Compiling the geo lists leaves some condition. */
  predicate ConditionLeft(rule: Value)
    requires rule.Obj?
  {
    HasMatcher(Obj(rule.fields - {Geoip, Geosite})) || GeoEmits(rule)
  }

  lemma GeoAtomsTables(kind: GeoKind, rule: Value, t: Tables)
    ensures var (atoms, t') := GeoAtoms(kind, rule, t);
      && t.tags <= t'.tags && TagsKnown(atoms, t'.tags)
      && (atoms != [] <==> Has(rule, KindKey(kind)) && KeptLiterals(kind, GeoCodes(rule.fields[KindKey(kind)])) != {})
  {
    if Has(rule, KindKey(kind)) {
      GeoAtomsKept(kind, GeoCodes(rule.fields[KindKey(kind)]), t);
      var atoms := GeoAtoms(kind, rule, t).0;
      if atoms != [] { assert atoms[0] in AtomSet(atoms); }
    }
  }

  // ---- whole trees and lists

  lemma {:induction false} ExpandStable(rule: Value, outs: set<string>, t: Tables, u: Tables)
    requires ExpandShareRules(rule, outs, t).1.tags <= u.tags
    ensures t.tags <= ExpandShareRules(rule, outs, t).1.tags
    ensures AllStable(ExpandShareRules(rule, outs, t).0, outs, u)
    decreases rule, 0
  {
    var (out, t') := ExpandShareRules(rule, outs, t);
    if !rule.Obj? || Has(rule, Inbound) || !OutboundOk(rule, outs) {
    } else if !IsLogical(rule) {
      RewriteStable(rule, outs, t, u);
    } else if GetArr(rule, Rules).Some? {
      var expanded := ExpandChildren(rule, SubRules(rule), outs, t).0;
      ExpandChildrenStable(rule, SubRules(rule), outs, t, u);
      if out != [] {
        var kept := Flatten(expanded);
        if !IsOr(rule) { WrappedIsFlat(expanded); }
        var mode := if IsOr(rule) then "or" else "and";
        assert out[0] == RebuildLogical(rule, mode, kept);
        LogicalStable(rule, mode, kept, outs, u);
      }
    }
  }

  lemma {:induction false} WrappedIsFlat(lists: seq<seq<Value>>)
    requires forall i :: 0 <= i < |lists| ==> |lists[i]| == 1
    ensures Wrapped(lists) == Flatten(lists)
  {
    if lists == [] {
    } else {
      WrappedIsFlat(lists[1..]);
      assert lists[0] == [lists[0][0]];
    }
  }

  lemma {:induction false} ExpandChildrenStable(parent: Value, rules: seq<Value>, outs: set<string>, t: Tables,
      u: Tables)
    requires forall i :: 0 <= i < |rules| ==> rules[i] < parent
    requires ExpandChildren(parent, rules, outs, t).1.tags <= u.tags
    ensures t.tags <= ExpandChildren(parent, rules, outs, t).1.tags
    ensures AllStable(Flatten(ExpandChildren(parent, rules, outs, t).0), outs, u)
    decreases parent, 0, |rules|
  {
    if rules == [] {
    } else {
      var (first, t1) := ExpandShareRules(rules[0], outs, t);
      var (rest, t2) := ExpandChildren(parent, rules[1..], outs, t1);
      ExpandChildrenStable(parent, rules[1..], outs, t1, u);
      ExpandStable(rules[0], outs, t, u);
      assert ([first] + rest)[1..] == rest;
    }
  }

  lemma {:induction false} ExpandListStable(rules: seq<Value>, outs: set<string>, t: Tables, u: Tables)
    requires ExpandList(rules, outs, t).1.tags <= u.tags
    ensures t.tags <= ExpandList(rules, outs, t).1.tags
    ensures AllStable(ExpandList(rules, outs, t).0, outs, u)
  {
    if rules == [] {
    } else {
      var (first, t1) := ExpandShareRules(rules[0], outs, t);
      ExpandListStable(rules[1..], outs, t1, u);
      ExpandStable(rules[0], outs, t, u);
    }
  }

  lemma {:induction false} StableList(rules: seq<Value>, outs: set<string>, u: Tables)
    requires AllStable(rules, outs, u)
    ensures ExpandList(rules, outs, u) == (rules, u)
  {
    if rules == [] {
    } else {
      assert Stable(rules[0], outs, u);
      StableList(rules[1..], outs, u);
      assert rules == [rules[0]] + rules[1..];
    }
  }

  /** Sharing a shared list again, with the tables it ended with, is the identity. */
  lemma ShareTwice(rules: seq<Value>, outs: set<string>, t: Tables)
    ensures var (out, u) := ExpandList(rules, outs, t);
      ExpandList(out, outs, u) == (out, u)
  {
    var (out, u) := ExpandList(rules, outs, t);
    ExpandListStable(rules, outs, t, u);
    StableList(out, outs, u);
  }

  // ---- what a stable rule looks like

  /** Nested rules appear only under `type: logical`. */
  predicate WellFormed(rule: Value)
    decreases rule
  {
    (!IsLogical(rule) ==> GetArr(rule, Rules) == None) &&
    forall i :: 0 <= i < |SubRules(rule)| ==> WellFormed(SubRules(rule)[i])
  }

  predicate GeoFree(rule: Value)
    decreases rule
  {
    NoGeo(rule) && forall i :: 0 <= i < |SubRules(rule)| ==> GeoFree(SubRules(rule)[i])
  }

  predicate AllGeoFree(rules: seq<Value>) {
    forall i :: 0 <= i < |rules| ==> GeoFree(rules[i])
  }

  lemma {:induction false} ExpandGeoFree(rule: Value, outs: set<string>, t: Tables)
    requires WellFormed(rule)
    ensures AllGeoFree(ExpandShareRules(rule, outs, t).0)
    decreases rule, 0
  {
    var out := ExpandShareRules(rule, outs, t).0;
    if out == [] {
    } else {
      if IsLogical(rule) {
        var expanded := ExpandChildren(rule, SubRules(rule), outs, t).0;
        ChildrenGeoFree(rule, SubRules(rule), outs, t);
        if !IsOr(rule) { WrappedIsFlat(expanded); }
        var mode := if IsOr(rule) then "or" else "and";
        LogicalGeoFree(rule, mode, Flatten(expanded));
      } else {
        RewriteGeoFree(rule, t);
      }
    }
  }

  lemma LogicalGeoFree(parent: Value, mode: string, rules: seq<Value>)
    requires AllGeoFree(rules)
    ensures GeoFree(RebuildLogical(parent, mode, rules))
  {
    RebuildFacts(parent, mode, rules);
    RebuildLookup(parent, mode, rules, Geoip);
    RebuildLookup(parent, mode, rules, Geosite);
  }

  lemma {:induction false} ChildrenGeoFree(parent: Value, rules: seq<Value>, outs: set<string>, t: Tables)
    requires forall i :: 0 <= i < |rules| ==> rules[i] < parent && WellFormed(rules[i])
    ensures AllGeoFree(Flatten(ExpandChildren(parent, rules, outs, t).0))
    decreases parent, 0, |rules|
  {
    if rules == [] {
    } else {
      var (first, t1) := ExpandShareRules(rules[0], outs, t);
      var rest := ExpandChildren(parent, rules[1..], outs, t1).0;
      ExpandGeoFree(rules[0], outs, t);
      ChildrenGeoFree(parent, rules[1..], outs, t1);
      assert ([first] + rest)[1..] == rest;
    }
  }

  lemma PartGeoFree(atoms: seq<Literal>)
    requires atoms != []
    ensures GeoFree(OrAtoms(atoms))
  {
    forall i | 0 <= i < |atoms| ensures GeoFree(AtomRule(atoms[i])) {}
  }

  lemma RewriteGeoFree(rule: Value, t: Tables)
    requires rule.Obj? && !IsLogical(rule) && GetArr(rule, Rules) == None
    ensures var out := RewriteGeoShareRule(rule, t).0; out != [] ==> GeoFree(out[0])
  {
    if Has(rule, Geoip) || Has(rule, Geosite) {
      var base := rule.fields - {Geoip, Geosite};
      var (ips, t1) := GeoAtoms(GeoIp, rule, t);
      var sites := GeoAtoms(GeoSite, rule, t1).0;
      assert Get(Obj(base), Rules) == Get(rule, Rules);
      if ips != [] || sites != [] {
        CompiledGeoFree(base, ips, sites);
      } else {
        LeafGeoFree(Obj(base));
      }
    }
  }

  lemma LeafGeoFree(r: Value)
    requires NoGeo(r) && GetArr(r, Rules) == None
    ensures GeoFree(r)
  {}

  lemma ConjunctsGeoFree(base: map<Key, Value>, parts: seq<Value>)
    requires NoGeo(Obj(base)) && GetArr(Obj(base), Rules) == None
    requires AllGeoFree(parts)
    ensures AllGeoFree(AndChildren(base, parts))
  {
    var rest := Obj(MatchersOf(base) - {RuleSet});
    assert Get(rest, Rules) == Get(Obj(base), Rules);
    LeafGeoFree(rest);
    forall v: Value ensures GeoFree(Obj(map[RuleSet := v])) { LeafGeoFree(Obj(map[RuleSet := v])); }
  }

  lemma CompiledGeoFree(base: map<Key, Value>, ips: seq<Literal>, sites: seq<Literal>)
    requires NoGeo(Obj(base)) && GetArr(Obj(base), Rules) == None && (ips != [] || sites != [])
    ensures GeoFree(AndRuleParts(base, Parts(ips) + Parts(sites)))
  {
    var parts := Parts(ips) + Parts(sites);
    var children := AndChildren(base, parts);
    if ips != [] { PartGeoFree(ips); }
    if sites != [] { PartGeoFree(sites); }
    ConjunctsGeoFree(base, parts);
    assert children[|children| - 1] == parts[|parts| - 1];
    if |children| == 1 {
      var atoms := if sites != [] then sites else ips;
      assert children[0] == OrAtoms(atoms);
      PartFacts(atoms);
      MergedGeoFree(base, OrAtoms(atoms));
    } else {
      LogicalGeoFree(Obj(base), "and", children);
    }
  }

  lemma MergedGeoFree(base: map<Key, Value>, p: Value)
    requires PartShaped(p) && GeoFree(p)
    ensures GeoFree(Obj(MergeRuleFields(MetaOf(base), p.fields)))
  {
    var r := Obj(MergeRuleFields(MetaOf(base), p.fields));
    MergeLookup(base, p.fields, Geoip);
    MergeLookup(base, p.fields, Geosite);
    MergeLookup(base, p.fields, Rules);
    assert SubRules(r) == SubRules(p);
  }
}
