/** The definitions a shared document carries: what sharing adds to the table of
    rule-sets, and that no shared rule refers to one that is not there. */
module ShareDefinitions {
  import opened JsonValue
  import opened RuleKeys
  import opened RuleSemantics
  import opened RuleRefs
  import opened GeoBuild
  import opened GeoFiles
  import opened RouteBuild
  import opened RouteValidation
  import opened ShareRules
  import opened GeoListProofs
  import opened ShareMeaning
  import opened ShareNormalForm
  import opened SharePortable

  // ---- what is added

  /** The remote copy a code is shared as. */
  predicate RemoteCopy(s: Value, kind: GeoKind, code: string) {
    && s.Obj? && s.fields.Keys == {Type, Tag, Format, Url}
    && GetStr(s, Type) == Some("remote") && GetStr(s, Format) == Some("binary")
    && GetStr(s, Tag) == Some(KindName(kind) + "-" + code)
    && GetStr(s, Url) == Some(CodeUrl(kind, code))
  }

  /** Such a copy, whose tag is one of `names` and was not taken. */
  ghost predicate NewCopy(s: Value, names: set<string>, taken: set<string>) {
    exists kind, code ::
      RemoteCopy(s, kind, code) && GeoCodeOk(code) && GeoTag(kind, code) in names && GeoTag(kind, code) !in taken
  }

  /** New copies, one for a tag. */
  ghost predicate NewCopies(added: seq<Value>, names: set<string>, taken: set<string>) {
    && (forall i :: 0 <= i < |added| ==> NewCopy(added[i], names, taken))
    && forall i, j :: 0 <= i < j < |added| ==> GetStr(added[i], Tag) != GetStr(added[j], Tag)
  }

  /** What was appended to the definitions. */
  function Added(t: Tables, t': Tables): seq<Value>
    requires t.sets <= t'.sets
  {
    t'.sets[|t.sets|..]
  }

  /** Definitions only grow, at the end, by new copies, and the tags by theirs. */
  ghost predicate Defines(t: Tables, names: set<string>, t': Tables) {
    t.sets <= t'.sets && NewCopies(Added(t, t'), names, t.tags) && t'.tags == t.tags + TagsOf(Added(t, t'))
  }

  lemma TagsOfConcat(a: seq<Value>, b: seq<Value>)
    ensures TagsOf(a + b) == TagsOf(a) + TagsOf(b)
  {
    forall tag | tag in TagsOf(a) ensures tag in TagsOf(a + b) {
      var i :| 0 <= i < |a| && GetStr(a[i], Tag) == Some(tag);
      assert (a + b)[i] == a[i];
    }
    forall tag | tag in TagsOf(b) ensures tag in TagsOf(a + b) {
      var i :| 0 <= i < |b| && GetStr(b[i], Tag) == Some(tag);
      assert (a + b)[|a| + i] == b[i];
    }
    forall tag | tag in TagsOf(a + b) ensures tag in TagsOf(a) + TagsOf(b) {
      var i :| 0 <= i < |a + b| && GetStr((a + b)[i], Tag) == Some(tag);
      if i >= |a| { assert b[i - |a|] == (a + b)[i]; }
    }
  }

  lemma AddedTwice(t: Tables, t1: Tables, t2: Tables)
    requires t.sets <= t1.sets <= t2.sets
    ensures Added(t, t2) == Added(t, t1) + Added(t1, t2)
  {}

  lemma NewCopyElsewhere(s: Value, names: set<string>, taken: set<string>, more: set<string>, fewer: set<string>)
    requires NewCopy(s, names, taken) && names <= more && fewer <= taken
    ensures NewCopy(s, more, fewer)
  {
    var kind, code :| RemoteCopy(s, kind, code) && GeoCodeOk(code) && GeoTag(kind, code) in names &&
      GeoTag(kind, code) !in taken;
    assert GeoTag(kind, code) in more;
  }

  /** Its tag is one that was not taken. */
  lemma NewCopyTag(s: Value, names: set<string>, taken: set<string>)
    requires NewCopy(s, names, taken)
    ensures GetStr(s, Tag).Some? && GetStr(s, Tag).value in names && GetStr(s, Tag).value !in taken
  {}

  lemma NewCopiesConcat(first: seq<Value>, a: set<string>, second: seq<Value>, b: set<string>, taken: set<string>)
    requires NewCopies(first, a, taken) && NewCopies(second, b, taken + TagsOf(first))
    ensures NewCopies(first + second, a + b, taken)
  {
    var all := first + second;
    forall i | 0 <= i < |all| ensures NewCopy(all[i], a + b, taken) {
      if i < |first| {
        NewCopyElsewhere(first[i], a, taken, a + b, taken);
      } else {
        NewCopyElsewhere(second[i - |first|], b, taken + TagsOf(first), a + b, taken);
      }
    }
    forall i, j | 0 <= i < j < |all| ensures GetStr(all[i], Tag) != GetStr(all[j], Tag) {
      if i < |first| <= j {
        NewCopyTag(first[i], a, taken);
        NewCopyTag(second[j - |first|], b, taken + TagsOf(first));
        assert GetStr(first[i], Tag).value in TagsOf(first);
      }
    }
  }

  lemma DefinesNothing(t: Tables, names: set<string>)
    ensures Defines(t, names, t)
  {}

  lemma DefinesTwice(t: Tables, a: set<string>, t1: Tables, b: set<string>, t2: Tables)
    requires Defines(t, a, t1) && Defines(t1, b, t2)
    ensures Defines(t, a + b, t2)
  {
    AddedTwice(t, t1, t2);
    TagsOfConcat(Added(t, t1), Added(t1, t2));
    NewCopiesConcat(Added(t, t1), a, Added(t1, t2), b, t.tags);
  }

  lemma EnsureDefines(kind: GeoKind, code: string, t: Tables)
    ensures var (tag, t') := EnsureShareGeoSet(kind, code, t);
      && Defines(t, {GeoTag(kind, code)}, t')
      && (tag.Some? <==> GeoCodeOk(code)) && (tag.Some? ==> tag.value == GeoTag(kind, code) && tag.value in t'.tags)
  {
    var tag := GeoTag(kind, code);
    var t' := EnsureShareGeoSet(kind, code, t).1;
    UrlOfTag(kind, code);
    assert RemoteCopy(RemoteSet(tag), kind, code);
    if t' != t {
      assert Added(t, t') == [RemoteSet(tag)];
      assert NewCopy(RemoteSet(tag), {tag}, t.tags);
      assert [RemoteSet(tag)][0] == RemoteSet(tag);
    }
  }

  // ---- lists, rules and documents

  lemma AtomDefines(kind: GeoKind, code: string, atoms: seq<Literal>, t: Tables)
    ensures Defines(t, ListTags(kind, [code]), PushGeoAtom(kind, code, atoms, t).1)
  {
    if !NamesPrivate(kind, BareCode(code)) && GeoCodeOk(BareCode(code)) {
      EnsureDefines(kind, BareCode(code), t);
      assert ListTags(kind, [code]) == {GeoTag(kind, BareCode(code))};
    }
  }

  lemma {:induction false} AtomsDefine(kind: GeoKind, codes: seq<string>, atoms: seq<Literal>, t: Tables)
    ensures Defines(t, ListTags(kind, codes), PushGeoAtoms(kind, codes, atoms, t).1)
  {
    if codes == [] {
    } else {
      var (atoms', t1) := PushGeoAtom(kind, codes[0], atoms, t);
      AtomDefines(kind, codes[0], atoms, t);
      AtomsDefine(kind, codes[1..], atoms', t1);
      DefinesTwice(t, ListTags(kind, [codes[0]]), t1, ListTags(kind, codes[1..]),
                   PushGeoAtoms(kind, codes, atoms, t).1);
      ListTagsCons(kind, codes[0], codes[1..]);
      assert codes == [codes[0]] + codes[1..];
    }
  }

  lemma OwnListDefines(kind: GeoKind, rule: Value, t: Tables)
    ensures Defines(t, OwnTags(kind, rule), GeoAtoms(kind, rule, t).1)
  {
    if Has(rule, KindKey(kind)) { AtomsDefine(kind, GeoCodes(rule.fields[KindKey(kind)]), [], t); }
  }

  lemma RewriteDefines(rule: Value, t: Tables)
    requires rule.Obj? && !IsLogical(rule)
    ensures Defines(t, GeoTags(rule), RewriteGeoShareRule(rule, t).1)
  {
    var t1 := GeoAtoms(GeoIp, rule, t).1;
    var t2 := GeoAtoms(GeoSite, rule, t1).1;
    OwnListDefines(GeoIp, rule, t);
    OwnListDefines(GeoSite, rule, t1);
    DefinesTwice(t, OwnTags(GeoIp, rule), t1, OwnTags(GeoSite, rule), t2);
    DefinesNothing(t, GeoTags(rule));
  }

  /** Sharing a rule adds the remote copies of codes of its own, and nothing else. */
  lemma {:induction false} ExpandDefines(rule: Value, outs: set<string>, t: Tables)
    ensures Defines(t, GeoTags(rule), ExpandShareRules(rule, outs, t).1)
    decreases rule, 0
  {
    if TurnedAway(rule, outs) {
    } else if IsLogical(rule) {
      EachDefines(rule, SubRules(rule), outs, t);
    } else {
      RewriteDefines(rule, t);
    }
  }

  lemma {:induction false} EachDefines(parent: Value, rules: seq<Value>, outs: set<string>, t: Tables)
    requires forall i :: 0 <= i < |rules| ==> rules[i] < parent
    ensures Defines(t, EachTags(parent, rules), ExpandChildren(parent, rules, outs, t).1)
    decreases parent, 0, |rules|
  {
    if rules == [] {
    } else {
      var t1 := ExpandShareRules(rules[0], outs, t).1;
      ExpandDefines(rules[0], outs, t);
      EachDefines(parent, rules[1..], outs, t1);
      DefinesTwice(t, GeoTags(rules[0]), t1, EachTags(parent, rules[1..]), ExpandChildren(parent, rules, outs, t).1);
    }
  }

  lemma {:induction false} ListDefines(rules: seq<Value>, outs: set<string>, t: Tables)
    ensures Defines(t, ListGeoTags(rules), ExpandList(rules, outs, t).1)
  {
    if rules == [] {
    } else {
      var t1 := ExpandShareRules(rules[0], outs, t).1;
      ExpandDefines(rules[0], outs, t);
      ListDefines(rules[1..], outs, t1);
      DefinesTwice(t, GeoTags(rules[0]), t1, ListGeoTags(rules[1..]), ExpandList(rules, outs, t).1);
    }
  }

  /** Every tag the table knows has a definition in it. */
  predicate Closed(t: Tables) {
    t.tags <= TagsOf(t.sets)
  }

  lemma StaysClosed(t: Tables, names: set<string>, t': Tables)
    requires Closed(t) && Defines(t, names, t')
    ensures Closed(t')
  {
    assert t'.sets == t.sets + Added(t, t');
    TagsOfConcat(t.sets, Added(t, t'));
  }

  // ---- every shared reference holds up

  lemma PartOutbounds(atoms: seq<Literal>, outs: set<string>)
    requires atoms != []
    ensures OutboundsKnown(OrAtoms(atoms), outs)
  {
    forall i | 0 <= i < |SubRules(OrAtoms(atoms))| ensures OutboundsKnown(SubRules(OrAtoms(atoms))[i], outs) {}
  }

  lemma ConjunctOutbounds(base: map<Key, Value>, parts: seq<Value>, outs: set<string>)
    requires !IsLogical(Obj(base)) && forall i :: 0 <= i < |parts| ==> OutboundsKnown(parts[i], outs)
    ensures forall i :: 0 <= i < |AndChildren(base, parts)| ==> OutboundsKnown(AndChildren(base, parts)[i], outs)
  {
    var rest := Obj(MatchersOf(base) - {RuleSet});
    assert Get(rest, Type) == Get(Obj(base), Type) && Get(rest, Outbound) == None;
  }

  lemma GroupOutbounds(parent: Value, mode: string, rules: seq<Value>, outs: set<string>)
    requires OwnOutboundKnown(parent, outs) && forall i :: 0 <= i < |rules| ==> OutboundsKnown(rules[i], outs)
    ensures OutboundsKnown(RebuildLogical(parent, mode, rules), outs)
  {
    RebuildFacts(parent, mode, rules);
    RebuildLookup(parent, mode, rules, Outbound);
  }

  lemma MergedOutbounds(base: map<Key, Value>, p: Value, outs: set<string>)
    requires PartShaped(p) && OwnOutboundKnown(Obj(base), outs) && OutboundsKnown(p, outs)
    ensures OutboundsKnown(Obj(MergeRuleFields(MetaOf(base), p.fields)), outs)
  {
    var r := Obj(MergeRuleFields(MetaOf(base), p.fields));
    MergeLookup(base, p.fields, Outbound);
    MergeLookup(base, p.fields, Type);
    MergeLookup(base, p.fields, Rules);
    assert SubRules(r) == SubRules(p);
  }

  lemma CompiledOutbounds(base: map<Key, Value>, ips: seq<Literal>, sites: seq<Literal>, outs: set<string>)
    requires !IsLogical(Obj(base)) && OwnOutboundKnown(Obj(base), outs) && (ips != [] || sites != [])
    ensures OutboundsKnown(AndRuleParts(base, Parts(ips) + Parts(sites)), outs)
  {
    var parts := Parts(ips) + Parts(sites);
    var children := AndChildren(base, parts);
    if ips != [] { PartOutbounds(ips, outs); }
    if sites != [] { PartOutbounds(sites, outs); }
    ConjunctOutbounds(base, parts, outs);
    assert children[|children| - 1] == parts[|parts| - 1];
    if |children| == 1 {
      var atoms := if sites != [] then sites else ips;
      assert children[0] == OrAtoms(atoms);
      PartFacts(atoms);
      MergedOutbounds(base, OrAtoms(atoms), outs);
    } else {
      GroupOutbounds(Obj(base), "and", children, outs);
    }
  }

  lemma LeafResolves(rule: Value, outs: set<string>, t: Tables, sets: seq<Value>)
    requires !TurnedAway(rule, outs) && !IsLogical(rule) && RewriteGeoShareRule(rule, t).1.tags <= TagsOf(sets)
    ensures forall r :: r in RewriteGeoShareRule(rule, t).0 ==> Resolves(r, outs, sets)
  {
    var (out, t') := RewriteGeoShareRule(rule, t);
    if out == [] {
    } else if NoGeo(rule) {
      RefsKnownMonotone(rule, t.tags, TagsOf(sets));
      KnownResolves(rule, sets);
    } else {
      var base := rule.fields - {Geoip, Geosite};
      var (ips, t1) := GeoAtoms(GeoIp, rule, t);
      var (sites, t2) := GeoAtoms(GeoSite, rule, t1);
      BaseShape(rule, base);
      LeafTags(rule, t);
      if ips != [] || sites != [] {
        CompiledOutbounds(base, ips, sites, outs);
        RefsKnownMonotone(out[0], t'.tags, TagsOf(sets));
      } else {
        RefsKnownMonotone(out[0], t.tags, TagsOf(sets));
      }
      KnownResolves(out[0], sets);
    }
  }

  lemma GroupResolves(parent: Value, mode: string, rules: seq<Value>, outs: set<string>, sets: seq<Value>)
    requires OwnOutboundKnown(parent, outs) && forall i :: 0 <= i < |rules| ==> Resolves(rules[i], outs, sets)
    ensures Resolves(RebuildLogical(parent, mode, rules), outs, sets)
  {
    GroupOutbounds(parent, mode, rules, outs);
    RebuildFacts(parent, mode, rules);
    RebuildLookup(parent, mode, rules, RuleSet);
  }

  /** A shared rule names known outbounds and defined sets only, at every depth. */
  lemma {:induction false} ExpandResolves(rule: Value, outs: set<string>, t: Tables, sets: seq<Value>)
    requires ExpandShareRules(rule, outs, t).1.tags <= TagsOf(sets)
    ensures forall r :: r in ExpandShareRules(rule, outs, t).0 ==> Resolves(r, outs, sets)
    decreases rule, 0
  {
    var out := ExpandShareRules(rule, outs, t).0;
    if TurnedAway(rule, outs) || out == [] {
    } else if IsLogical(rule) {
      var expanded := ExpandChildren(rule, SubRules(rule), outs, t).0;
      EachResolves(rule, SubRules(rule), outs, t, sets);
      if !IsOr(rule) { WrappedIsFlat(expanded); }
      GroupResolves(rule, if IsOr(rule) then "or" else "and", Flatten(expanded), outs, sets);
    } else {
      LeafResolves(rule, outs, t, sets);
    }
  }

  lemma {:induction false} EachResolves(parent: Value, rules: seq<Value>, outs: set<string>, t: Tables,
      sets: seq<Value>)
    requires forall i :: 0 <= i < |rules| ==> rules[i] < parent
    requires ExpandChildren(parent, rules, outs, t).1.tags <= TagsOf(sets)
    ensures forall i :: 0 <= i < |Flatten(ExpandChildren(parent, rules, outs, t).0)| ==>
      Resolves(Flatten(ExpandChildren(parent, rules, outs, t).0)[i], outs, sets)
    decreases parent, 0, |rules|
  {
    if rules == [] {
    } else {
      var (first, t1) := ExpandShareRules(rules[0], outs, t);
      var rest := ExpandChildren(parent, rules[1..], outs, t1).0;
      EachTagsBounded(parent, rules[1..], outs, t1);
      ExpandResolves(rules[0], outs, t, sets);
      EachResolves(parent, rules[1..], outs, t1, sets);
      assert ([first] + rest)[1..] == rest;
      assert first != [] ==> first[0] in first;
    }
  }

  lemma {:induction false} ListResolves(rules: seq<Value>, outs: set<string>, t: Tables, sets: seq<Value>)
    requires ExpandList(rules, outs, t).1.tags <= TagsOf(sets)
    ensures t.tags <= ExpandList(rules, outs, t).1.tags
    ensures forall r :: r in ExpandList(rules, outs, t).0 ==> Resolves(r, outs, sets)
  {
    if rules == [] {
    } else {
      var t1 := ExpandShareRules(rules[0], outs, t).1;
      TagsBounded(rules[0], outs, t);
      ListDefines(rules[1..], outs, t1);
      ListResolves(rules[1..], outs, t1, sets);
      ExpandResolves(rules[0], outs, t, sets);
    }
  }

  /** A document whose own sets are defined stays complete: every definition the
      shared rules need is in its final table, whatever the rules are. */
  lemma SharedRulesResolve(rules: seq<Value>, outs: set<string>, t: Tables)
    requires Closed(t)
    ensures var (out, t') := ExpandList(rules, outs, t);
      Closed(t') && forall i :: 0 <= i < |out| ==> Resolves(out[i], outs, t'.sets)
  {
    var (out, t') := ExpandList(rules, outs, t);
    ListDefines(rules, outs, t);
    StaysClosed(t, ListGeoTags(rules), t');
    ListResolves(rules, outs, t, t'.sets);
  }

  /** Route and DNS rules are shared one after the other through one table: the
      final validation can only complain about the default outbound, and the
      DNS rules that came last hold up as well. */
  lemma SharedDocumentValid(rules: seq<Value>, dnsRules: seq<Value>, final: string, outs: set<string>, t: Tables)
    requires Closed(t)
    ensures var (route, t1) := ExpandList(rules, outs, t);
      var (dns, t2) := ExpandList(dnsRules, outs, t1);
      && (ValidateRouteRefs(final, route, t2.sets, outs) == None <==>
            final == "direct" || final == "block" || final in outs)
      && forall i :: 0 <= i < |dns| ==> Resolves(dns[i], outs, t2.sets)
  {
    var (route, t1) := ExpandList(rules, outs, t);
    var (dns, t2) := ExpandList(dnsRules, outs, t1);
    SharedRulesResolve(rules, outs, t);
    SharedRulesResolve(dnsRules, outs, t1);
    ListResolves(dnsRules, outs, t1, t2.sets);
    ListResolves(rules, outs, t, t2.sets);
    forall i | 0 <= i < |route| ensures Resolves(route[i], outs, t2.sets) { assert route[i] in route; }
    ValidRouteExactly(final, route, t2.sets, outs);
  }

  // ---- from the profile to the document

  /** The profile's own sets are in the table, each tag once, and nothing else is. */
  lemma {:induction false} OwnSetsExactly(portable: seq<Value>, t: Tables)
    requires t.tags == TagsOf(t.sets)
    ensures var t' := OwnSets(portable, t);
      && t'.tags == TagsOf(t'.sets) && t'.tags == t.tags + TagsOf(portable)
      && forall s :: s in t'.sets ==> s in t.sets || s in portable
    decreases |portable|
  {
    if portable == [] {
    } else {
      var tag := GetStr(portable[0], Tag);
      var next := if tag.Some? && tag.value !in t.tags
        then Tables(t.sets + [portable[0]], t.tags + {tag.value}) else t;
      TagsOfConcat(t.sets, [portable[0]]);
      TagsOfConcat([portable[0]], portable[1..]);
      TagsOfSingle(portable[0]);
      assert portable == [portable[0]] + portable[1..];
      OwnSetsExactly(portable[1..], next);
    }
  }

  lemma TagsOfSingle(s: Value)
    ensures TagsOf([s]) == if GetStr(s, Tag).Some? then {GetStr(s, Tag).value} else {}
  {
    assert [s][0] == s;
  }

  /** The default outbound of a shared document: the one asked for where it is
      there, the injected selector, a `proxy`, or `direct`. */
  function SharedFinal(wanted: string, selector: Option<string>, outs: set<string>): string {
    if wanted == "direct" || wanted == "block" || wanted in outs then wanted
    else if selector.Some? then selector.value
    else if "proxy" in outs then "proxy" else "direct"
  }

  /** Sharing is never refused for a reference: whatever sets, rules and default a
      profile brings, the document passes the validation at the end. */
  lemma SharingNeverRefused(portable: seq<Value>, rules: seq<Value>, dnsRules: seq<Value>, wanted: string,
      selector: Option<string>, outs: set<string>)
    requires selector.Some? ==> selector.value in outs
    ensures var t := OwnSets(portable, Tables([], {}));
      var (route, t1) := ExpandList(rules, outs, t);
      var t2 := ExpandList(dnsRules, outs, t1).1;
      ValidateRouteRefs(SharedFinal(wanted, selector, outs), route, t2.sets, outs) == None
  {
    var t := OwnSets(portable, Tables([], {}));
    OwnSetsExactly(portable, Tables([], {}));
    SharedDocumentValid(rules, dnsRules, SharedFinal(wanted, selector, outs), outs, t);
  }
}
