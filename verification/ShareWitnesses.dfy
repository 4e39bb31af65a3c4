/** Rules whose shared copy does not mean what they meant: the hypotheses of the
    meaning lemmas cannot be dropped. */
module ShareWitnesses {
  import opened JsonValue
  import opened RuleKeys
  import opened RuleSemantics
  import opened ShareRules
  import opened GeoListProofs
  import opened ShareMeaning
  import opened ShareNormalForm
  import opened SharePortable

  const DOMAIN: Value := Obj(map[Other("domain") := Str("a")])

  const BY_INBOUND: Value := Obj(map[Inbound := Str("in")])

  // ---- lost alternatives

  /** A flow only `BY_INBOUND` matches. */
  ghost function FromInbound(): Flow {
    Flow(iset{}, false, "", iset{(Inbound, Str("in"))})
  }

  /** An `or` whose second alternative names an inbound keeps only the first. The
      copy is then wrong about a flow the lost alternative matched. */
  lemma LostAlternativeFlips(rule: Value, t: Tables)
    requires rule.Obj? && IsLogical(rule) && IsOr(rule) && GetArr(rule, Rules) == Some([DOMAIN, BY_INBOUND])
    requires !Has(rule, Inbound) && OutboundOk(rule, {})
    ensures var out := ExpandShareRules(rule, {}, t).0;
      |out| == 1 && Matches(rule, FromInbound()) == !Inverted(rule) && Matches(out[0], FromInbound()) == Inverted(rule)
  {
    LeafFacts(DOMAIN, BY_INBOUND, FromInbound());
    LeafRuns(DOMAIN, BY_INBOUND, t);
    assert SubRules(rule)[1] == BY_INBOUND;
    LostAlternativeRun(rule, DOMAIN, BY_INBOUND, t);
    RebuildFacts(rule, "or", [DOMAIN]);
    OneMatch(DOMAIN, FromInbound());
  }

  function OrRule(inverted: bool): Value {
    var m := map[Type := Str("logical"), Mode := Str("or"), Rules := Arr([DOMAIN, BY_INBOUND])];
    Obj(if inverted then m[Invert := Bool(true)] else m)
  }

  lemma OrRuleFacts(inverted: bool)
    ensures var rule := OrRule(inverted);
      && IsLogical(rule) && IsOr(rule) && GetArr(rule, Rules) == Some([DOMAIN, BY_INBOUND])
      && !Has(rule, Inbound) && OutboundOk(rule, {}) && Inverted(rule) == inverted
      && Faithful(rule) && (inverted ==> !NoInvertedGroup(rule))
  {
    var rule := OrRule(inverted);
    assert SubRules(rule) == [DOMAIN, BY_INBOUND];
    assert !IsLogical(DOMAIN) && !IsLogical(BY_INBOUND) && Faithful(DOMAIN) && Faithful(BY_INBOUND);
  }

  /** The copy misses a flow of the original. */
  lemma LostAlternativeNarrows(t: Tables)
    ensures var rule := OrRule(false); var out := ExpandShareRules(rule, {}, t).0;
      Faithful(rule) && |out| == 1 && Matches(rule, FromInbound()) && !Matches(out[0], FromInbound())
  {
    OrRuleFacts(false);
    LostAlternativeFlips(OrRule(false), t);
  }

  /** Under `invert` the copy captures a flow the original let pass, so
      `ExpandNeverWidens` needs its hypothesis. */
  lemma InvertedGroupWidens(t: Tables)
    ensures var rule := OrRule(true); var out := ExpandShareRules(rule, {}, t).0;
      && Faithful(rule) && !NoInvertedGroup(rule)
      && |out| == 1 && !Matches(rule, FromInbound()) && Matches(out[0], FromInbound())
  {
    OrRuleFacts(true);
    LostAlternativeFlips(OrRule(true), t);
  }

  lemma LostAlternativeRun(rule: Value, a: Value, b: Value, t: Tables)
    requires rule.Obj? && IsLogical(rule) && IsOr(rule) && GetArr(rule, Rules) == Some([a, b])
    requires !Has(rule, Inbound) && OutboundOk(rule, {})
    requires ExpandShareRules(a, {}, t) == ([a], t) && ExpandShareRules(b, {}, t) == ([], t)
    ensures ExpandShareRules(rule, {}, t).0 == [RebuildLogical(rule, "or", [a])]
  {
    var rules := SubRules(rule);
    assert rules[0] == a && rules[1] == b;
    assert rules[1..] == [b] && [b][1..] == [];
    assert ExpandChildren(rule, [b], {}, t).0 == [[]] + ExpandChildren(rule, [], {}, t).0;
    assert ExpandChildren(rule, rules, {}, t).0 == [[a]] + [[]];
    FlattenPair([a], []);
    assert Flatten([[a]] + [[]]) == [a] + [] == [a];
    var expanded := ExpandChildren(rule, rules, {}, t).0;
    assert Flatten(expanded) == [a];
  }

  lemma LeafFacts(a: Value, b: Value, f: Flow)
    requires a == Obj(map[Other("domain") := Str("a")]) && b == Obj(map[Inbound := Str("in")])
    requires f.holds == iset{(Inbound, Str("in"))}
    ensures !Matches(a, f) && Matches(b, f)
  {
    assert !IsLogical(a) && !IsLogical(b) && !Inverted(a) && !Inverted(b);
    assert !MetaKey(Other("domain")) && Other("domain") in a.fields;
    assert !FieldHolds(Other("domain"), a.fields[Other("domain")], f);
    assert FieldHolds(Inbound, b.fields[Inbound], f);
    assert forall k :: k in b.fields ==> k == Inbound;
  }

  lemma LeafRuns(a: Value, b: Value, t: Tables)
    requires a == Obj(map[Other("domain") := Str("a")]) && Has(b, Inbound)
    ensures ExpandShareRules(a, {}, t) == ([a], t) && ExpandShareRules(b, {}, t) == ([], t)
  {}

  lemma FlattenPair(a: seq<Value>, b: seq<Value>)
    ensures Flatten([a] + [b]) == a + b
  {
    assert ([a] + [b])[1..] == [b] && [b][1..] == [];
    assert Flatten([b]) == b + Flatten([]);
  }

  // ---- geo lists

  const PAIR: Value := Arr([Str("private"), Str("!private")])

  const PAIR_RULE: Value := Obj(map[Geoip := PAIR])

  lemma PairCodes()
    ensures GeoCodes(PAIR) == ["private", "!private"]
  {
    assert Trim("private") == "private" && Trim("!private") == "!private";
    assert Lower("private") == "private" && Lower("!private") == "!private";
    var items: seq<Value> := [Str("private"), Str("!private")];
    assert items[1..] == [Str("!private")] && items[1..][1..] == [];
    assert StrItems(items) == ["private"] + StrItems(items[1..]);
    assert StrItems(items[1..]) == ["!private"];
    var codes := ["private", "!private"];
    assert codes[1..] == ["!private"] && codes[1..][1..] == [];
    assert NonEmptyCodes(codes[1..]) == ["!private"];
  }

  lemma PrivateNames()
    ensures !IsNegatedCode("private") && IsNegatedCode("!private")
    ensures BareCode("private") == "private" && BareCode("!private") == "private" && NamesPrivate(GeoIp, "private")
  {
    assert "!private"[1..] == "private";
  }

  lemma PairAtoms(t: Tables)
    ensures GeoAtoms(GeoIp, PAIR_RULE, t) == ([Literal(PrivateAddress, false)], t)
  {
    PairCodes();
    var codes := ["private", "!private"];
    assert codes[1..] == ["!private"] && codes[1..][1..] == [];
    PrivateNames();
    var plain := [Literal(PrivateAddress, false)];
    assert [] + plain == plain;
    assert PushGeoAtom(GeoIp, "private", [], t) == ([] + plain, t);
    assert plain[0].atom.PrivateAddress?;
    assert PushGeoAtom(GeoIp, "!private", plain, t) == (plain, t);
    assert PushGeoAtoms(GeoIp, ["!private"], plain, t) == PushGeoAtoms(GeoIp, [], plain, t);
  }

  lemma GeoipCompiles(rule: Value, atoms: seq<Literal>, t: Tables)
    requires rule.Obj? && rule.fields.Keys == {Geoip} && GeoAtoms(GeoIp, rule, t) == (atoms, t) && atoms != []
    ensures var out := RewriteGeoShareRule(rule, t).0;
      out != [] ==> out == [AndRuleParts(map[], [OrAtoms(atoms)])]
  {
    assert rule.fields - {Geoip, Geosite} == map[];
    assert Parts(atoms) + Parts([]) == [OrAtoms(atoms)];
  }

  /** A rule of one `geoip` list is shared as that list compiled. */
  lemma GeoipRuns(rule: Value, atoms: seq<Literal>, t: Tables)
    requires !TurnedAway(rule, {}) && !IsLogical(rule) && rule.fields.Keys == {Geoip}
    requires GeoAtoms(GeoIp, rule, t) == (atoms, t) && atoms != []
    ensures ExpandShareRules(rule, {}, t).0 == [AndRuleParts(map[], [OrAtoms(atoms)])]
  {
    GeoAtomsTables(GeoIp, rule, t);
    assert Get(rule, RuleSet) == None && GeoEmits(rule);
    LeafExact(rule, {}, t);
    GeoipCompiles(rule, atoms, t);
  }

  lemma PairRuns(t: Tables)
    ensures ExpandShareRules(PAIR_RULE, {}, t).0 == [AndRuleParts(map[], [AtomRule(Literal(PrivateAddress, false))])]
  {
    var plain := Literal(PrivateAddress, false);
    PairAtoms(t);
    assert PAIR_RULE.fields.Keys == {Geoip};
    GeoipRuns(PAIR_RULE, [plain], t);
    assert OrAtoms([plain]) == AtomRule(plain);
  }

  /** A rule for `private` or `!private` addresses matches every flow; its copy
      matches private ones only. */
  lemma PrivatePairRuleNarrows(t: Tables)
    ensures var f := Flow(iset{}, false, "", iset{}); var out := ExpandShareRules(PAIR_RULE, {}, t).0;
      |out| == 1 && Matches(PAIR_RULE, f) && !Matches(out[0], f)
  {
    var f := Flow(iset{}, false, "", iset{});
    var plain := Literal(PrivateAddress, false);
    PairRuns(t);
    PairMatches(f);
    AndRulePartsMeaning(map[], [AtomRule(plain)], f);
    AtomRuleMeaning(plain, f);
    OneMatch(AtomRule(plain), f);
  }

  lemma PairHolds(f: Flow)
    requires !f.isPrivate
    ensures GeoHolds(GeoIp, PAIR, f)
  {
    PairCodes();
    PrivateNames();
    var codes := ["private", "!private"];
    var l := CodeLiteral(GeoIp, codes[1]);
    assert l == Literal(PrivateAddress, true) && LiteralHolds(l, f);
    assert l in GeoLiterals(GeoIp, codes);
  }

  /** A rule of one `geoip` list matches what the list holds of. */
  lemma GeoipMatches(rule: Value, f: Flow)
    requires rule.Obj? && rule.fields.Keys == {Geoip} && GeoHolds(GeoIp, rule.fields[Geoip], f)
    ensures Matches(rule, f)
  {
    assert !IsLogical(rule) && !Inverted(rule);
  }

  lemma PairMatches(f: Flow)
    requires !f.isPrivate
    ensures Matches(PAIR_RULE, f)
  {
    PairHolds(f);
    assert PAIR_RULE.fields.Keys == {Geoip};
    GeoipMatches(PAIR_RULE, f);
  }

  const DOMAIN_AND_INVALID: Value := Obj(map[Other("domain") := Str("a"), Geosite := Str("a.b")])

  const INVALID: Value := Obj(map[Geosite := Str("a.b")])

  lemma InvalidCodes(t: Tables)
    ensures GeoCodes(Str("a.b")) == ["a.b"] && !ValidCode(GeoSite, "a.b")
    ensures PushGeoAtoms(GeoSite, ["a.b"], [], t) == ([], t)
  {
    assert Trim("a.b") == "a.b" && Lower("a.b") == "a.b" && BareCode("a.b") == "a.b";
    assert !CodeCharOk("a.b", 1);
    assert ["a.b"][1..] == [];
  }

  /** A rule whose only geo list is empty once read is shared without it. */
  lemma GeositeVanishes(rule: Value, base: map<Key, Value>, t: Tables)
    requires !TurnedAway(rule, {}) && !IsLogical(rule) && Has(rule, Geosite) && !Has(rule, Geoip)
    requires GeoAtoms(GeoSite, rule, t) == ([], t) && RuleSet !in rule.fields
    requires base == rule.fields - {Geoip, Geosite} && Obj(base) == DOMAIN
    ensures ExpandShareRules(rule, {}, t).0 == [DOMAIN]
  {
    assert Other("domain") in base && !MetaKey(Other("domain"));
    assert !IsLogical(Obj(base));
  }

  lemma InvalidRuleRuns(t: Tables)
    ensures ExpandShareRules(DOMAIN_AND_INVALID, {}, t).0 == [DOMAIN]
  {
    InvalidCodes(t);
    assert DOMAIN_AND_INVALID.fields - {Geoip, Geosite} == DOMAIN.fields;
    GeositeVanishes(DOMAIN_AND_INVALID, DOMAIN.fields, t);
  }

  lemma InvalidRuleMisses(f: Flow)
    requires f.sets == iset{}
    ensures !Matches(DOMAIN_AND_INVALID, f)
  {
    InvalidCodes(Tables([], {}));
    var l := CodeLiteral(GeoSite, "a.b");
    assert l == Literal(InSet(GeoTag(GeoSite, "a.b")), false) && !LiteralHolds(l, f);
    assert !GeoHolds(GeoSite, Str("a.b"), f);
    assert Geosite in DOMAIN_AND_INVALID.fields && !FieldHolds(Geosite, DOMAIN_AND_INVALID.fields[Geosite], f);
    assert !Inverted(DOMAIN_AND_INVALID) && !IsLogical(DOMAIN_AND_INVALID);
  }

  lemma DomainMatches(f: Flow)
    requires (Other("domain"), Str("a")) in f.holds
    ensures Matches(DOMAIN, f)
  {
    assert !IsLogical(DOMAIN) && !Inverted(DOMAIN);
    assert forall k :: k in DOMAIN.fields ==> k == Other("domain");
  }

  /** A domain rule narrowed by a category no one can serve loses that condition:
      its copy matches the whole domain. */
  lemma InvalidCodeRuleWidens(t: Tables)
    ensures var f := Flow(iset{}, false, "", iset{(Other("domain"), Str("a"))});
      ExpandShareRules(DOMAIN_AND_INVALID, {}, t).0 == [DOMAIN] && !Matches(DOMAIN_AND_INVALID, f) && Matches(DOMAIN, f)
  {
    var f := Flow(iset{}, false, "", iset{(Other("domain"), Str("a"))});
    InvalidRuleRuns(t);
    InvalidRuleMisses(f);
    DomainMatches(f);
  }

  /** A rule of nothing but that category is dropped. */
  lemma InvalidCodeAloneDropped(t: Tables)
    ensures ExpandShareRules(INVALID, {}, t).0 == []
  {
    InvalidCodes(t);
    assert INVALID.fields - {Geoip, Geosite} == map[];
  }
}
