/** Narrowing fake-ip DNS rules so AAAA queries reach a real resolver. */
module FakeIp {
  import opened JsonValue
  import opened RuleKeys
  import opened RuleSemantics
  import opened DnsMode
  import opened Cidr

  // ---- what a DNS rule matches

  /** One query. `holds` answers every condition other than `query_type`. */
  datatype Query = Query(qtype: string, holds: iset<(Key, Value)>)

  /** `query_type` is a string or a list of alternatives; an empty list places
      no condition, anything that is not text is left uninterpreted. */
  ghost predicate TypeHolds(v: Value, q: Query) {
    match v
    case Str(t) => t == q.qtype
    case Arr(items) => items == [] || exists i :: 0 <= i < |items| && ItemHolds(items[i], q)
    case _ => (QueryType, v) in q.holds
  }

  ghost predicate ItemHolds(item: Value, q: Query) {
    if item.Str? then item.s == q.qtype else (QueryType, item) in q.holds
  }

  ghost predicate ConditionsHold(m: map<Key, Value>, q: Query) {
    forall k :: k in m && !NonMatchKey(k) ==> if k == QueryType then TypeHolds(m[k], q) else (k, m[k]) in q.holds
  }

  ghost predicate DnsMatches(rule: Value, q: Query)
    decreases rule
  {
    rule.Obj? &&
    Inverted(rule) != (
      if !IsLogical(rule) then ConditionsHold(rule.fields, q)
      else if IsOr(rule) then exists i :: 0 <= i < |SubRules(rule)| && DnsMatches(SubRules(rule)[i], q)
      else forall i :: 0 <= i < |SubRules(rule)| ==> DnsMatches(SubRules(rule)[i], q))
  }

  /** The rule matches and, unlike those whose action is in `passing`, ends the
      search. */
  ghost predicate Answers(rule: Value, passing: set<string>, q: Query) {
    DnsMatches(rule, q) && !(GetStr(rule, Action).Some? && GetStr(rule, Action).value in passing)
  }

  /** Where the first rule that answers sends the query. */
  ghost function FirstServer(rules: seq<Value>, passing: set<string>, q: Query): Option<Option<string>> {
    if rules == [] then None
    else if Answers(rules[0], passing, q) then Some(GetStr(rules[0], Server))
    else FirstServer(rules[1..], passing, q)
  }

  // ---- the rewrite

  /** Tags of fake-ip servers without a usable IPv6 range. */
  function V4OnlyTags(servers: seq<Value>, excluded: string -> bool): set<string> {
    set i | 0 <= i < |servers| && V4OnlyFakeIp(servers[i], excluded) && GetStr(servers[i], Tag).Some?
      :: GetStr(servers[i], Tag).value
  }

  predicate V4OnlyFakeIp(server: Value, excluded: string -> bool) {
    GetStr(server, Type) == Some("fakeip") &&
    var range := GetStr(server, Inet6Range);
    range == None || Trim(range.value) == "" || excluded(Trim(range.value))
  }

  /** The exclusion test, given how the text of a range is read. */
  function ExcludedTest(parse: string -> Option<(nat, nat)>): string -> bool {
    (range: string) => parse(range).Some? && FakeIpRangeIsTunExcluded(parse(range).value.0, parse(range).value.1)
  }

  /** Whatever text is read as a range starts with an address. */
  ghost predicate ReadsRanges(parse: string -> Option<(nat, nat)>) {
    forall text: string :: parse(text).Some? ==> Address6(parse(text).value.0)
  }

  /** A readable range, all of whose addresses lie in `fc00::/7`. */
  ghost predicate InsideUla(range: Option<(nat, nat)>) {
    range.Some? && range.value.1 <= WIDTH6 &&
    forall x: nat :: InBlock6(x, range.value.0, range.value.1) ==> IsUla(x)
  }

  /** A fake-ip server that gives no IPv6 range, a blank one, or one that lies
      inside `fc00::/7`. */
  ghost predicate NoIpv6(server: Value, parse: string -> Option<(nat, nat)>) {
    && Get(server, Type) == Some(Str("fakeip"))
    && match Get(server, Inet6Range)
       case Some(Str(text)) => Trim(text) == "" || InsideUla(parse(Trim(text)))
       case _ => true
  }

  /** A server counts as v4-only exactly when it is one of these. */
  lemma V4OnlyExactly(server: Value, parse: string -> Option<(nat, nat)>)
    requires ReadsRanges(parse)
    ensures V4OnlyFakeIp(server, ExcludedTest(parse)) <==> NoIpv6(server, parse)
  {
    var text := GetStr(server, Inet6Range);
    if text.Some? && parse(Trim(text.value)).Some? {
      var (a, p) := parse(Trim(text.value)).value;
      if p <= WIDTH6 { ExclusionExact(a, p); }
    }
  }

  predicate Targets(rule: Value, tags: set<string>) {
    GetStr(rule, Server).Some? && GetStr(rule, Server).value in tags
  }

  function WithoutAaaa(items: seq<Value>): (r: seq<Value>)
    ensures forall v :: v in r <==> v in items && v != Str("AAAA")
  {
    if items == [] then []
    else if items[0] == Str("AAAA") then WithoutAaaa(items[1..])
    else [items[0]] + WithoutAaaa(items[1..])
  }

  function NarrowRule(rule: Value, tags: set<string>): Option<Value> {
    if !Targets(rule, tags) then Some(rule)
    else match Get(rule, QueryType)
      case None => Some(Obj(rule.fields[QueryType := Arr([Str("A")])]))
      case Some(Arr(items)) =>
        if WithoutAaaa(items) == [] then None else Some(Obj(rule.fields[QueryType := Arr(WithoutAaaa(items))]))
      case Some(Str(kind)) => if kind == "AAAA" then None else Some(rule)
      case Some(_) => Some(rule)
  }

  function NarrowAll(rules: seq<Value>, tags: set<string>): seq<Value> {
    if rules == [] then []
    else
      var first := NarrowRule(rules[0], tags);
      (if first.Some? then [first.value] else []) + NarrowAll(rules[1..], tags)
  }

  function StripFakeIpAaaa(servers: seq<Value>, rules: seq<Value>, excluded: string -> bool): seq<Value> {
    NarrowAll(rules, V4OnlyTags(servers, excluded))
  }

  /** What `retain_mut` does to one element. */
  method NarrowOne(rule: Value, tags: set<string>) returns (keep: bool, r: Value)
    ensures NarrowRule(rule, tags) == if keep then Some(r) else None
  {
    keep, r := true, rule;
    if !Targets(rule, tags) { return; }
    if !Has(rule, QueryType) {
      r := Obj(rule.fields[QueryType := Arr([Str("A")])]);
    } else if rule.fields[QueryType].Arr? {
      var types := WithoutAaaa(rule.fields[QueryType].items);
      r := Obj(rule.fields[QueryType := Arr(types)]);
      keep := types != [];
    } else if rule.fields[QueryType].Str? {
      keep := rule.fields[QueryType].s != "AAAA";
    }
  }

  method NarrowEach(rules: seq<Value>, tags: set<string>) returns (kept: seq<Value>)
    ensures kept == NarrowAll(rules, tags)
  {
    kept := [];
    var i := 0;
    assert rules[0..] == rules;
    ghost var total := NarrowAll(rules, tags);
    while i < |rules|
      invariant i <= |rules|
      invariant kept + NarrowAll(rules[i..], tags) == total
    {
      assert rules[i..][0] == rules[i] && rules[i..][1..] == rules[i + 1..];
      var keep, rule := NarrowOne(rules[i], tags);
      ghost var rest := NarrowAll(rules[i + 1..], tags);
      if keep {
        assert kept + ([rule] + rest) == (kept + [rule]) + rest;
        kept := kept + [rule];
      } else {
        assert kept + ([] + rest) == kept + rest;
      }
      i := i + 1;
    }
    assert rules[i..] == [] && kept + [] == kept;
  }

  method StripFakeIp(servers: seq<Value>, rules: seq<Value>, excluded: string -> bool) returns (kept: seq<Value>)
    ensures kept == StripFakeIpAaaa(servers, rules, excluded)
  {
    var tags := V4OnlyTags(servers, excluded);
    if tags == {} {
      NothingTargeted(rules);
      return rules;
    }
    kept := NarrowEach(rules, tags);
  }

  lemma {:induction false} NothingTargeted(rules: seq<Value>)
    ensures NarrowAll(rules, {}) == rules
  {
    if rules == [] {
    } else {
      NothingTargeted(rules[1..]);
    }
  }

  // ---- one rule

  predicate OtherConditions(rule: Value) {
    rule.Obj? && exists k :: k in rule.fields && !NonMatchKey(k) && k != QueryType
  }

  /** No query of this type matches. */
  ghost predicate MatchesNone(rule: Value, qtype: string) {
    forall q: Query :: q.qtype == qtype ==> !DnsMatches(rule, q)
  }

  /** Exactly the rules whose A queries are treated as before. */
  ghost predicate KeepsA(rule: Value, tags: set<string>) {
    NarrowRule(rule, tags) == None ==>
      if IsLogical(rule) then MatchesNone(rule, "A")
      else if Get(rule, QueryType) == Some(Arr([])) then Inverted(rule) && !OtherConditions(rule) else !Inverted(rule)
  }

  /** The narrowed `query_type` agrees with the old one on every type but AAAA. */
  lemma NarrowedTypes(items: seq<Value>, q: Query)
    requires q.qtype != "AAAA" && WithoutAaaa(items) != []
    ensures TypeHolds(Arr(WithoutAaaa(items)), q) == TypeHolds(Arr(items), q)
  {
    var kept := WithoutAaaa(items);
    assert kept[0] in kept;
    if i :| 0 <= i < |items| && ItemHolds(items[i], q) {
      assert items[i] in kept;
      var j :| 0 <= j < |kept| && kept[j] == items[i];
      assert ItemHolds(kept[j], q);
    }
    if j :| 0 <= j < |kept| && ItemHolds(kept[j], q) {
      assert kept[j] in kept;
      var i :| 0 <= i < |items| && items[i] == kept[j];
      assert ItemHolds(items[i], q);
    }
  }

  /** A rule that says nothing about AAAA-only traffic matches no other type. */
  lemma OnlyAaaa(rule: Value, tags: set<string>, q: Query)
    requires Targets(rule, tags) && NarrowRule(rule, tags) == None && q.qtype != "AAAA"
    requires Get(rule, QueryType) != Some(Arr([])) && !IsLogical(rule)
    ensures DnsMatches(rule, q) == Inverted(rule)
  {
    var v := rule.fields[QueryType];
    assert !NonMatchKey(QueryType) && QueryType in rule.fields;
    if v.Arr? {
      forall i | 0 <= i < |v.items| ensures !ItemHolds(v.items[i], q) {
        assert v.items[i] in v.items && v.items[i] !in WithoutAaaa(v.items);
      }
    }
    assert !TypeHolds(v, q);
  }

  lemma NarrowMatchesA(rule: Value, tags: set<string>, q: Query)
    requires q.qtype == "A" && KeepsA(rule, tags)
    ensures var n := NarrowRule(rule, tags);
      (n.Some? && DnsMatches(n.value, q)) == DnsMatches(rule, q)
    ensures var n := NarrowRule(rule, tags);
      n.Some? ==> GetStr(n.value, Server) == GetStr(rule, Server) && GetStr(n.value, Action) == GetStr(rule, Action)
  {
    var n := NarrowRule(rule, tags);
    if n.Some? {
      if n.value != rule {
        if IsLogical(rule) {
          LogicalIgnoresType(rule, n.value.fields[QueryType], q);
        } else {
          if Has(rule, QueryType) { NarrowedTypes(rule.fields[QueryType].items, q); } else { OnlyA(q); }
          SameButType(rule, n.value.fields[QueryType], q);
        }
      }
    } else if IsLogical(rule) {
      assert !DnsMatches(rule, q);
    } else if Get(rule, QueryType) == Some(Arr([])) {
      assert ConditionsHold(rule.fields, q);
    } else {
      OnlyAaaa(rule, tags, q);
    }
  }

  /** Only `query_type` differs, and it holds in both or was absent and now holds. */
  lemma SameConditions(a: map<Key, Value>, b: map<Key, Value>, q: Query)
    requires QueryType in b && (QueryType in a ==> TypeHolds(a[QueryType], q) == TypeHolds(b[QueryType], q))
    requires QueryType !in a ==> TypeHolds(b[QueryType], q)
    requires forall k :: k != QueryType ==> (k in a <==> k in b) && (k in a ==> a[k] == b[k])
    ensures ConditionsHold(a, q) == ConditionsHold(b, q)
  {
    assert !NonMatchKey(QueryType);
  }

  /** A new `query_type` that agrees with the old one, or with having none. */
  lemma SameButType(rule: Value, v: Value, q: Query)
    requires rule.Obj? && !IsLogical(rule)
    requires if Has(rule, QueryType) then TypeHolds(rule.fields[QueryType], q) == TypeHolds(v, q) else TypeHolds(v, q)
    ensures DnsMatches(Obj(rule.fields[QueryType := v]), q) == DnsMatches(rule, q)
  {
    var n := Obj(rule.fields[QueryType := v]);
    assert Get(n, Invert) == Get(rule, Invert) && Get(n, Type) == Get(rule, Type);
    SameConditions(rule.fields, n.fields, q);
  }

  /** A `query_type` on a group is no condition. */
  lemma LogicalIgnoresType(rule: Value, v: Value, q: Query)
    requires rule.Obj? && IsLogical(rule)
    ensures DnsMatches(Obj(rule.fields[QueryType := v]), q) == DnsMatches(rule, q)
  {
    var n := Obj(rule.fields[QueryType := v]);
    assert Get(n, Invert) == Get(rule, Invert) && Get(n, Type) == Get(rule, Type);
    assert Get(n, Mode) == Get(rule, Mode) && Get(n, Rules) == Get(rule, Rules);
    assert SubRules(n) == SubRules(rule);
  }

  lemma OnlyA(q: Query)
    requires q.qtype == "A"
    ensures TypeHolds(Arr([Str("A")]), q)
  {
    var a: Value := Str("A");
    assert ItemHolds(a, q) && [a][0] == a;
  }

  /** `KeepsA` is not only enough but needed. */
  lemma KeepsAExact(rule: Value, tags: set<string>)
    requires rule.Obj?
    ensures KeepsA(rule, tags) <==> forall q: Query :: q.qtype == "A" ==>
      (NarrowRule(rule, tags).Some? && DnsMatches(NarrowRule(rule, tags).value, q)) == DnsMatches(rule, q)
  {
    if KeepsA(rule, tags) {
      forall q: Query | q.qtype == "A"
        ensures (NarrowRule(rule, tags).Some? && DnsMatches(NarrowRule(rule, tags).value, q)) == DnsMatches(rule, q)
      {
        NarrowMatchesA(rule, tags, q);
      }
    } else if !IsLogical(rule) {
      var all, none := Query("A", iset k: Key, v: Value | true :: (k, v)), Query("A", iset{});
      if Get(rule, QueryType) == Some(Arr([])) {
        assert ConditionsHold(rule.fields, all);
        if Inverted(rule) {
          var k :| k in rule.fields && !NonMatchKey(k) && k != QueryType;
          assert !ConditionsHold(rule.fields, none) && DnsMatches(rule, none);
        } else {
          assert DnsMatches(rule, all);
        }
      } else {
        OnlyAaaa(rule, tags, none);
        assert DnsMatches(rule, none);
      }
    }
  }

  /** The text-only shape the AAAA guarantee needs. */
  predicate TextTypes(rule: Value) {
    match Get(rule, QueryType)
    case None => true
    case Some(Str(_)) => true
    case Some(Arr(items)) => forall i :: 0 <= i < |items| ==> items[i].Str?
    case Some(_) => false
  }

  /** A logical rule that stays keeps all its queries, AAAA ones included. */
  lemma LogicalNarrowingIsInert(rule: Value, tags: set<string>, q: Query)
    requires IsLogical(rule) && NarrowRule(rule, tags).Some?
    ensures DnsMatches(NarrowRule(rule, tags).value, q) == DnsMatches(rule, q)
  {
    var n := NarrowRule(rule, tags).value;
    if n != rule { LogicalIgnoresType(rule, n.fields[QueryType], q); }
  }

  ghost predicate BlocksAaaa(rule: Value, tags: set<string>) {
    || NarrowRule(rule, tags) == None
    || if IsLogical(rule) then MatchesNone(rule, "AAAA")
       else !Inverted(rule) && TextTypes(NarrowRule(rule, tags).value)
  }

  /** A narrowed rule never answers AAAA, exactly when it was dropped or is a
      plain rule with textual types. */
  lemma BlocksAaaaExact(rule: Value, tags: set<string>)
    requires Targets(rule, tags)
    ensures BlocksAaaa(rule, tags) <==> forall q: Query :: q.qtype == "AAAA" ==>
      !(NarrowRule(rule, tags).Some? && DnsMatches(NarrowRule(rule, tags).value, q))
  {
    if NarrowRule(rule, tags).Some? {
      if IsLogical(rule) {
        forall q: Query ensures DnsMatches(NarrowRule(rule, tags).value, q) == DnsMatches(rule, q) {
          LogicalNarrowingIsInert(rule, tags, q);
        }
      } else {
        FlatBlocksAaaa(rule, tags);
      }
    }
  }

  lemma FlatBlocksAaaa(rule: Value, tags: set<string>)
    requires Targets(rule, tags) && !IsLogical(rule) && NarrowRule(rule, tags).Some?
    ensures !Inverted(rule) && TextTypes(NarrowRule(rule, tags).value) <==>
      MatchesNone(NarrowRule(rule, tags).value, "AAAA")
  {
    var n := NarrowRule(rule, tags).value;
    var m, v := n.fields, n.fields[QueryType];
    assert Get(n, Invert) == Get(rule, Invert) && Get(n, Type) == Get(rule, Type) && !NonMatchKey(QueryType);
    if TextTypes(n) {
      forall q: Query | q.qtype == "AAAA" ensures !TypeHolds(v, q) && !ConditionsHold(m, q) {
        NarrowedRefuses(rule, tags, q);
      }
      assert Inverted(rule) ==> DnsMatches(n, Query("AAAA", iset{}));
    } else {
      var all, none := Query("AAAA", iset k: Key, v: Value | true :: (k, v)), Query("AAAA", iset{});
      NotTextual(rule, tags, all, none);
    }
  }

  lemma NarrowedRefuses(rule: Value, tags: set<string>, q: Query)
    requires Targets(rule, tags) && NarrowRule(rule, tags).Some? && TextTypes(NarrowRule(rule, tags).value) &&
      q.qtype == "AAAA"
    ensures var m := NarrowRule(rule, tags).value.fields; QueryType in m && !TypeHolds(m[QueryType], q)
  {
    var v := NarrowRule(rule, tags).value.fields[QueryType];
    if v.Arr? {
      assert v.items != [] && forall i :: 0 <= i < |v.items| ==> v.items[i] in v.items;
      assert forall i :: 0 <= i < |v.items| ==> v.items[i] != Str("AAAA");
    }
  }

  lemma NotTextual(rule: Value, tags: set<string>, all: Query, none: Query)
    requires Targets(rule, tags) && NarrowRule(rule, tags).Some? && !TextTypes(NarrowRule(rule, tags).value)
    requires !IsLogical(rule) && Get(NarrowRule(rule, tags).value, Type) == Get(rule, Type)
    requires all == Query("AAAA", iset k: Key, v: Value | true :: (k, v)) && none == Query("AAAA", iset{})
    ensures DnsMatches(NarrowRule(rule, tags).value, all) || DnsMatches(NarrowRule(rule, tags).value, none)
  {
    var m := NarrowRule(rule, tags).value.fields;
    var v := m[QueryType];
    if v.Arr? {
      var i :| 0 <= i < |v.items| && !v.items[i].Str?;
      assert ItemHolds(v.items[i], all);
    }
    assert TypeHolds(v, all) && ConditionsHold(m, all);
    if Inverted(NarrowRule(rule, tags).value) {
      if v.Arr? {
        assert v.items != [];
        forall i | 0 <= i < |v.items| ensures !ItemHolds(v.items[i], none)
        {
          assert v.items[i] in v.items && v.items[i] != Str("AAAA");
        }
      }
      assert !TypeHolds(v, none) && !ConditionsHold(m, none);
    }
  }

  const FAKE_GROUP: Value :=
    Obj(map[Type := Str("logical"), Mode := Str("or"), Server := Str("fake"),
            Rules := Arr([Obj(map[Other("domain") := Str("a")])])])

  const FAKE_LEAF: Value := Obj(map[Other("domain") := Str("a")])

  lemma LeafMatches(q: Query)
    requires (Other("domain"), Str("a")) in q.holds
    ensures DnsMatches(FAKE_LEAF, q)
  {
    assert !IsLogical(FAKE_LEAF) && !Inverted(FAKE_LEAF);
    assert forall k :: k in FAKE_LEAF.fields ==> k == Other("domain");
  }

  lemma AlternativeMatches(rule: Value, i: nat, q: Query)
    requires IsLogical(rule) && IsOr(rule) && !Inverted(rule)
    requires i < |SubRules(rule)| && DnsMatches(SubRules(rule)[i], q)
    ensures DnsMatches(rule, q)
  {}

  lemma GroupFacts()
    ensures IsLogical(FAKE_GROUP) && IsOr(FAKE_GROUP) && !Inverted(FAKE_GROUP) && SubRules(FAKE_GROUP) == [FAKE_LEAF]
    ensures GetStr(FAKE_GROUP, Server) == Some("fake") && !Has(FAKE_GROUP, QueryType)
  {}

  /** So a logical rule can still send AAAA to a v4-only fake-ip server. */
  lemma LogicalRuleAnswersAaaa()
    ensures var q := Query("AAAA", iset{(Other("domain"), Str("a"))}); var n := NarrowRule(FAKE_GROUP, {"fake"});
      Targets(FAKE_GROUP, {"fake"}) && n.Some? && Targets(n.value, {"fake"}) && DnsMatches(n.value, q)
  {
    var q := Query("AAAA", iset{(Other("domain"), Str("a"))});
    GroupFacts();
    LeafMatches(q);
    AlternativeMatches(FAKE_GROUP, 0, q);
    LogicalNarrowingIsInert(FAKE_GROUP, {"fake"}, q);
  }

  // ---- whole lists

  lemma {:induction false} ListKeepsA(rules: seq<Value>, tags: set<string>, passing: set<string>, q: Query)
    requires q.qtype == "A" && forall i :: 0 <= i < |rules| ==> KeepsA(rules[i], tags)
    ensures FirstServer(NarrowAll(rules, tags), passing, q) == FirstServer(rules, passing, q)
  {
    if rules == [] {
    } else {
      var n, rest := NarrowRule(rules[0], tags), NarrowAll(rules[1..], tags);
      NarrowMatchesA(rules[0], tags, q);
      ListKeepsA(rules[1..], tags, passing, q);
      if n.Some? { assert ([n.value] + rest)[1..] == rest; } else { assert [] + rest == rest; }
    }
  }

  /** No rule that matches `q` uses one of the servers. */
  ghost predicate NoneTargets(rules: seq<Value>, tags: set<string>, q: Query) {
    forall i :: 0 <= i < |rules| && DnsMatches(rules[i], q) ==> !Targets(rules[i], tags)
  }

  lemma {:induction false} ListBlocksAaaa(rules: seq<Value>, tags: set<string>, q: Query)
    requires q.qtype == "AAAA" && forall i :: 0 <= i < |rules| && Targets(rules[i], tags) ==> BlocksAaaa(rules[i], tags)
    ensures NoneTargets(NarrowAll(rules, tags), tags, q)
  {
    if rules == [] {
    } else {
      var n, rest := NarrowRule(rules[0], tags), NarrowAll(rules[1..], tags);
      if Targets(rules[0], tags) { BlocksAaaaExact(rules[0], tags); }
      ListBlocksAaaa(rules[1..], tags, q);
      assert NarrowAll(rules, tags) == (if n.Some? then [n.value] else []) + rest;
    }
  }

  /** Not logical, not inverted, and with a textual, non-empty `query_type`. */
  predicate PlainRule(rule: Value) {
    !IsLogical(rule) && !Inverted(rule) && TextTypes(rule) && Get(rule, QueryType) != Some(Arr([]))
  }

  /** When the rules that use a v4-only fake-ip server are plain, A queries are
      answered as before, and no rule sends AAAA to such a server. */
  lemma PlainRulesAreSafe(servers: seq<Value>, rules: seq<Value>, excluded: string -> bool, passing: set<string>,
      q: Query)
    requires forall i :: 0 <= i < |rules| && Targets(rules[i], V4OnlyTags(servers, excluded)) ==> PlainRule(rules[i])
    ensures q.qtype == "A" ==>
      FirstServer(StripFakeIpAaaa(servers, rules, excluded), passing, q) == FirstServer(rules, passing, q)
    ensures q.qtype == "AAAA" ==>
      NoneTargets(StripFakeIpAaaa(servers, rules, excluded), V4OnlyTags(servers, excluded), q)
  {
    var tags := V4OnlyTags(servers, excluded);
    forall i | 0 <= i < |rules| && Targets(rules[i], tags) ensures BlocksAaaa(rules[i], tags) {
      PlainNarrow(rules[i], tags);
    }
    if q.qtype == "A" { ListKeepsA(rules, tags, passing, q); }
    if q.qtype == "AAAA" { ListBlocksAaaa(rules, tags, q); }
  }

  lemma PlainNarrow(rule: Value, tags: set<string>)
    requires TextTypes(rule)
    ensures NarrowRule(rule, tags).Some? ==> TextTypes(NarrowRule(rule, tags).value)
  {
    var n := NarrowRule(rule, tags);
    if n.Some? && Get(n.value, QueryType).Some? && n.value.fields[QueryType].Arr? {
      var items := n.value.fields[QueryType].items;
      assert forall i :: 0 <= i < |items| ==> items[i] in items;
    }
  }
}
