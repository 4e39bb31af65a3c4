/** Fake-ip narrowing told from the DNS servers: which of them get no AAAA query
    any more, and that the rules of all others stay as they are. */
module FakeIpServers {
  import opened JsonValue
  import opened RuleKeys
  import opened RuleSemantics
  import opened DnsMode
  import opened FakeIp

  /** The rule sends its queries to server `i`. */
  predicate SendsTo(rule: Value, servers: seq<Value>, i: nat)
    requires i < |servers|
  {
    GetStr(rule, Server).Some? && GetStr(rule, Server) == GetStr(servers[i], Tag)
  }

  /** One of the servers the rule sends to has no IPv6 range to use. */
  ghost predicate SendsToNoIpv6(rule: Value, servers: seq<Value>, parse: string -> Option<(nat, nat)>) {
    exists i :: 0 <= i < |servers| && NoIpv6(servers[i], parse) && SendsTo(rule, servers, i)
  }

  lemma TargetsExactly(rule: Value, servers: seq<Value>, parse: string -> Option<(nat, nat)>)
    requires ReadsRanges(parse)
    ensures Targets(rule, V4OnlyTags(servers, ExcludedTest(parse))) <==> SendsToNoIpv6(rule, servers, parse)
  {
    var tags := V4OnlyTags(servers, ExcludedTest(parse));
    forall i | 0 <= i < |servers|
      ensures V4OnlyFakeIp(servers[i], ExcludedTest(parse)) <==> NoIpv6(servers[i], parse)
    {
      V4OnlyExactly(servers[i], parse);
    }
    if SendsToNoIpv6(rule, servers, parse) {
      var i :| 0 <= i < |servers| && NoIpv6(servers[i], parse) && SendsTo(rule, servers, i);
      assert GetStr(servers[i], Tag).value in tags;
    }
    if Targets(rule, tags) {
      var i :| 0 <= i < |servers| && V4OnlyFakeIp(servers[i], ExcludedTest(parse)) && GetStr(servers[i], Tag).Some? &&
        GetStr(servers[i], Tag).value == GetStr(rule, Server).value;
      assert SendsTo(rule, servers, i);
    }
  }

  /** When the rules that send to such a server are plain, A queries are answered
      as before, and no rule that matches an AAAA query names such a server. */
  lemma NoAaaaWithoutIpv6(servers: seq<Value>, rules: seq<Value>, parse: string -> Option<(nat, nat)>,
      passing: set<string>, q: Query)
    requires ReadsRanges(parse)
    requires forall r :: r in rules && SendsToNoIpv6(r, servers, parse) ==> PlainRule(r)
    ensures var kept := StripFakeIpAaaa(servers, rules, ExcludedTest(parse));
      && (q.qtype == "A" ==> FirstServer(kept, passing, q) == FirstServer(rules, passing, q))
      && (q.qtype == "AAAA" ==> forall r :: r in kept && DnsMatches(r, q) ==> !SendsToNoIpv6(r, servers, parse))
  {
    var tags := V4OnlyTags(servers, ExcludedTest(parse));
    var kept := StripFakeIpAaaa(servers, rules, ExcludedTest(parse));
    forall i | 0 <= i < |rules| && Targets(rules[i], tags) ensures PlainRule(rules[i]) {
      assert rules[i] in rules;
      TargetsExactly(rules[i], servers, parse);
    }
    PlainRulesAreSafe(servers, rules, ExcludedTest(parse), passing, q);
    if q.qtype == "AAAA" {
      forall r | r in kept && DnsMatches(r, q) ensures !SendsToNoIpv6(r, servers, parse) {
        var i :| 0 <= i < |kept| && kept[i] == r;
        TargetsExactly(r, servers, parse);
      }
    }
  }

  // ---- what is left alone

  lemma {:induction false} NarrowConcat(a: seq<Value>, b: seq<Value>, tags: set<string>)
    ensures NarrowAll(a + b, tags) == NarrowAll(a, tags) + NarrowAll(b, tags)
  {
    if a == [] {
      assert a + b == b;
    } else {
      NarrowConcat(a[1..], b, tags);
      assert (a + b)[0] == a[0] && (a + b)[1..] == a[1..] + b;
    }
  }

  lemma NarrowSingle(rule: Value, tags: set<string>)
    ensures NarrowAll([rule], tags) == (if NarrowRule(rule, tags).Some? then [NarrowRule(rule, tags).value] else [])
  {
    assert [rule][1..] == [];
  }

  /** A rule that sends to no such server stays where it is and as it is. */
  lemma OtherRulesStay(servers: seq<Value>, before: seq<Value>, rule: Value, after: seq<Value>,
      parse: string -> Option<(nat, nat)>)
    requires ReadsRanges(parse) && !SendsToNoIpv6(rule, servers, parse)
    ensures var excluded := ExcludedTest(parse);
      StripFakeIpAaaa(servers, before + [rule] + after, excluded) ==
      StripFakeIpAaaa(servers, before, excluded) + [rule] + StripFakeIpAaaa(servers, after, excluded)
  {
    var tags := V4OnlyTags(servers, ExcludedTest(parse));
    TargetsExactly(rule, servers, parse);
    NarrowConcat(before + [rule], after, tags);
    NarrowConcat(before, [rule], tags);
    NarrowSingle(rule, tags);
  }

  /** A `query_type` that lists nothing but AAAA, or nothing at all. */
  predicate OnlyAaaaListed(v: Value) {
    match v
    case Str(t) => t == "AAAA"
    case Arr(items) => forall i :: 0 <= i < |items| ==> items[i] == Str("AAAA")
    case _ => false
  }

  /** None becomes A, a list loses AAAA and nothing else, the rest stays. */
  predicate NarrowedTo(types: Option<Value>, v: Value) {
    match types
    case None => v == Arr([Str("A")])
    case Some(Arr(items)) =>
      v.Arr? && Str("AAAA") !in v.items && (forall t :: t in v.items ==> t in items) &&
      (forall t :: t in items && t != Str("AAAA") ==> t in v.items)
    case Some(t) => v == t && v != Str("AAAA")
  }

  /** Of the rules that do, exactly those whose list is such go; any other keeps
      its members, and AAAA is all its `query_type` loses. */
  lemma NarrowedMembers(rule: Value, tags: set<string>)
    requires Targets(rule, tags)
    ensures NarrowRule(rule, tags) == None <==> Has(rule, QueryType) && OnlyAaaaListed(rule.fields[QueryType])
    ensures NarrowRule(rule, tags).Some? ==>
      var n := NarrowRule(rule, tags).value;
      && n.Obj? && (forall k :: k != QueryType ==> Get(n, k) == Get(rule, k))
      && Has(n, QueryType) && NarrowedTo(Get(rule, QueryType), n.fields[QueryType])
  {
    if Has(rule, QueryType) && rule.fields[QueryType].Arr? {
      var items := rule.fields[QueryType].items;
      var kept := WithoutAaaa(items);
      assert kept != [] ==> kept[0] in kept;
      if !OnlyAaaaListed(rule.fields[QueryType]) {
        var i :| 0 <= i < |items| && items[i] != Str("AAAA");
        assert items[i] in kept;
      }
    }
  }
}
