/** Keeping a DNS block on one side of the core's legacy / modern split. */
module DnsMode {
  import opened JsonValue
  import opened RuleKeys
  import opened RuleSemantics

  // ---- signals carried by one rule object

  /** `match_response` accepts a boolean or a non-empty response tag. */
  predicate MatchResponseEnabled(rule: Value) {
    match Get(rule, MatchResponse)
    case Some(Bool(b)) => b
    case Some(Str(tag)) => tag != ""
    case _ => false
  }

  predicate Trueish(v: Option<Value>) {
    match v
    case Some(Bool(b)) => b
    case Some(Str(s)) => Lower(s) == "true" || s == "1"
    case Some(Num(n)) => n == 1
    case _ => false
  }

  predicate AddressFilter(rule: Value) {
    || (!MatchResponseEnabled(rule) && (Has(rule, IpCidr) || Flag(rule, IpIsPrivate) || Flag(rule, IpAcceptAny)))
    || Has(rule, RuleSetIpCidrAcceptEmpty)
  }

  predicate LegacyField(rule: Value) {
    AddressFilter(rule) || Has(rule, Strategy)
  }

  predicate LegacySetRef(rule: Value, isLegacySet: string -> bool) {
    !MatchResponseEnabled(rule) && Has(rule, RuleSet) &&
    exists i :: 0 <= i < |RuleSetList(rule.fields[RuleSet])| && isLegacySet(RuleSetList(rule.fields[RuleSet])[i])
  }

  function SetRefTest(isLegacySet: string -> bool): Value -> bool {
    (r: Value) => LegacySetRef(r, isLegacySet)
  }

  predicate ModernResponse(rule: Value) {
    Has(rule, ResponseRcode) || Has(rule, ResponseAnswer) || Has(rule, ResponseNs) || Has(rule, ResponseExtra)
  }

  predicate ModernOption(rule: Value) {
    Trueish(Get(rule, Race)) || Trueish(Get(rule, Speculative)) || Trueish(Get(rule, DisableOptimisticCache))
  }

  predicate ModernFeature(rule: Value) {
    || MatchResponseEnabled(rule)
    || GetStr(rule, Action) == Some("evaluate") || GetStr(rule, Action) == Some("respond")
    || ModernResponse(rule) || ModernOption(rule)
  }

  predicate FamilyField(rule: Value) {
    Has(rule, QueryType) || Has(rule, IpVersion)
  }

  // ---- rules at every depth

  predicate SomeNode(rule: Value, p: Value -> bool)
    decreases rule
  {
    rule.Obj? && (p(rule) || exists i :: 0 <= i < |SubRules(rule)| && SomeNode(SubRules(rule)[i], p))
  }

  predicate SomeRule(rules: seq<Value>, p: Value -> bool) {
    exists i :: 0 <= i < |rules| && SomeNode(rules[i], p)
  }

  /** The visitor: `flag` turns true as soon as one visited object satisfies `p`. */
  method VisitRule(rule: Value, p: Value -> bool, flag: bool) returns (r: bool)
    ensures r == (flag || SomeNode(rule, p))
    decreases rule
  {
    r := flag;
    if !rule.Obj? { return; }
    if p(rule) { r := true; }
    var subs := SubRules(rule);
    var i := 0;
    while i < |subs|
      invariant i <= |subs|
      invariant r == (flag || p(rule) || exists j :: 0 <= j < i && SomeNode(subs[j], p))
    {
      r := VisitRule(subs[i], p, r);
      i := i + 1;
    }
  }

  method VisitRules(rules: seq<Value>, p: Value -> bool) returns (r: bool)
    ensures r == SomeRule(rules, p)
  {
    r := false;
    var i := 0;
    while i < |rules|
      invariant i <= |rules|
      invariant r == exists j :: 0 <= j < i && SomeNode(rules[j], p)
    {
      r := VisitRule(rules[i], p, r);
      i := i + 1;
    }
  }

  // ---- removing the legacy `strategy` option

  function RemoveStrategy(rule: Value): Value
    decreases rule, 0
  {
    if !rule.Obj? then rule
    else
      var m := rule.fields - {Strategy};
      Obj(if GetArr(rule, Rules).Some? then m[Rules := Arr(RemoveStrategies(rule, SubRules(rule)))] else m)
  }

  function RemoveStrategies(parent: Value, rules: seq<Value>): (r: seq<Value>)
    requires forall i :: 0 <= i < |rules| ==> rules[i] < parent
    ensures |r| == |rules|
    decreases parent, 0, |rules|
  {
    seq(|rules|, i requires 0 <= i < |rules| => RemoveStrategy(rules[i]))
  }

  // ---- stripping the address-family fields

  /** Members that configure an action or the logical wrapper. Any other
      member, known or not, is a match condition. */
  predicate NonMatchKey(key: Key) {
    match key
    case Type | Mode | Rules | Invert | MatchResponse | Action | Server | Tag | Strategy | DisableCache
       | DisableOptimisticCache | Timeout | RewriteTtl | ClientSubnet | RemoveClientSubnet | Speculative | Race
       | Method | NoDrop | Rcode | Answer | Ns | Extra | RuleSetIpCidrAcceptEmpty | RuleSetIpCidrMatchSource
       | RuleSetIpcidrMatchSource => true
    case _ => false
  }

  predicate WrapperKey(key: Key) {
    key == Type || key == Mode || key == Rules || key == Invert
  }

  function OwnFamilyFields(rule: Value): nat {
    (if Has(rule, QueryType) then 1 else 0) + (if Has(rule, IpVersion) then 1 else 0)
  }

  /** The rule left over, the fields removed, and whether to drop the rule. */
  function StripRule(rule: Value): (Value, nat, bool)
    decreases rule, 0
  {
    if !rule.Obj? then (rule, 0, false)
    else
      var own := rule.fields - {QueryType, IpVersion};
      var (subs, n) := StripRules(rule, SubRules(rule));
      var m := if GetArr(rule, Rules).Some? then own[Rules := Arr(subs)] else own;
      var removed := OwnFamilyFields(rule) + n;
      (Obj(m), removed, DropStripped(m, subs != [], removed))
  }

  predicate OnlyWrapper(m: map<Key, Value>) { forall k :: k in m ==> WrapperKey(k) }

  predicate NoCondition(m: map<Key, Value>) { forall k :: k in m ==> NonMatchKey(k) }

  predicate DropStripped(m: map<Key, Value>, hasChildren: bool, removed: nat) {
    !hasChildren && (OnlyWrapper(m) || (removed > 0 && NoCondition(m)))
  }

  function StripRules(parent: Value, rules: seq<Value>): (seq<Value>, nat)
    requires forall i :: 0 <= i < |rules| ==> rules[i] < parent
    decreases parent, 0, |rules|
  {
    if rules == [] then ([], 0)
    else
      var (first, n, drop) := StripRule(rules[0]);
      var (rest, n') := StripRules(parent, rules[1..]);
      (if drop then rest else [first] + rest, n + n')
  }

  /** The rules of a block, under a parent they are parts of. */
  function StripBlock(rules: seq<Value>): (seq<Value>, nat) {
    StripRules(Arr(rules), rules)
  }

  /** Both fields, where present. */
  method RemoveOwn(fields: map<Key, Value>) returns (m: map<Key, Value>, removed: nat)
    ensures m == fields - {QueryType, IpVersion} && removed == OwnFamilyFields(Obj(fields))
  {
    m, removed := fields, 0;
    if QueryType in m { m := m - {QueryType}; removed := removed + 1; }
    if IpVersion in m { m := m - {IpVersion}; removed := removed + 1; }
    assert m == fields - {QueryType, IpVersion};
  }

  method StripAddressFamilyFields(rule: Value) returns (r: Value, removed: nat, drop: bool)
    ensures (r, removed, drop) == StripRule(rule)
    decreases rule, 2
  {
    if !rule.Obj? { return rule, 0, false; }
    var m;
    m, removed := RemoveOwn(rule.fields);
    var subs := SubRules(rule);
    if GetArr(rule, Rules).Some? {
      var n;
      subs, n := StripSubRules(rule, subs);
      removed := removed + n;
      m := m[Rules := Arr(subs)];
    }
    var hasChildren := subs != [];
    var structurallyEmpty := !hasChildren && OnlyWrapper(m);
    var noMatchCondition := !hasChildren && NoCondition(m);
    return Obj(m), removed, structurallyEmpty || (removed > 0 && noMatchCondition);
  }

  ghost predicate AllBelow(rules: seq<Value>, parent: Value) {
    forall i :: 0 <= i < |rules| ==> rules[i] < parent
  }

  function RemoveAt(rules: seq<Value>, index: nat): seq<Value>
    requires index < |rules|
  {
    rules[..index] + rules[index + 1..]
  }

  lemma EditAt(done: seq<Value>, todo: seq<Value>, r: Value)
    requires todo != []
    ensures (done + todo)[|done|] == todo[0]
    ensures RemoveAt(done + todo, |done|) == done + todo[1..]
    ensures (done + todo)[|done| := r] == (done + [r]) + todo[1..]
  {}

  /** What is done once the first rule of `todo` has been seen to. */
  ghost function DoneAfter(done: seq<Value>, todo: seq<Value>): seq<Value>
    requires todo != []
  {
    var (r, _, drop) := StripRule(todo[0]);
    if drop then done else done + [r]
  }

  /** One index of the list: the rule there is rewritten or removed. */
  method StripAt(parent: Value, rules: seq<Value>, index: nat, ghost done: seq<Value>, ghost todo: seq<Value>)
    returns (kept: seq<Value>, next: nat, removed: nat)
    requires rules == done + todo && index == |done| && todo != [] && todo[0] < parent
    ensures kept == DoneAfter(done, todo) + todo[1..] && next == |DoneAfter(done, todo)|
    ensures removed == StripRule(todo[0]).1
    decreases parent, 0
  {
    var r, n, drop := StripAddressFamilyFields(rules[index]);
    EditAt(done, todo, r);
    if drop { return RemoveAt(rules, index), index, n; }
    return rules[index := r], index + 1, n;
  }

  /** With the finished prefix, what stripping `todo` gives makes `total`. */
  ghost predicate OnTrack(parent: Value, done: seq<Value>, removed: nat, todo: seq<Value>, total: (seq<Value>, nat))
    requires AllBelow(todo, parent)
  {
    done + StripRules(parent, todo).0 == total.0 && removed + StripRules(parent, todo).1 == total.1
  }

  lemma StripStep(parent: Value, done: seq<Value>, removed: nat, todo: seq<Value>, total: (seq<Value>, nat))
    requires AllBelow(todo, parent) && OnTrack(parent, done, removed, todo, total) && todo != []
    ensures AllBelow(todo[1..], parent) && todo[0] < parent
    ensures OnTrack(parent, DoneAfter(done, todo), removed + StripRule(todo[0]).1, todo[1..], total)
  {
    var (r, n, drop) := StripRule(todo[0]);
    var (rest, m) := StripRules(parent, todo[1..]);
    assert StripRules(parent, todo) == (if drop then rest else [r] + rest, n + m);
    assert done + ([r] + rest) == (done + [r]) + rest;
  }

  lemma OnTrackEnds(parent: Value, done: seq<Value>, removed: nat, total: (seq<Value>, nat))
    requires OnTrack(parent, done, removed, [], total)
    ensures (done, removed) == total
  {
    assert done + [] == done;
  }

  lemma OnTrackStarts(parent: Value, rules: seq<Value>)
    requires AllBelow(rules, parent)
    ensures OnTrack(parent, [], 0, rules, StripRules(parent, rules))
  {
    assert [] + StripRules(parent, rules).0 == StripRules(parent, rules).0;
  }

  /** Strips a list in place: a dropped rule is removed at its index. */
  method StripSubRules(parent: Value, rules: seq<Value>) returns (kept: seq<Value>, removed: nat)
    requires AllBelow(rules, parent)
    ensures (kept, removed) == StripRules(parent, rules)
    decreases parent, 1
  {
    kept, removed := rules, 0;
    var index := 0;
    ghost var done, todo: seq<Value> := [], rules;
    ghost var total := StripRules(parent, rules);
    OnTrackStarts(parent, rules);
    while index < |kept|
      invariant kept == done + todo && index == |done|
      invariant AllBelow(todo, parent) && OnTrack(parent, done, removed, todo, total)
      decreases |todo|
    {
      ghost var next, rest := DoneAfter(done, todo), todo[1..];
      StripStep(parent, done, removed, todo, total);
      var count;
      kept, index, count := StripAt(parent, kept, index, done, todo);
      removed := removed + count;
      done, todo := next, rest;
    }
    assert todo == [] && kept == done;
    OnTrackEnds(parent, done, removed, total);
  }

  // ---- the classification

  datatype Reconciled = Kept(rules: seq<Value>, legacy: bool) | Rejected

  predicate LegacyMode(rules: seq<Value>, isLegacySet: string -> bool) {
    SomeRule(rules, LegacyField) || SomeRule(rules, SetRefTest(isLegacySet))
  }

  function Reconcile(rules: seq<Value>, isLegacySet: string -> bool): Reconciled {
    if !LegacyMode(rules, isLegacySet) then Kept(rules, false)
    else if SomeRule(rules, ModernFeature) then Rejected
    else Kept(StripBlock(rules).0, true)
  }

  method ReconcileLegacyDnsRules(rules: seq<Value>, isLegacySet: string -> bool) returns (r: Reconciled)
    ensures r == Reconcile(rules, isLegacySet)
  {
    var legacy := VisitRules(rules, LegacyField);
    if !legacy { legacy := VisitRules(rules, SetRefTest(isLegacySet)); }
    if legacy {
      var modern := VisitRules(rules, ModernFeature);
      if modern { return Rejected; }
      var kept, _ := StripSubRules(Arr(rules), rules);
      return Kept(kept, true);
    }
    return Kept(rules, false);
  }

  /** One side of the split: a block without any legacy signal, or one without
      address-family fields and modern features. */
  predicate ModeConsistent(rules: seq<Value>, isLegacySet: string -> bool) {
    || !LegacyMode(rules, isLegacySet)
    || (!SomeRule(rules, FamilyField) && !SomeRule(rules, ModernFeature))
  }

  // ---- stripping is exact

  function FamilyFields(rule: Value): nat
    decreases rule, 0
  {
    if rule.Obj? then OwnFamilyFields(rule) + FamilyFieldsOf(rule, SubRules(rule)) else 0
  }

  function FamilyFieldsOf(parent: Value, rules: seq<Value>): nat
    requires forall i :: 0 <= i < |rules| ==> rules[i] < parent
    decreases parent, 0, |rules|
  {
    if rules == [] then 0 else FamilyFields(rules[0]) + FamilyFieldsOf(parent, rules[1..])
  }

  lemma {:induction false} StripCounts(rule: Value)
    ensures StripRule(rule).1 == FamilyFields(rule)
    decreases rule, 0
  {
    if rule.Obj? { StripRulesCount(rule, SubRules(rule)); }
  }

  lemma {:induction false} StripRulesCount(parent: Value, rules: seq<Value>)
    requires forall i :: 0 <= i < |rules| ==> rules[i] < parent
    ensures StripRules(parent, rules).1 == FamilyFieldsOf(parent, rules)
    decreases parent, 0, |rules|
  {
    if rules == [] {
    } else {
      StripCounts(rules[0]);
      StripRulesCount(parent, rules[1..]);
    }
  }

  /** Lookup in what is left of a rule. */
  lemma StripLookup(rule: Value, k: Key)
    requires rule.Obj?
    ensures Get(StripRule(rule).0, k) == (
      if k == QueryType || k == IpVersion then None
      else if k == Rules && GetArr(rule, Rules).Some? then Some(Arr(StripRules(rule, SubRules(rule)).0))
      else Get(rule, k))
  {}

  lemma StripSubRulesAre(rule: Value)
    requires rule.Obj?
    ensures SubRules(StripRule(rule).0) == StripRules(rule, SubRules(rule)).0
  {
    StripLookup(rule, Rules);
  }

  /** No rule at any depth keeps an address-family field. */
  lemma {:induction false} StripRemovesFamily(rule: Value)
    ensures !SomeNode(StripRule(rule).0, FamilyField)
    decreases rule, 0
  {
    if rule.Obj? {
      StripLookup(rule, QueryType);
      StripLookup(rule, IpVersion);
      StripSubRulesAre(rule);
      StripRulesRemoveFamily(rule, SubRules(rule));
    }
  }

  lemma {:induction false} StripRulesRemoveFamily(parent: Value, rules: seq<Value>)
    requires forall i :: 0 <= i < |rules| ==> rules[i] < parent
    ensures !SomeRule(StripRules(parent, rules).0, FamilyField)
    decreases parent, 0, |rules|
  {
    if rules == [] {
    } else {
      StripRemovesFamily(rules[0]);
      StripRulesRemoveFamily(parent, rules[1..]);
    }
  }

  /** Stripping a kept rule again changes and counts nothing. */
  lemma {:induction false} StripTwice(rule: Value)
    requires !StripRule(rule).2
    ensures StripRule(StripRule(rule).0) == (StripRule(rule).0, 0, false)
    decreases rule, 0
  {
    if rule.Obj? {
      var once := StripRule(rule).0;
      StripSubRulesAre(rule);
      StripRulesTwice(rule, SubRules(rule), once);
      StrippedShape(rule);
    }
  }

  lemma StrippedShape(rule: Value)
    requires rule.Obj?
    ensures var once, subs := StripRule(rule).0, StripRules(rule, SubRules(rule)).0;
      && once.fields - {QueryType, IpVersion} == once.fields && OwnFamilyFields(once) == 0
      && GetArr(once, Rules).Some? == GetArr(rule, Rules).Some?
      && (GetArr(rule, Rules).Some? ==> once.fields[Rules := Arr(subs)] == once.fields)
  {
    StripLookup(rule, QueryType);
    StripLookup(rule, IpVersion);
    StripLookup(rule, Rules);
  }

  lemma {:induction false} StripRulesTwice(parent: Value, rules: seq<Value>, parent': Value)
    requires AllBelow(rules, parent) && AllBelow(StripRules(parent, rules).0, parent')
    ensures StripRules(parent', StripRules(parent, rules).0) == (StripRules(parent, rules).0, 0)
    decreases parent, 0, |rules|
  {
    if rules == [] {
    } else {
      var (first, _, drop) := StripRule(rules[0]);
      var rest := StripRules(parent, rules[1..]).0;
      assert AllBelow(rules[1..], parent) && rules[0] < parent;
      if drop {
        StripRulesTwice(parent, rules[1..], parent');
      } else {
        StripTwice(rules[0]);
        var all := StripRules(parent, rules).0;
        TailBelow(first, rest, parent');
        StripRulesTwice(parent, rules[1..], parent');
        assert all == [first] + rest && all[1..] == rest;
      }
    }
  }

  lemma TailBelow(first: Value, rest: seq<Value>, parent: Value)
    requires AllBelow([first] + rest, parent)
    ensures AllBelow(rest, parent) && first < parent
  {
    var all := [first] + rest;
    assert all[0] == first;
    forall i | 0 <= i < |rest| ensures rest[i] < parent { assert all[i + 1] == rest[i]; }
  }

  /** A rule that lost a field survives only with a condition or sub-rules, so
      stripping never turns a rule into one that matches every query. */
  lemma StrippedStillConditional(rule: Value)
    requires FamilyFields(rule) > 0 && !StripRule(rule).2
    ensures var r := StripRule(rule).0;
      SubRules(r) != [] || exists k :: k in r.fields && !NonMatchKey(k)
  {
    StripCounts(rule);
    StripSubRulesAre(rule);
  }

  // ---- stripping and removing never create a signal

  /** Equal members, apart from those in `ks`. */
  ghost predicate AgreeExcept(a: Value, b: Value, ks: set<Key>) {
    a.Obj? && b.Obj? && forall k :: k !in ks ==> Get(a, k) == Get(b, k)
  }

  /** `p` does not look at the members in `ks`. */
  ghost predicate Ignores(p: Value -> bool, ks: set<Key>) {
    forall a: Value, b: Value :: AgreeExcept(a, b, ks) ==> p(a) == p(b)
  }

  lemma {:induction false} StripKeepsSignals(rule: Value, p: Value -> bool)
    requires Ignores(p, {QueryType, IpVersion, Rules}) && SomeNode(StripRule(rule).0, p)
    ensures SomeNode(rule, p)
    decreases rule, 0
  {
    var r := StripRule(rule).0;
    StripSubRulesAre(rule);
    forall k | k !in {QueryType, IpVersion, Rules} ensures Get(r, k) == Get(rule, k) {
      StripLookup(rule, k);
    }
    assert AgreeExcept(r, rule, {QueryType, IpVersion, Rules});
    if !p(rule) {
      StripRulesKeepSignals(rule, SubRules(rule), p);
    }
  }

  lemma {:induction false} StripRulesKeepSignals(parent: Value, rules: seq<Value>, p: Value -> bool)
    requires forall i :: 0 <= i < |rules| ==> rules[i] < parent
    requires Ignores(p, {QueryType, IpVersion, Rules}) && SomeRule(StripRules(parent, rules).0, p)
    ensures SomeRule(rules, p)
    decreases parent, 0, |rules|
  {
    var kept := StripRules(parent, rules).0;
    if rules == [] {
    } else {
      var (first, _, drop) := StripRule(rules[0]);
      var rest := StripRules(parent, rules[1..]).0;
      if !drop && SomeNode(first, p) {
        StripKeepsSignals(rules[0], p);
        assert SomeNode(rules[0], p);
      } else {
        var i :| 0 <= i < |kept| && SomeNode(kept[i], p);
        if !drop { assert kept[i] == rest[i - 1]; }
        assert SomeRule(rest, p);
        StripRulesKeepSignals(parent, rules[1..], p);
        var j :| 0 <= j < |rules[1..]| && SomeNode(rules[1..][j], p);
        assert rules[j + 1] == rules[1..][j];
      }
    }
  }

  lemma SameOptions(a: Value, b: Value)
    requires Get(a, Race) == Get(b, Race) && Get(a, Speculative) == Get(b, Speculative)
    requires Get(a, DisableOptimisticCache) == Get(b, DisableOptimisticCache)
    ensures ModernOption(a) == ModernOption(b)
  {}

  lemma SameResponses(a: Value, b: Value)
    requires Get(a, ResponseRcode) == Get(b, ResponseRcode) && Get(a, ResponseAnswer) == Get(b, ResponseAnswer)
    requires Get(a, ResponseNs) == Get(b, ResponseNs) && Get(a, ResponseExtra) == Get(b, ResponseExtra)
    ensures ModernResponse(a) == ModernResponse(b)
  {
    assert forall k :: Has(a, k) == Get(a, k).Some? && Has(b, k) == Get(b, k).Some?;
  }

  const UNREAD: set<Key> := {QueryType, IpVersion, Rules, Strategy}

  lemma ModernIgnores()
    ensures Ignores(ModernFeature, UNREAD)
  {
    forall a: Value, b: Value | AgreeExcept(a, b, UNREAD) ensures ModernFeature(a) == ModernFeature(b) {
      SameModern(a, b);
    }
  }

  lemma SameModern(a: Value, b: Value)
    requires AgreeExcept(a, b, UNREAD)
    ensures ModernFeature(a) == ModernFeature(b)
  {
    SameOptions(a, b);
    SameResponses(a, b);
    assert Get(a, MatchResponse) == Get(b, MatchResponse) && Get(a, Action) == Get(b, Action);
    assert GetStr(a, Action) == GetStr(b, Action);
  }

  lemma IgnoresFewer(p: Value -> bool, ks: set<Key>, fewer: set<Key>)
    requires Ignores(p, ks) && fewer <= ks
    ensures Ignores(p, fewer)
  {
    forall a: Value, b: Value | AgreeExcept(a, b, fewer) ensures p(a) == p(b) {
      assert AgreeExcept(a, b, ks);
    }
  }

  /** Whenever the classification accepts a block, it is on one side of the split. */
  lemma ReconcileConsistent(rules: seq<Value>, isLegacySet: string -> bool)
    ensures var r := Reconcile(rules, isLegacySet); r.Kept? ==> ModeConsistent(r.rules, isLegacySet)
  {
    var r := Reconcile(rules, isLegacySet);
    if r.Kept? && r.legacy {
      StripRulesRemoveFamily(Arr(rules), rules);
      ModernIgnores();
      IgnoresFewer(ModernFeature, UNREAD, {QueryType, IpVersion, Rules});
      if SomeRule(r.rules, ModernFeature) {
        StripRulesKeepSignals(Arr(rules), rules, ModernFeature);
      }
    }
  }
}
