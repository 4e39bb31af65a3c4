/** Rewriting subscription rules for a shared document: legacy `geoip` and
    `geosite` matchers become remote rule-set references. */
module ShareRules {
  import opened JsonValue
  import opened RuleKeys
  import opened RuleSemantics
  import opened RuleRefs

  /** The rule-set definitions collected so far, and their tags. */
  datatype Tables = Tables(sets: seq<Value>, tags: set<string>)

  const GEOIP_RULE_SET_BASE := "https://raw.githubusercontent.com/Loyalsoldier/geoip/release/srs"
  const GEOSITE_RULE_SET_BASE := "https://raw.githubusercontent.com/SagerNet/sing-geosite/rule-set"

  function UpstreamUrl(name: string): string {
    if StartsWith(name, "geoip-") then GEOIP_RULE_SET_BASE + "/" + name[6..] + ".srs"
    else GEOSITE_RULE_SET_BASE + "/" + name + ".srs"
  }

  predicate CodeCharOk(code: string, i: nat)
    requires i < |code|
  {
    IsAlnum(code[i]) || code[i] == '-' || (code[i] == '!' && i > 0 && code[i - 1] == '-')
  }

  /** A country code or category; `!` only right after a `-`. */
  predicate GeoCodeOk(code: string) {
    0 < |code| <= 64 && forall i :: 0 <= i < |code| ==> CodeCharOk(code, i)
  }

  function RemoteSet(tag: string): Value {
    Obj(map[Type := Str("remote"), Tag := Str(tag), Format := Str("binary"), Url := Str(UpstreamUrl(tag))])
  }

  /** The portable sets of a profile, the first one for a tag. */
  function OwnSets(portable: seq<Value>, t: Tables): Tables
    decreases |portable|
  {
    if portable == [] then t
    else
      var tag := GetStr(portable[0], Tag);
      OwnSets(portable[1..],
              if tag.Some? && tag.value !in t.tags then Tables(t.sets + [portable[0]], t.tags + {tag.value}) else t)
  }

  function EnsureShareGeoSet(kind: GeoKind, code: string, t: Tables): (Option<string>, Tables) {
    var tag := GeoTag(kind, code);
    if !GeoCodeOk(code) then (None, t)
    else if tag in t.tags then (Some(tag), t)
    else (Some(tag), Tables(t.sets + [RemoteSet(tag)], t.tags + {tag}))
  }

  /** The first private atom becomes a plain one. */
  function ClearPrivateNegation(atoms: seq<Literal>): (r: seq<Literal>)
    ensures |r| == |atoms|
  {
    if atoms == [] then []
    else if atoms[0].atom.PrivateAddress? then [Literal(PrivateAddress, false)] + atoms[1..]
    else [atoms[0]] + ClearPrivateNegation(atoms[1..])
  }

  function PushGeoAtom(kind: GeoKind, code: string, atoms: seq<Literal>, t: Tables): (seq<Literal>, Tables) {
    var invert, bare := IsNegatedCode(code), BareCode(code);
    if NamesPrivate(kind, bare) then
      if exists i :: 0 <= i < |atoms| && atoms[i].atom.PrivateAddress? then
        (if invert then atoms else ClearPrivateNegation(atoms), t)
      else (atoms + [Literal(PrivateAddress, invert)], t)
    else
      var (tag, t') := EnsureShareGeoSet(kind, bare, t);
      if tag.None? || Literal(InSet(tag.value), invert) in atoms then (atoms, t')
      else (atoms + [Literal(InSet(tag.value), invert)], t')
  }

  function PushGeoAtoms(kind: GeoKind, codes: seq<string>, atoms: seq<Literal>, t: Tables): (seq<Literal>, Tables) {
    if codes == [] then (atoms, t)
    else
      var (atoms', t') := PushGeoAtom(kind, codes[0], atoms, t);
      PushGeoAtoms(kind, codes[1..], atoms', t')
  }

  function RuleSetValue(tags: seq<string>): Value {
    if |tags| == 1 then Str(tags[0]) else Arr(ToStrs(tags))
  }

  function AtomRule(l: Literal): Value {
    var body := if l.atom.PrivateAddress? then map[IpIsPrivate := Bool(true)] else map[RuleSet := Str(l.atom.tag)];
    Obj(if l.negated then body[Invert := Bool(true)] else body)
  }

  predicate PlainSets(atoms: seq<Literal>) {
    forall i :: 0 <= i < |atoms| ==> atoms[i].atom.InSet? && !atoms[i].negated
  }

  function OrAtoms(atoms: seq<Literal>): Value
    requires atoms != []
  {
    if PlainSets(atoms) then
      Obj(map[RuleSet := RuleSetValue(seq(|atoms|, i requires 0 <= i < |atoms| => atoms[i].atom.tag))])
    else if |atoms| == 1 then AtomRule(atoms[0])
    else Obj(map[Type := Str("logical"), Mode := Str("or"),
                 Rules := Arr(seq(|atoms|, i requires 0 <= i < |atoms| => AtomRule(atoms[i])))])
  }

  function MetaOf(m: map<Key, Value>): map<Key, Value> {
    m - (set k | k in m && !MetaKey(k))
  }

  function MatchersOf(m: map<Key, Value>): map<Key, Value> {
    m - (set k | k in m && MetaKey(k))
  }

  /** Copy matcher fields onto `meta`. Two `invert` flags cancel. */
  function MergeRuleFields(meta: map<Key, Value>, child: map<Key, Value>): map<Key, Value> {
    var merged := meta + (child - {Invert});
    if Flag(Obj(meta), Invert) != Flag(Obj(child), Invert) then merged[Invert := Bool(true)]
    else merged - {Invert}
  }

  function LogicalFields(mode: string, children: seq<Value>): map<Key, Value> {
    map[Type := Str("logical"), Mode := Str(mode), Rules := Arr(children)]
  }

  function RebuildLogical(parent: Value, mode: string, children: seq<Value>): Value {
    Obj((if parent.Obj? then MetaOf(parent.fields) else map[]) + LogicalFields(mode, children))
  }

  /** The conjuncts a rule falls into once its geo matchers are compiled. */
  function AndChildren(base: map<Key, Value>, parts: seq<Value>): seq<Value> {
    var matchers := MatchersOf(base);
    var rest := matchers - {RuleSet};
    var existing := if RuleSet in matchers then RuleSetList(matchers[RuleSet]) else [];
    (if rest == map[] then [] else [Obj(rest)]) +
    (if existing == [] then [] else [Obj(map[RuleSet := RuleSetValue(existing)])]) +
    parts
  }

  function AndRuleParts(base: map<Key, Value>, parts: seq<Value>): Value {
    var meta := MetaOf(base);
    var children := AndChildren(base, parts);
    if |children| == 1 && children[0].Obj? then Obj(MergeRuleFields(meta, children[0].fields))
    else if children == [] then Obj(meta)
    else Obj(meta + LogicalFields("and", children))
  }

  predicate HasMatcher(rule: Value) {
    rule.Obj? && ((exists k :: k in rule.fields && !MetaKey(k)) || IsLogical(rule))
  }

  function GeoAtoms(kind: GeoKind, rule: Value, t: Tables): (seq<Literal>, Tables) {
    if Has(rule, KindKey(kind)) then PushGeoAtoms(kind, GeoCodes(rule.fields[KindKey(kind)]), [], t) else ([], t)
  }

  function Parts(atoms: seq<Literal>): seq<Value> {
    if atoms == [] then [] else [OrAtoms(atoms)]
  }

  function RewriteGeoShareRule(rule: Value, t: Tables): (r: (seq<Value>, Tables))
    requires rule.Obj?
    ensures |r.0| <= 1
  {
    if !Has(rule, Geoip) && !Has(rule, Geosite) then
      (if RuleSetRefsKnown(rule, t.tags) then [rule] else [], t)
    else
      var base := rule.fields - {Geoip, Geosite};
      if !RuleSetRefsKnown(Obj(base), t.tags) then ([], t)
      else
        var (ips, t1) := GeoAtoms(GeoIp, rule, t);
        var (sites, t2) := GeoAtoms(GeoSite, rule, t1);
        var parts := Parts(ips) + Parts(sites);
        if parts == [] then (if HasMatcher(Obj(base)) then [Obj(base)] else [], t2)
        else
          var compiled := AndRuleParts(base, parts);
          (if RuleSetRefsKnown(compiled, t2.tags) && HasMatcher(compiled) then [compiled] else [], t2)
  }

  predicate OutboundOk(rule: Value, outs: set<string>) {
    var o := GetStr(rule, Outbound);
    o.None? || o.value == "direct" || o.value == "block" || o.value in outs
  }

  function ExpandShareRules(rule: Value, outs: set<string>, t: Tables): (r: (seq<Value>, Tables))
    ensures |r.0| <= 1
    decreases rule, 0
  {
    if !rule.Obj? || Has(rule, Inbound) || !OutboundOk(rule, outs) then ([], t)
    else if !IsLogical(rule) then RewriteGeoShareRule(rule, t)
    else if GetArr(rule, Rules).None? then ([], t)
    else
      var (expanded, t') := ExpandChildren(rule, SubRules(rule), outs, t);
      (if IsOr(rule) then
         if Flatten(expanded) == [] then [] else [RebuildLogical(rule, "or", Flatten(expanded))]
       else if exists i :: 0 <= i < |expanded| && expanded[i] == [] then []
       else [RebuildLogical(rule, "and", Wrapped(expanded))], t')
  }

  function ExpandChildren(parent: Value, rules: seq<Value>, outs: set<string>, t: Tables)
    : (r: (seq<seq<Value>>, Tables))
    requires forall i :: 0 <= i < |rules| ==> rules[i] < parent
    ensures |r.0| == |rules| && forall i :: 0 <= i < |r.0| ==> |r.0[i]| <= 1
    decreases parent, 0, |rules|
  {
    if rules == [] then ([], t)
    else
      var (first, t1) := ExpandShareRules(rules[0], outs, t);
      var (rest, t2) := ExpandChildren(parent, rules[1..], outs, t1);
      ([first] + rest, t2)
  }

  function Flatten(lists: seq<seq<Value>>): seq<Value> {
    if lists == [] then [] else lists[0] + Flatten(lists[1..])
  }

  /** Each non-empty alternative list as one rule. */
  function Wrapped(lists: seq<seq<Value>>): seq<Value> {
    if lists == [] then []
    else [if |lists[0]| == 1 then lists[0][0] else RebuildLogical(Null, "or", lists[0])] + Wrapped(lists[1..])
  }

  /** The route or DNS rules of a shared document. */
  function ExpandList(rules: seq<Value>, outs: set<string>, t: Tables): (r: (seq<Value>, Tables))
    ensures |r.0| <= |rules|
  {
    if rules == [] then ([], t)
    else
      var (first, t1) := ExpandShareRules(rules[0], outs, t);
      var (rest, t2) := ExpandList(rules[1..], outs, t1);
      (first + rest, t2)
  }
}
