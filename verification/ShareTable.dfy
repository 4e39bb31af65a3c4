/** The share rewrite as it runs: one table of rule-set definitions that every
    rule adds to in turn. */
module ShareTable {
  import opened JsonValue
  import opened RuleKeys
  import opened RuleSemantics
  import opened RuleRefs
  import opened ShareRules

  lemma {:induction false} ClearAtFirst(atoms: seq<Literal>, i: nat)
    requires i < |atoms| && atoms[i].atom.PrivateAddress?
    requires forall j :: 0 <= j < i ==> !atoms[j].atom.PrivateAddress?
    ensures ClearPrivateNegation(atoms) == atoms[i := Literal(PrivateAddress, false)]
  {
    if i == 0 {
    } else {
      ClearAtFirst(atoms[1..], i - 1);
      assert atoms == [atoms[0]] + atoms[1..];
    }
  }

  /** The finished children, then what is left to do from `t`. */
  ghost function EachSoFar(parent: Value, children: seq<Value>, i: nat, outs: set<string>, t: Tables,
      done: seq<seq<Value>>): (seq<seq<Value>>, Tables)
    requires i <= |children| && forall j :: 0 <= j < |children| ==> children[j] < parent
  {
    var (rest, t') := ExpandChildren(parent, children[i..], outs, t);
    (done + rest, t')
  }

  lemma EachStart(parent: Value, children: seq<Value>, outs: set<string>, t: Tables)
    requires forall j :: 0 <= j < |children| ==> children[j] < parent
    ensures EachSoFar(parent, children, 0, outs, t, []) == ExpandChildren(parent, children, outs, t)
  {
    assert children[0..] == children;
    var all := ExpandChildren(parent, children, outs, t).0;
    assert [] + all == all;
  }

  lemma EachStep(parent: Value, children: seq<Value>, i: nat, outs: set<string>, t: Tables, done: seq<seq<Value>>)
    requires i < |children| && forall j :: 0 <= j < |children| ==> children[j] < parent
    ensures var (one, t1) := ShareRules.ExpandShareRules(children[i], outs, t);
      EachSoFar(parent, children, i, outs, t, done) == EachSoFar(parent, children, i + 1, outs, t1, done + [one])
  {
    var (one, t1) := ShareRules.ExpandShareRules(children[i], outs, t);
    assert children[i..][0] == children[i] && children[i..][1..] == children[i + 1..];
    var rest := ExpandChildren(parent, children[i + 1..], outs, t1).0;
    assert done + ([one] + rest) == (done + [one]) + rest;
  }

  /** The rules shared so far, then what is left to share from `t`. */
  ghost function ListSoFar(todo: seq<Value>, outs: set<string>, t: Tables, done: seq<Value>): (seq<Value>, Tables) {
    var (rest, t') := ExpandList(todo, outs, t);
    (done + rest, t')
  }

  lemma ListStep(todo: seq<Value>, outs: set<string>, t: Tables, done: seq<Value>)
    requires todo != []
    ensures var (one, t1) := ShareRules.ExpandShareRules(todo[0], outs, t);
      ListSoFar(todo, outs, t, done) == ListSoFar(todo[1..], outs, t1, done + one)
  {
    var (one, t1) := ShareRules.ExpandShareRules(todo[0], outs, t);
    var rest := ExpandList(todo[1..], outs, t1).0;
    assert done + (one + rest) == (done + one) + rest;
  }

  lemma ListEnds(rules: seq<Value>, outs: set<string>, t: Tables)
    ensures ListSoFar(rules, outs, t, []) == ExpandList(rules, outs, t)
    ensures forall done :: ListSoFar([], outs, t, done) == (done, t)
  {
    var all := ExpandList(rules, outs, t).0;
    assert [] + all == all;
    forall done: seq<Value> ensures done + [] == done {}
  }

  class RuleSetTable {
    var sets: seq<Value>
    var tags: set<string>

    ghost function State(): Tables
      reads this
    {
      Tables(sets, tags)
    }

    constructor (t: Tables)
      ensures State() == t
    {
      sets, tags := t.sets, t.tags;
    }

    method PushOwnSets(portable: seq<Value>)
      modifies this
      ensures State() == OwnSets(portable, old(State()))
    {
      var i := 0;
      assert portable[0..] == portable;
      while i < |portable|
        invariant i <= |portable|
        invariant OwnSets(portable[i..], State()) == OwnSets(portable, old(State()))
      {
        assert portable[i..][0] == portable[i] && portable[i..][1..] == portable[i + 1..];
        var tag := GetStr(portable[i], Tag);
        if tag.Some? && tag.value !in tags {
          tags := tags + {tag.value};
          sets := sets + [portable[i]];
        }
        i := i + 1;
      }
    }

    method EnsureShareGeoSet(kind: GeoKind, code: string) returns (tag: Option<string>)
      modifies this
      ensures (tag, State()) == ShareRules.EnsureShareGeoSet(kind, code, old(State()))
    {
      if !GeoCodeOk(code) { return None; }
      var name := GeoTag(kind, code);
      if name in tags { return Some(name); }
      sets := sets + [RemoteSet(name)];
      tags := tags + {name};
      return Some(name);
    }

    method PushGeoAtom(kind: GeoKind, code: string, atoms: seq<Literal>) returns (r: seq<Literal>)
      modifies this
      ensures (r, State()) == ShareRules.PushGeoAtom(kind, code, atoms, old(State()))
    {
      r := atoms;
      var invert, bare := IsNegatedCode(code), BareCode(code);
      if NamesPrivate(kind, bare) {
        var i := 0;
        while i < |atoms| && !atoms[i].atom.PrivateAddress?
          invariant i <= |atoms|
          invariant forall j :: 0 <= j < i ==> !atoms[j].atom.PrivateAddress?
        {
          i := i + 1;
        }
        if i < |atoms| {
          if !invert {
            ClearAtFirst(atoms, i);
            r := atoms[i := Literal(PrivateAddress, false)];
          }
          return;
        }
        r := atoms + [Literal(PrivateAddress, invert)];
        return;
      }
      var tag := EnsureShareGeoSet(kind, bare);
      if tag == None { return; }
      if Literal(InSet(tag.value), invert) in atoms { return; }
      r := atoms + [Literal(InSet(tag.value), invert)];
    }

    method PushCodes(kind: GeoKind, codes: seq<string>) returns (atoms: seq<Literal>)
      modifies this
      ensures (atoms, State()) == PushGeoAtoms(kind, codes, [], old(State()))
    {
      atoms := [];
      var i := 0;
      while i < |codes|
        invariant i <= |codes|
        invariant PushGeoAtoms(kind, codes[i..], atoms, State()) == PushGeoAtoms(kind, codes, [], old(State()))
      {
        atoms := PushGeoAtom(kind, codes[i], atoms);
        i := i + 1;
      }
    }

    method RewriteGeoShareRule(rule: Value) returns (out: seq<Value>)
      requires rule.Obj?
      modifies this
      ensures (out, State()) == ShareRules.RewriteGeoShareRule(rule, old(State()))
    {
      if !Has(rule, Geoip) && !Has(rule, Geosite) {
        return if RuleSetRefsKnown(rule, tags) then [rule] else [];
      }
      var base := rule.fields - {Geoip, Geosite};
      if !RuleSetRefsKnown(Obj(base), tags) { return []; }
      var ips, sites := [], [];
      if Has(rule, Geoip) { ips := PushCodes(GeoIp, GeoCodes(rule.fields[Geoip])); }
      if Has(rule, Geosite) { sites := PushCodes(GeoSite, GeoCodes(rule.fields[Geosite])); }
      var parts := [];
      if ips != [] { parts := parts + [OrAtoms(ips)]; }
      if sites != [] { parts := parts + [OrAtoms(sites)]; }
      assert parts == Parts(ips) + Parts(sites);
      if parts == [] {
        return if HasMatcher(Obj(base)) then [Obj(base)] else [];
      }
      var compiled := AndRuleParts(base, parts);
      return if RuleSetRefsKnown(compiled, tags) && HasMatcher(compiled) then [compiled] else [];
    }

    method ExpandShareRules(rule: Value, outs: set<string>) returns (out: seq<Value>)
      modifies this
      ensures (out, State()) == ShareRules.ExpandShareRules(rule, outs, old(State()))
      decreases rule, 1
    {
      if !rule.Obj? || Has(rule, Inbound) || !OutboundOk(rule, outs) { return []; }
      if !IsLogical(rule) {
        out := RewriteGeoShareRule(rule);
        return;
      }
      if GetArr(rule, Rules) == None { return []; }
      var expanded := ExpandEach(rule, SubRules(rule), outs);
      if IsOr(rule) {
        var kept := Flatten(expanded);
        return if kept == [] then [] else [RebuildLogical(rule, "or", kept)];
      }
      if exists k :: 0 <= k < |expanded| && expanded[k] == [] { return []; }
      return [RebuildLogical(rule, "and", Wrapped(expanded))];
    }

    method ExpandEach(parent: Value, children: seq<Value>, outs: set<string>) returns (expanded: seq<seq<Value>>)
      requires forall i :: 0 <= i < |children| ==> children[i] < parent
      modifies this
      ensures (expanded, State()) == ExpandChildren(parent, children, outs, old(State()))
      decreases parent, 0
    {
      expanded := [];
      var i := 0;
      EachStart(parent, children, outs, State());
      while i < |children|
        invariant i <= |children|
        invariant EachSoFar(parent, children, i, outs, State(), expanded) ==
          ExpandChildren(parent, children, outs, old(State()))
      {
        ghost var before := State();
        var one := ExpandShareRules(children[i], outs);
        EachStep(parent, children, i, outs, before, expanded);
        expanded := expanded + [one];
        i := i + 1;
      }
      assert children[i..] == [] && expanded + [] == expanded;
    }

    /** All rules of a document, in order. */
    method ExpandAll(rules: seq<Value>, outs: set<string>) returns (out: seq<Value>)
      modifies this
      ensures (out, State()) == ExpandList(rules, outs, old(State()))
    {
      out := [];
      var i := 0;
      ListEnds(rules, outs, State());
      assert rules[0..] == rules;
      while i < |rules|
        invariant i <= |rules|
        invariant ListSoFar(rules[i..], outs, State(), out) == ExpandList(rules, outs, old(State()))
      {
        ListStep(rules[i..], outs, State(), out);
        assert rules[i..][0] == rules[i] && rules[i..][1..] == rules[i + 1..];
        var one := ExpandShareRules(rules[i], outs);
        out := out + one;
        i := i + 1;
      }
      assert rules[i..] == [];
      ListEnds([], outs, State());
    }
  }
}
