/** Trimming outbound groups for a shared document: members that name no live
    outbound go, then groups that became empty, until nothing changes. */
module ShareGroups {
  import opened JsonValue
  import opened RuleKeys

  predicate IsGroupType(ty: string) {
    ty == "selector" || ty == "urltest" || ty == "fallback" || ty == "loadbalance" || ty == "load-balance"
  }

  predicate IsGroup(o: Value) {
    GetStr(o, Type).Some? && IsGroupType(GetStr(o, Type).value)
  }

  function TagOf(o: Value): Option<string> {
    GetStr(o, Tag)
  }

  function Members(o: Value): seq<Value> {
    if GetArr(o, Outbounds).Some? then GetArr(o, Outbounds).value else []
  }

  function LiveMembers(ms: seq<Value>, tags: set<string>): (r: seq<Value>)
    ensures forall m :: m in r <==> m in ms && m.Str? && m.s in tags
  {
    if ms == [] then []
    else if ms[0].Str? && ms[0].s in tags then [ms[0]] + LiveMembers(ms[1..], tags)
    else LiveMembers(ms[1..], tags)
  }

  function RetainMembers(o: Value, tags: set<string>): Value {
    if GetArr(o, Outbounds).Some? then Obj(o.fields[Outbounds := Arr(LiveMembers(Members(o), tags))]) else o
  }

  predicate DefaultOk(o: Value) {
    GetStr(o, Default).Some? && GetStr(o, Default).value in StrItems(Members(o))
  }

  function RetargetShareSelector(o: Value): Value {
    if GetStr(o, Type) != Some("selector") || DefaultOk(o) then o
    else if StrItems(Members(o)) != [] then Obj(o.fields[Default := Str(StrItems(Members(o))[0])])
    else Obj(o.fields - {Default})
  }

  function Refresh(o: Value, tags: set<string>): Value {
    if IsGroup(o) then RetargetShareSelector(RetainMembers(o, tags)) else o
  }

  function RefreshAll(outs: seq<Value>, tags: set<string>): (r: seq<Value>)
    ensures |r| == |outs| && forall i :: 0 <= i < |r| ==> r[i] == Refresh(outs[i], tags)
  {
    seq(|outs|, i requires 0 <= i < |outs| => Refresh(outs[i], tags))
  }

  predicate Empty(o: Value) {
    IsGroup(o) && Members(o) == []
  }

  /** The outbounds whose tag is live. */
  function Survivors(outs: seq<Value>, live: set<string>): (r: seq<Value>)
    ensures |r| <= |outs|
    ensures forall o :: o in r <==> o in outs && TagOf(o).Some? && TagOf(o).value in live
  {
    if outs == [] then []
    else if TagOf(outs[0]).Some? && TagOf(outs[0]).value in live then [outs[0]] + Survivors(outs[1..], live)
    else Survivors(outs[1..], live)
  }

  predicate AllTagged(outs: seq<Value>, tags: set<string>) {
    forall i :: 0 <= i < |outs| ==> TagOf(outs[i]).Some? && TagOf(outs[i]).value in tags
  }

  predicate DistinctTags(outs: seq<Value>) {
    forall i, j :: 0 <= i < j < |outs| ==> TagOf(outs[i]) != TagOf(outs[j])
  }

  /** Every group with a tag in `s` has a member in `s`. */
  ghost predicate Supported(outs: seq<Value>, s: set<string>) {
    forall i :: 0 <= i < |outs| && IsGroup(outs[i]) && TagOf(outs[i]).Some? && TagOf(outs[i]).value in s ==>
      LiveMembers(Members(outs[i]), s) != []
  }

  // ---- refreshing

  lemma {:induction false} LiveMembersTwice(ms: seq<Value>, more: set<string>, tags: set<string>)
    requires tags <= more
    ensures LiveMembers(LiveMembers(ms, more), tags) == LiveMembers(ms, tags)
  {
    if ms == [] {
    } else {
      LiveMembersTwice(ms[1..], more, tags);
      var first := LiveMembers(ms, more);
      if ms[0].Str? && ms[0].s in more {
        assert first[0] == ms[0] && first[1..] == LiveMembers(ms[1..], more);
      }
    }
  }

  lemma LiveMembersMonotone(ms: seq<Value>, tags: set<string>, more: set<string>)
    requires tags <= more && LiveMembers(ms, tags) != []
    ensures LiveMembers(ms, more) != []
  {
    var m := LiveMembers(ms, tags)[0];
    assert m in LiveMembers(ms, tags);
    assert m in LiveMembers(ms, more);
  }

  // ---- refreshing, member by member

  function KeepNames(names: seq<string>, tags: set<string>): seq<string> {
    if names == [] then []
    else if names[0] in tags then [names[0]] + KeepNames(names[1..], tags)
    else KeepNames(names[1..], tags)
  }

  /** A default that is still a member stays; otherwise the first member. */
  function DefaultAfter(d: Option<Value>, names: seq<string>): Option<Value> {
    if d.Some? && d.value.Str? && d.value.s in names then d
    else if names != [] then Some(Str(names[0]))
    else None
  }

  lemma {:induction false} LiveNames(ms: seq<Value>, tags: set<string>)
    ensures StrItems(LiveMembers(ms, tags)) == KeepNames(StrItems(ms), tags)
  {
    if ms == [] {
    } else {
      LiveNames(ms[1..], tags);
      if ms[0].Str? && ms[0].s in tags {
        assert LiveMembers(ms, tags)[1..] == LiveMembers(ms[1..], tags);
      }
      if ms[0].Str? { assert StrItems(ms)[1..] == StrItems(ms[1..]); }
    }
  }

  lemma {:induction false} KeepNamesFacts(names: seq<string>, tags: set<string>)
    ensures forall n :: n in KeepNames(names, tags) <==> n in names && n in tags
    ensures names != [] && names[0] in tags ==> KeepNames(names, tags) != [] && KeepNames(names, tags)[0] == names[0]
  {
    if names == [] {
    } else {
      KeepNamesFacts(names[1..], tags);
    }
  }

  lemma DefaultAfterTwice(d: Option<Value>, names: seq<string>, more: set<string>, tags: set<string>)
    requires tags <= more
    ensures DefaultAfter(DefaultAfter(d, KeepNames(names, more)), KeepNames(names, tags)) ==
      DefaultAfter(d, KeepNames(names, tags))
  {
    KeepNamesFacts(names, more);
    KeepNamesFacts(names, tags);
    KeepNamesFacts(KeepNames(names, more), tags);
    KeepNamesTwice(names, more, tags);
  }

  lemma {:induction false} KeepNamesTwice(names: seq<string>, more: set<string>, tags: set<string>)
    requires tags <= more
    ensures KeepNames(KeepNames(names, more), tags) == KeepNames(names, tags)
  {
    if names == [] {
    } else {
      KeepNamesTwice(names[1..], more, tags);
      if names[0] in more { assert KeepNames(names, more)[1..] == KeepNames(names[1..], more); }
    }
  }

  lemma RetainLookup(o: Value, tags: set<string>, k: Key)
    requires o.Obj?
    ensures Get(RetainMembers(o, tags), k) ==
      if k == Outbounds && GetArr(o, Outbounds).Some? then Some(Arr(LiveMembers(Members(o), tags))) else Get(o, k)
  {}

  lemma RetargetLookup(o: Value, k: Key)
    requires o.Obj?
    ensures Get(RetargetShareSelector(o), k) ==
      if k == Default && GetStr(o, Type) == Some("selector")
        then DefaultAfter(Get(o, Default), StrItems(Members(o))) else Get(o, k)
  {}

  /** What one pass leaves of each member of a group object. */
  lemma RefreshLookup(o: Value, tags: set<string>, k: Key)
    requires IsGroup(o)
    ensures Get(Refresh(o, tags), k) == (
      if k == Outbounds && GetArr(o, Outbounds).Some? then Some(Arr(LiveMembers(Members(o), tags)))
      else if k == Default && GetStr(o, Type) == Some("selector") then
        DefaultAfter(Get(o, Default), KeepNames(StrItems(Members(o)), tags))
      else Get(o, k))
  {
    LiveNames(Members(o), tags);
    var kept := RetainMembers(o, tags);
    RetainShape(o, tags);
    RetainLookup(o, tags, k);
    RetargetLookup(kept, k);
  }

  lemma RetainShape(o: Value, tags: set<string>)
    requires o.Obj?
    ensures var kept := RetainMembers(o, tags);
      && kept.Obj? && GetStr(kept, Type) == GetStr(o, Type) && Get(kept, Default) == Get(o, Default)
      && Members(kept) == LiveMembers(Members(o), tags)
  {
    RetainLookup(o, tags, Type);
    RetainLookup(o, tags, Outbounds);
    RetainLookup(o, tags, Default);
  }

  lemma RefreshFacts(o: Value, tags: set<string>)
    ensures var r := Refresh(o, tags);
      && GetStr(r, Type) == GetStr(o, Type) && TagOf(r) == TagOf(o) && IsGroup(r) == IsGroup(o)
      && (IsGroup(o) ==> Members(r) == LiveMembers(Members(o), tags))
  {
    if IsGroup(o) {
      RefreshLookup(o, tags, Type);
      RefreshLookup(o, tags, Tag);
      RefreshLookup(o, tags, Outbounds);
    }
  }

  /** Only the last set of live tags matters. */
  lemma RefreshTwice(o: Value, more: set<string>, tags: set<string>)
    requires tags <= more
    ensures Refresh(Refresh(o, more), tags) == Refresh(o, tags)
  {
    if IsGroup(o) {
      var once := Refresh(o, more);
      RefreshFacts(o, more);
      LiveMembersTwice(Members(o), more, tags);
      LiveNames(Members(o), more);
      KeepNamesTwice(StrItems(Members(o)), more, tags);
      DefaultAfterTwice(Get(o, Default), StrItems(Members(o)), more, tags);
      forall k ensures Get(Refresh(once, tags), k) == Get(Refresh(o, tags), k) {
        RefreshLookup(o, more, k);
        RefreshLookup(once, tags, k);
        RefreshLookup(o, tags, k);
        RefreshLookup(o, more, Default);
        RefreshLookup(o, more, Outbounds);
      }
      SameFields(Refresh(once, tags), Refresh(o, tags));
    }
  }

  // ---- the loop

  function Sweep(outs: seq<Value>): (r: seq<Value>)
    ensures |r| <= |outs|
  {
    if outs == [] then []
    else if Empty(outs[0]) then Sweep(outs[1..])
    else [outs[0]] + Sweep(outs[1..])
  }

  /** Tags of the groups a sweep removes. */
  function EmptyTags(outs: seq<Value>): set<string> {
    set i | 0 <= i < |outs| && Empty(outs[i]) && TagOf(outs[i]).Some? :: TagOf(outs[i]).value
  }

  /** One pass: refresh every group, then drop the empty ones. */
  method Pass(outs: seq<Value>, tags: set<string>) returns (kept: seq<Value>, live: set<string>)
    ensures kept == Sweep(RefreshAll(outs, tags))
    ensures live == tags - EmptyTags(RefreshAll(outs, tags))
  {
    var refreshed := outs;
    var i := 0;
    while i < |outs|
      invariant i <= |outs| == |refreshed|
      invariant forall j :: 0 <= j < |outs| ==> refreshed[j] == if j < i then Refresh(outs[j], tags) else outs[j]
    {
      if IsGroup(refreshed[i]) {
        var cloned := RetainMembers(refreshed[i], tags);
        refreshed := refreshed[i := RetargetShareSelector(cloned)];
      }
      i := i + 1;
    }
    assert refreshed == RefreshAll(outs, tags);
    kept, live := [], tags;
    i := 0;
    assert refreshed[0..] == refreshed;
    while i < |refreshed|
      invariant i <= |refreshed|
      invariant kept + Sweep(refreshed[i..]) == Sweep(refreshed)
      invariant live == tags - EmptyTags(refreshed[..i])
    {
      assert refreshed[..i + 1] == refreshed[..i] + [refreshed[i]] && refreshed[i..][1..] == refreshed[i + 1..];
      SweptTags(refreshed[..i], refreshed[i]);
      if Empty(refreshed[i]) {
        if TagOf(refreshed[i]).Some? { live := live - {TagOf(refreshed[i]).value}; }
      } else {
        assert kept + ([refreshed[i]] + Sweep(refreshed[i + 1..])) ==
          (kept + [refreshed[i]]) + Sweep(refreshed[i + 1..]);
        kept := kept + [refreshed[i]];
      }
      i := i + 1;
    }
    assert refreshed[..i] == refreshed && refreshed[i..] == [];
  }

  lemma SweptTags(outs: seq<Value>, o: Value)
    ensures EmptyTags(outs + [o]) == EmptyTags(outs) + (if Empty(o) && TagOf(o).Some? then {TagOf(o).value} else {})
  {
    var all := outs + [o];
    forall x | x in EmptyTags(outs) ensures x in EmptyTags(all) {
      var i :| 0 <= i < |outs| && Empty(outs[i]) && TagOf(outs[i]) == Some(x);
      assert all[i] == outs[i];
    }
    assert all[|outs|] == o;
  }

  /** After some passes every outbound is as it started or as the pass with
      tags `base` left it. */
  predicate Tracks(outs: seq<Value>, from: seq<Value>, base: set<string>) {
    |outs| == |from| && forall i :: 0 <= i < |outs| ==> outs[i] == from[i] || outs[i] == Refresh(from[i], base)
  }

  lemma RefreshTracked(outs: seq<Value>, from: seq<Value>, base: set<string>, tags: set<string>)
    requires Tracks(outs, from, base) && tags <= base
    ensures RefreshAll(outs, tags) == RefreshAll(from, tags)
  {
    forall i | 0 <= i < |outs| ensures Refresh(outs[i], tags) == Refresh(from[i], tags) {
      RefreshTwice(from[i], base, tags);
    }
  }

  /** The sweep keeps exactly the outbounds whose tag stays live. */
  lemma {:induction false} SweepIsSurvivors(from: seq<Value>, tags: set<string>, live: set<string>)
    requires DistinctTags(from) && AllTagged(from, tags)
    requires forall i :: 0 <= i < |from| ==> (TagOf(from[i]).value in live <==> !Empty(Refresh(from[i], tags)))
    ensures Sweep(RefreshAll(from, tags)) == RefreshAll(Survivors(from, live), tags)
  {
    if from == [] {
    } else {
      assert RefreshAll(from, tags) == [Refresh(from[0], tags)] + RefreshAll(from[1..], tags);
      SweepIsSurvivors(from[1..], tags, live);
      SweepCons(Refresh(from[0], tags), RefreshAll(from[1..], tags));
      if TagOf(from[0]).value in live { RefreshCons(from[0], Survivors(from[1..], live), tags); }
    }
  }

  lemma SweepCons(o: Value, rest: seq<Value>)
    ensures Sweep([o] + rest) == if Empty(o) then Sweep(rest) else [o] + Sweep(rest)
  {
    assert ([o] + rest)[1..] == rest;
  }

  lemma RefreshCons(o: Value, rest: seq<Value>, tags: set<string>)
    ensures RefreshAll([o] + rest, tags) == [Refresh(o, tags)] + RefreshAll(rest, tags)
  {}

  lemma PassLive(from: seq<Value>, tags: set<string>, i: nat)
    requires DistinctTags(from) && AllTagged(from, tags) && i < |from|
    ensures TagOf(from[i]).value in tags - EmptyTags(RefreshAll(from, tags)) <==> !Empty(Refresh(from[i], tags))
  {
    var refreshed := RefreshAll(from, tags);
    forall j | 0 <= j < |from| ensures TagOf(refreshed[j]) == TagOf(from[j]) { RefreshFacts(from[j], tags); }
    if Empty(refreshed[i]) { assert TagOf(refreshed[i]).value in EmptyTags(refreshed); }
  }

  lemma {:induction false} SurvivorsTwice(outs: seq<Value>, more: set<string>, live: set<string>)
    requires live <= more
    ensures Survivors(Survivors(outs, more), live) == Survivors(outs, live)
  {
    if outs == [] {
    } else {
      SurvivorsTwice(outs[1..], more, live);
      if TagOf(outs[0]).Some? && TagOf(outs[0]).value in more {
        assert Survivors(outs, more)[1..] == Survivors(outs[1..], more);
      }
    }
  }

  lemma {:induction false} SurvivorsDistinct(outs: seq<Value>, live: set<string>)
    requires DistinctTags(outs)
    ensures DistinctTags(Survivors(outs, live)) && AllTagged(Survivors(outs, live), live)
  {
    var r := Survivors(outs, live);
    assert forall i :: 0 <= i < |r| ==> r[i] in r;
    if outs == [] {
    } else {
      SurvivorsDistinct(outs[1..], live);
      if TagOf(outs[0]).Some? && TagOf(outs[0]).value in live {
        var rest := Survivors(outs[1..], live);
        assert r == [outs[0]] + rest;
        forall i | 0 <= i < |rest| ensures TagOf(outs[0]) != TagOf(rest[i]) {
          assert rest[i] in outs[1..];
          var j :| 0 <= j < |outs[1..]| && outs[1..][j] == rest[i];
          assert outs[j + 1] == rest[i];
        }
      }
    }
  }

  lemma {:induction false} AllSurvive(outs: seq<Value>, tags: set<string>)
    requires AllTagged(outs, tags)
    ensures Survivors(outs, tags) == outs
  {
    if outs == [] {
    } else {
      AllSurvive(outs[1..], tags);
    }
  }

  /** A supported set of tags loses nothing in a pass. */
  lemma SupportedSurvives(outs: seq<Value>, tags: set<string>, s: set<string>)
    requires DistinctTags(outs) && s <= tags && Supported(outs, s)
    ensures s <= tags - EmptyTags(RefreshAll(Survivors(outs, tags), tags))
  {
    var from := Survivors(outs, tags);
    var refreshed := RefreshAll(from, tags);
    forall x | x in s && x in EmptyTags(refreshed) ensures false {
      var i :| 0 <= i < |refreshed| && Empty(refreshed[i]) && TagOf(refreshed[i]) == Some(x);
      RefreshFacts(from[i], tags);
      assert from[i] in from;
      var j :| 0 <= j < |outs| && outs[j] == from[i];
      LiveMembersMonotone(Members(outs[j]), s, tags);
    }
  }

  /** What a finished trim looks like: `live` is the largest supported subset
      of the starting tags, and every surviving outbound was refreshed once
      against it. */
  ghost predicate Trimmed(outs: seq<Value>, tags: set<string>, kept: seq<Value>, live: set<string>) {
    && live <= tags
    && Supported(outs, live)
    && (forall s: set<string> :: s <= tags && Supported(outs, s) ==> s <= live)
    && kept == RefreshAll(Survivors(outs, live), live)
  }

  /** No supported set of tags was cut into. */
  ghost predicate HoldsSupported(outs: seq<Value>, tags: set<string>, live: set<string>) {
    forall s: set<string> :: s <= tags && Supported(outs, s) ==> s <= live
  }

  /** One pass, from a list that tracks the survivors: it still tracks them, and
      when it shortens nothing the trim is finished. */
  lemma TrimStep(outbounds: seq<Value>, tags: set<string>, outs: seq<Value>, live: set<string>, base: set<string>)
    requires AllTagged(outbounds, tags) && DistinctTags(outbounds) && live <= tags && live <= base
    requires Tracks(outs, Survivors(outbounds, live), base) && HoldsSupported(outbounds, tags, live)
    ensures var outs', live' := Sweep(RefreshAll(outs, live)), live - EmptyTags(RefreshAll(outs, live));
      && Tracks(outs', Survivors(outbounds, live'), live) && HoldsSupported(outbounds, tags, live')
      && (|outs'| == |outs| ==> Trimmed(outbounds, tags, outs', live'))
  {
    var outs', live' := Sweep(RefreshAll(outs, live)), live - EmptyTags(RefreshAll(outs, live));
    RefreshTracked(outs, Survivors(outbounds, live), base, live);
    PassResult(outbounds, live, outs', live');
    forall s: set<string> | s <= tags && Supported(outbounds, s) ensures s <= live' {
      SupportedSurvives(outbounds, live, s);
    }
    if |outs'| == |outs| {
      NothingSwept(outbounds, live, live');
    }
  }

  method TrimShareGroups(outbounds: seq<Value>, tags: set<string>) returns (outs: seq<Value>, live: set<string>)
    requires AllTagged(outbounds, tags) && DistinctTags(outbounds)
    ensures Trimmed(outbounds, tags, outs, live)
  {
    outs, live := outbounds, tags;
    ghost var base := tags;
    AllSurvive(outbounds, tags);
    while true
      invariant live <= tags && live <= base && HoldsSupported(outbounds, tags, live)
      invariant Tracks(outs, Survivors(outbounds, live), base)
      decreases |outs|
    {
      var before := |outs|;
      TrimStep(outbounds, tags, outs, live, base);
      base := live;
      outs, live := Pass(outs, live);
      if |outs| == before {
        break;
      }
    }
  }

  // ---- the same loop on the groups of a profile

  /** An outbound next to its tag. */
  datatype NormalizedOutbound = NormalizedOutbound(tag: string, outbound: Value)

  function Bodies(groups: seq<NormalizedOutbound>): (r: seq<Value>)
    ensures |r| == |groups| && forall i :: 0 <= i < |r| ==> r[i] == groups[i].outbound
  {
    seq(|groups|, i requires 0 <= i < |groups| => groups[i].outbound)
  }

  /** Groups, each stored under its own tag. */
  predicate StoredGroups(groups: seq<NormalizedOutbound>) {
    forall i :: 0 <= i < |groups| ==> IsGroup(groups[i].outbound) && TagOf(groups[i].outbound) == Some(groups[i].tag)
  }

  method RefreshGroups(groups: seq<NormalizedOutbound>, tags: set<string>) returns (refreshed: seq<NormalizedOutbound>)
    requires StoredGroups(groups)
    ensures StoredGroups(refreshed) && Bodies(refreshed) == RefreshAll(Bodies(groups), tags)
  {
    refreshed := groups;
    for i := 0 to |groups|
      invariant |refreshed| == |groups|
      invariant forall j :: 0 <= j < |groups| ==>
        refreshed[j] == if j < i then groups[j].(outbound := Refresh(groups[j].outbound, tags)) else groups[j]
    {
      var retained := RetainMembers(refreshed[i].outbound, tags);
      refreshed := refreshed[i := refreshed[i].(outbound := RetargetShareSelector(retained))];
    }
    forall i | 0 <= i < |groups|
      ensures IsGroup(refreshed[i].outbound) && TagOf(refreshed[i].outbound) == Some(refreshed[i].tag)
    {
      RefreshFacts(groups[i].outbound, tags);
    }
  }

  /** With the groups kept and tags alive so far, sweeping `todo` ends with the
      groups `swept` and the tags `left`. */
  ghost predicate SweepsTo(kept: seq<NormalizedOutbound>, live: set<string>, todo: seq<NormalizedOutbound>,
                           swept: seq<Value>, left: set<string>) {
    Bodies(kept) + Sweep(Bodies(todo)) == swept && live - EmptyTags(Bodies(todo)) == left
  }

  lemma SweepStep(kept: seq<NormalizedOutbound>, live: set<string>, todo: seq<NormalizedOutbound>,
                  swept: seq<Value>, left: set<string>)
    requires StoredGroups(todo) && todo != [] && SweepsTo(kept, live, todo, swept, left)
    ensures StoredGroups(todo[1..])
    ensures if Members(todo[0].outbound) == [] then SweepsTo(kept, live - {todo[0].tag}, todo[1..], swept, left)
            else SweepsTo(kept + [todo[0]], live, todo[1..], swept, left)
  {
    var o, rest := todo[0].outbound, Bodies(todo[1..]);
    assert Bodies(todo) == [o] + rest;
    SweepCons(o, rest);
    EmptyTagsCons(o, rest);
    if Members(o) == [] {
      assert live - {todo[0].tag} - EmptyTags(rest) == left;
    } else {
      assert Bodies(kept + [todo[0]]) == Bodies(kept) + [o];
      assert Bodies(kept) + ([o] + Sweep(rest)) == (Bodies(kept) + [o]) + Sweep(rest);
    }
  }

  lemma EmptyTagsCons(o: Value, rest: seq<Value>)
    ensures EmptyTags([o] + rest) == (if Empty(o) && TagOf(o).Some? then {TagOf(o).value} else {}) + EmptyTags(rest)
  {
    var all := [o] + rest;
    forall x | x in EmptyTags(rest) ensures x in EmptyTags(all) {
      var i :| 0 <= i < |rest| && Empty(rest[i]) && TagOf(rest[i]) == Some(x);
      assert all[i + 1] == rest[i];
    }
    assert all[0] == o;
  }

  method RetainGroups(groups: seq<NormalizedOutbound>, tags: set<string>)
    returns (kept: seq<NormalizedOutbound>, live: set<string>)
    requires StoredGroups(groups)
    ensures StoredGroups(kept) && Bodies(kept) == Sweep(Bodies(groups)) && live == tags - EmptyTags(Bodies(groups))
  {
    kept, live := [], tags;
    var todo := groups;
    ghost var swept, left := Sweep(Bodies(groups)), tags - EmptyTags(Bodies(groups));
    assert Bodies([]) + swept == swept;
    while todo != []
      invariant StoredGroups(kept) && StoredGroups(todo) && SweepsTo(kept, live, todo, swept, left)
      decreases |todo|
    {
      SweepStep(kept, live, todo, swept, left);
      if Members(todo[0].outbound) == [] {
        live := live - {todo[0].tag};
      } else {
        kept := kept + [todo[0]];
      }
      todo := todo[1..];
    }
    assert Bodies(kept) + Sweep(Bodies([])) == Bodies(kept) && EmptyTags(Bodies([])) == {};
  }

  method ProfilePass(groups: seq<NormalizedOutbound>, tags: set<string>)
    returns (kept: seq<NormalizedOutbound>, live: set<string>)
    requires StoredGroups(groups)
    ensures StoredGroups(kept) && Bodies(kept) == Sweep(RefreshAll(Bodies(groups), tags))
    ensures live == tags - EmptyTags(RefreshAll(Bodies(groups), tags))
  {
    var refreshed := RefreshGroups(groups, tags);
    kept, live := RetainGroups(refreshed, tags);
  }

  method TrimProfileGroups(groups: seq<NormalizedOutbound>, tags: set<string>)
    returns (kept: seq<NormalizedOutbound>, live: set<string>)
    requires StoredGroups(groups) && AllTagged(Bodies(groups), tags) && DistinctTags(Bodies(groups))
    ensures StoredGroups(kept) && Trimmed(Bodies(groups), tags, Bodies(kept), live)
  {
    kept, live := groups, tags;
    ghost var base := tags;
    AllSurvive(Bodies(groups), tags);
    while true
      invariant StoredGroups(kept) && live <= tags && live <= base && HoldsSupported(Bodies(groups), tags, live)
      invariant Tracks(Bodies(kept), Survivors(Bodies(groups), live), base)
      decreases |kept|
    {
      var before := |kept|;
      TrimStep(Bodies(groups), tags, Bodies(kept), live, base);
      base := live;
      kept, live := ProfilePass(kept, live);
      if |kept| == before {
        break;
      }
    }
  }

  /** A pass over the survivors leaves the survivors of a smaller set. */
  lemma PassResult(outs: seq<Value>, tags: set<string>, kept: seq<Value>, live: set<string>)
    requires DistinctTags(outs)
    requires kept == Sweep(RefreshAll(Survivors(outs, tags), tags))
    requires live == tags - EmptyTags(RefreshAll(Survivors(outs, tags), tags))
    ensures kept == RefreshAll(Survivors(outs, live), tags)
  {
    var from := Survivors(outs, tags);
    SurvivorsDistinct(outs, tags);
    forall i | 0 <= i < |from| ensures TagOf(from[i]).value in live <==> !Empty(Refresh(from[i], tags)) {
      PassLive(from, tags, i);
    }
    SweepIsSurvivors(from, tags, live);
    SurvivorsTwice(outs, tags, live);
  }

  /** A pass that shortens nothing removes no tag, so the result is settled. */
  lemma NothingSwept(outs: seq<Value>, tags: set<string>, live: set<string>)
    requires DistinctTags(outs)
    requires live == tags - EmptyTags(RefreshAll(Survivors(outs, tags), tags))
    requires |Survivors(outs, live)| == |Survivors(outs, tags)|
    ensures live == tags && Supported(outs, live)
  {
    var from := Survivors(outs, tags);
    var refreshed := RefreshAll(from, tags);
    SurvivorsTwice(outs, tags, live);
    forall i | 0 <= i < |from| ensures !Empty(refreshed[i]) {
      if Empty(refreshed[i]) {
        RefreshFacts(from[i], tags);
        assert from[i] in from;
        assert TagOf(refreshed[i]).value in EmptyTags(refreshed);
        DroppedShortens(from, live, i);
      }
    }
    assert EmptyTags(refreshed) == {};
    AllNonEmptySupported(outs, tags);
  }

  lemma AllNonEmptySupported(outs: seq<Value>, tags: set<string>)
    requires forall i :: 0 <= i < |Survivors(outs, tags)| ==> !Empty(Refresh(Survivors(outs, tags)[i], tags))
    ensures Supported(outs, tags)
  {
    var from := Survivors(outs, tags);
    forall i | 0 <= i < |outs| && IsGroup(outs[i]) && TagOf(outs[i]).Some? && TagOf(outs[i]).value in tags
      ensures LiveMembers(Members(outs[i]), tags) != []
    {
      assert outs[i] in from;
      var j :| 0 <= j < |from| && from[j] == outs[i];
      RefreshFacts(from[j], tags);
    }
  }

  lemma {:induction false} DroppedShortens(outs: seq<Value>, live: set<string>, i: nat)
    requires i < |outs| && TagOf(outs[i]).Some? && TagOf(outs[i]).value !in live
    ensures |Survivors(outs, live)| < |outs|
  {
    if i == 0 {
    } else {
      DroppedShortens(outs[1..], live, i - 1);
    }
  }

  // ---- what the result means

  /** The trimmed graph is closed: every group keeps a member, every member is a
      live tag, and a selector's default is one of its members. */
  lemma TrimmedIsClosed(outs: seq<Value>, tags: set<string>, kept: seq<Value>, live: set<string>)
    requires Trimmed(outs, tags, kept, live)
    ensures forall i :: 0 <= i < |kept| ==> TagOf(kept[i]).Some? && TagOf(kept[i]).value in live
    ensures forall i :: 0 <= i < |kept| && IsGroup(kept[i]) ==>
      && Members(kept[i]) != []
      && (forall m :: m in Members(kept[i]) ==> m.Str? && m.s in live)
      && (GetStr(kept[i], Type) == Some("selector") ==> DefaultOk(kept[i]))
  {
    var from := Survivors(outs, live);
    forall i | 0 <= i < |kept|
      ensures TagOf(kept[i]).Some? && TagOf(kept[i]).value in live
      ensures IsGroup(kept[i]) ==> Members(kept[i]) != [] && forall m :: m in Members(kept[i]) ==> m.Str? && m.s in live
      ensures IsGroup(kept[i]) && GetStr(kept[i], Type) == Some("selector") ==> DefaultOk(kept[i])
    {
      assert from[i] in from;
      var j :| 0 <= j < |outs| && outs[j] == from[i];
      RefreshFacts(from[i], live);
      if IsGroup(from[i]) { SelectorDefault(from[i], live); }
    }
  }

  lemma SelectorDefault(o: Value, live: set<string>)
    requires IsGroup(o) && LiveMembers(Members(o), live) != []
    ensures GetStr(o, Type) == Some("selector") ==> DefaultOk(Refresh(o, live))
  {
    RefreshFacts(o, live);
    RefreshLookup(o, live, Default);
    LiveNames(Members(o), live);
    var ms := LiveMembers(Members(o), live);
    assert ms[0] in ms;
  }

  /** A live tag that no group of the list has: a proxy or a builtin, in the list
      or kept elsewhere. */
  predicate LeafTag(outs: seq<Value>, tags: set<string>, leaf: string) {
    leaf in tags && forall i :: 0 <= i < |outs| && IsGroup(outs[i]) ==> TagOf(outs[i]) != Some(leaf)
  }

  /** A path of groups, each naming the next, the last one naming `leaf`. */
  ghost predicate LeadsToOutbound(outs: seq<Value>, tags: set<string>, path: seq<nat>, leaf: string) {
    && path != [] && LeafTag(outs, tags, leaf)
    && (forall i :: 0 <= i < |path| ==> path[i] < |outs| && IsGroup(outs[path[i]]))
    && Str(leaf) in Members(outs[path[|path| - 1]])
    && (forall i :: 0 <= i < |path| - 1 && TagOf(outs[path[i + 1]]).Some? ==>
          Str(TagOf(outs[path[i + 1]]).value) in Members(outs[path[i]]))
  }

  lemma SameTagSameIndex(outs: seq<Value>, i: nat, j: nat)
    requires DistinctTags(outs) && i < |outs| && j < |outs| && TagOf(outs[i]) == TagOf(outs[j])
    ensures i == j
  {}

  /** A group from which a proxy or builtin is reachable is never removed. */
  lemma ReachableSurvives(
    outs: seq<Value>, tags: set<string>, kept: seq<Value>, live: set<string>, path: seq<nat>, leaf: string)
    requires AllTagged(outs, tags) && DistinctTags(outs) && Trimmed(outs, tags, kept, live)
    requires LeadsToOutbound(outs, tags, path, leaf)
    ensures leaf in live
    ensures forall i :: 0 <= i < |path| ==> TagOf(outs[path[i]]).value in live
    ensures forall i :: 0 <= i < |path| ==> outs[path[i]] in Survivors(outs, live)
  {
    var s := PathTags(outs, path) + {leaf};
    PathIsSupported(outs, tags, path, leaf);
    assert s <= tags && s <= live;
    forall i | 0 <= i < |path| ensures TagOf(outs[path[i]]).value in live {
      assert TagOf(outs[path[i]]).value in s;
    }
  }

  /** Outbounds that are no groups all survive. */
  lemma OutboundSurvives(outs: seq<Value>, tags: set<string>, kept: seq<Value>, live: set<string>, i: nat)
    requires AllTagged(outs, tags) && DistinctTags(outs) && Trimmed(outs, tags, kept, live)
    requires i < |outs| && !IsGroup(outs[i])
    ensures TagOf(outs[i]).value in live && outs[i] in kept
  {
    var s := {TagOf(outs[i]).value};
    forall k | 0 <= k < |outs| && IsGroup(outs[k]) ensures TagOf(outs[k]).value !in s {
      assert i != k;
    }
    assert Supported(outs, s) && s <= live;
    assert outs[i] in Survivors(outs, live);
    var j :| 0 <= j < |kept| && Survivors(outs, live)[j] == outs[i];
    assert kept[j] == Refresh(outs[i], live) == outs[i];
  }

  ghost function PathTags(outs: seq<Value>, path: seq<nat>): set<string>
    requires forall i :: 0 <= i < |path| ==> path[i] < |outs| && TagOf(outs[path[i]]).Some?
  {
    set i | 0 <= i < |path| :: TagOf(outs[path[i]]).value
  }

  lemma PathIsSupported(outs: seq<Value>, tags: set<string>, path: seq<nat>, leaf: string)
    requires AllTagged(outs, tags) && DistinctTags(outs) && LeadsToOutbound(outs, tags, path, leaf)
    ensures Supported(outs, PathTags(outs, path) + {leaf})
  {
    var s := PathTags(outs, path) + {leaf};
    forall k | 0 <= k < |outs| && IsGroup(outs[k]) && TagOf(outs[k]).value in s
      ensures LiveMembers(Members(outs[k]), s) != []
    {
      var i :| 0 <= i < |path| && TagOf(outs[path[i]]).value == TagOf(outs[k]).value;
      SameTagSameIndex(outs, path[i], k);
      var next := Str(if i + 1 < |path| then TagOf(outs[path[i + 1]]).value else leaf);
      assert next in Members(outs[k]) && next.s in s;
      assert next in LiveMembers(Members(outs[k]), s);
    }
  }

  /** The result does not depend on how the passes went. */
  lemma TrimmedIsUnique(outs: seq<Value>, tags: set<string>, kept: seq<Value>, live: set<string>, kept': seq<Value>,
      live': set<string>)
    requires Trimmed(outs, tags, kept, live) && Trimmed(outs, tags, kept', live')
    ensures kept == kept' && live == live'
  {
    assert live <= tags && Supported(outs, live) && live' <= tags && Supported(outs, live');
    assert live <= live' && live' <= live;
    assert live == live';
  }
}
