/** What a pasted document is read into: every item that passes its checks is
    found again under its tag, as a node or as a group. */
module ShareItems {
  import opened JsonValue
  import opened RuleKeys
  import opened ShareGroups
  import opened ShareTags

  /** The first entry with this tag. */
  function Find(entries: seq<NormalizedOutbound>, tag: string): Option<Value> {
    if entries == [] then None
    else if entries[0].tag == tag then Some(entries[0].outbound)
    else Find(entries[1..], tag)
  }

  /** What is on record under a tag. */
  function Lookup(items: Items, tag: string): Option<Value> {
    if Find(items.nodes, tag).Some? then Find(items.nodes, tag) else Find(items.groups, tag)
  }

  /** The tags taken are exactly those on record; groups are kept apart. */
  ghost predicate Recorded(items: Items) {
    forall tag ::
      && (tag in items.tags <==> Lookup(items, tag).Some?)
      && (Find(items.nodes, tag).Some? ==> !IsGroup(Find(items.nodes, tag).value))
      && (Find(items.groups, tag).Some? ==> IsGroup(Find(items.groups, tag).value))
  }

  lemma {:induction false} FindAppended(entries: seq<NormalizedOutbound>, entry: NormalizedOutbound, tag: string)
    ensures Find(entries + [entry], tag) ==
      if Find(entries, tag).Some? then Find(entries, tag)
      else if entry.tag == tag then Some(entry.outbound) else None
  {
    if entries == [] {
      assert entries + [entry] == [entry] && [entry][1..] == [];
    } else {
      FindAppended(entries[1..], entry, tag);
      assert (entries + [entry])[0] == entries[0] && (entries + [entry])[1..] == entries[1..] + [entry];
    }
  }

  lemma {:induction false} FindReplaced(entries: seq<NormalizedOutbound>, tag: string, entry: NormalizedOutbound,
      other: string)
    requires entry.tag == tag
    ensures Find(ReplaceNode(entries, tag, entry), other) ==
      if other == tag && Find(entries, tag).Some? then Some(entry.outbound) else Find(entries, other)
  {
    if entries == [] {
    } else {
      FindReplaced(entries[1..], tag, entry, other);
      assert ([entry] + entries[1..])[1..] == entries[1..];
      var rest := ReplaceNode(entries[1..], tag, entry);
      assert ([entries[0]] + rest)[1..] == rest;
    }
  }

  predicate WireGuard(item: Value) {
    GetStr(item, Type) == Some("wireguard")
  }

  /** What one item changes under `tag`: it is recorded when the tag is free, and
      takes the place of a node when it is a WireGuard item. */
  function Takes(item: Value, fits: bool, before: Option<Value>, tag: string): Option<Value> {
    if !fits || Get(item, Tag) != Some(Str(tag)) then before
    else if before == None || (WireGuard(item) && !IsGroup(before.value)) then Some(item)
    else before
  }

  lemma PushedLookup(item: Value, fits: bool, items: Items, tag: string)
    requires Recorded(items)
    ensures Lookup(Pushed(item, fits, items), tag) == Takes(item, fits, Lookup(items, tag), tag)
    ensures Find(Pushed(item, fits, items).nodes, tag).Some? ==>
      !IsGroup(Find(Pushed(item, fits, items).nodes, tag).value)
    ensures Find(Pushed(item, fits, items).groups, tag).Some? ==>
      IsGroup(Find(Pushed(item, fits, items).groups, tag).value)
    ensures tag in Pushed(item, fits, items).tags <==> Lookup(Pushed(item, fits, items), tag).Some?
  {
    if fits && TagOf(item).Some? {
      var entry := NormalizedOutbound(TagOf(item).value, item);
      assert entry.tag in items.tags <==> Lookup(items, entry.tag).Some?;
      FindAppended(items.nodes, entry, tag);
      FindAppended(items.groups, entry, tag);
      FindReplaced(items.nodes, entry.tag, entry, tag);
    }
  }

  lemma PushedRecorded(item: Value, fits: bool, items: Items)
    requires Recorded(items)
    ensures Recorded(Pushed(item, fits, items))
  {
    var r := Pushed(item, fits, items);
    forall tag
      ensures
        && (tag in r.tags <==> Lookup(r, tag).Some?)
        && (Find(r.nodes, tag).Some? ==> !IsGroup(Find(r.nodes, tag).value))
        && (Find(r.groups, tag).Some? ==> IsGroup(Find(r.groups, tag).value))
    {
      PushedLookup(item, fits, items, tag);
    }
  }

  /** The items of a document, one after the other. */
  function ReadAll(todo: seq<Value>, fits: Value -> bool, items: Items): Items
    decreases |todo|
  {
    if todo == [] then items else ReadAll(todo[1..], fits, Pushed(todo[0], fits(todo[0]), items))
  }

  lemma {:induction false} ReadRecorded(todo: seq<Value>, fits: Value -> bool, items: Items)
    requires Recorded(items)
    ensures Recorded(ReadAll(todo, fits, items))
    decreases |todo|
  {
    if todo == [] {
    } else {
      PushedRecorded(todo[0], fits(todo[0]), items);
      ReadRecorded(todo[1..], fits, Pushed(todo[0], fits(todo[0]), items));
    }
  }

  /** An item that passes its checks and has this tag. */
  predicate Offers(item: Value, fits: Value -> bool, tag: string) {
    fits(item) && Get(item, Tag) == Some(Str(tag))
  }

  /** Reading a document forgets nothing: a tag is on record afterwards exactly when
      it was before or an item that fits has it, and what is on record under it was
      there or is such an item, a group staying where it is. */
  lemma {:induction false} ReadExactly(todo: seq<Value>, fits: Value -> bool, items: Items, tag: string)
    requires Recorded(items)
    ensures Lookup(ReadAll(todo, fits, items), tag).Some? <==>
      Lookup(items, tag).Some? || exists item :: item in todo && Offers(item, fits, tag)
    ensures var r, before := Lookup(ReadAll(todo, fits, items), tag), Lookup(items, tag);
      && (r.Some? ==> r == before || (r.value in todo && Offers(r.value, fits, tag)))
      && (before.Some? && r != before ==> r.Some? && WireGuard(r.value) && !IsGroup(before.value))
    decreases |todo|
  {
    if todo == [] {
    } else {
      var next := Pushed(todo[0], fits(todo[0]), items);
      PushedLookup(todo[0], fits(todo[0]), items, tag);
      PushedRecorded(todo[0], fits(todo[0]), items);
      ReadExactly(todo[1..], fits, next, tag);
      assert forall item :: item in todo <==> item == todo[0] || item in todo[1..];
      assert Offers(todo[0], fits, tag) ==> todo[0] in todo;
    }
  }

  const NOTHING_READ := Items([], [], {})

  /** A whole document: each item that fits is found under its tag, itself or an
      earlier one with the tag, or the WireGuard item that replaced it. */
  lemma DocumentExactly(todo: seq<Value>, fits: Value -> bool, tag: string)
    ensures var r := ReadAll(todo, fits, NOTHING_READ);
      && Recorded(r)
      && (tag in r.tags <==> exists item :: item in todo && Offers(item, fits, tag))
      && (tag in r.tags ==> Lookup(r, tag).Some? && Offers(Lookup(r, tag).value, fits, tag))
  {
    assert Recorded(NOTHING_READ);
    ReadRecorded(todo, fits, NOTHING_READ);
    ReadExactly(todo, fits, NOTHING_READ, tag);
  }
}
