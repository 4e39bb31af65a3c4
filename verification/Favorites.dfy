/** Favorite nodes per subscription: bounded, newest first, one file, one lock. */
module Favorites {
  import opened JsonValue

  type Uuid = nat
  type Store = map<Uuid, seq<string>>

  const MAX_FAVORITES_PER_SUBSCRIPTION: nat := 500

  // ---- tag lists

  function Without(tags: seq<string>, tag: string): (r: seq<string>)
    ensures |r| <= |tags|
    ensures forall t :: t in r <==> t in tags && t != tag
  {
    if tags == [] then []
    else if tags[0] == tag then Without(tags[1..], tag)
    else [tags[0]] + Without(tags[1..], tag)
  }

  function Truncate(tags: seq<string>, cap: nat): seq<string> {
    if |tags| <= cap then tags else tags[..cap]
  }

  function MoveToFront(tags: seq<string>, tag: string): seq<string> {
    [tag] + Without(tags, tag)
  }

  predicate DupFree(tags: seq<string>) {
    forall i, j :: 0 <= i < j < |tags| ==> tags[i] != tags[j]
  }

  /** First occurrences, in order. */
  function Distinct(tags: seq<string>): seq<string> {
    if tags == [] then [] else [tags[0]] + Without(Distinct(tags[1..]), tags[0])
  }

  lemma {:induction false} WithoutDupFree(tags: seq<string>, tag: string)
    requires DupFree(tags)
    ensures DupFree(Without(tags, tag))
    ensures tag !in tags ==> Without(tags, tag) == tags
    ensures tag in tags ==> |Without(tags, tag)| == |tags| - 1
  {
    if tags == [] {
    } else {
      var rest := Without(tags[1..], tag);
      WithoutDupFree(tags[1..], tag);
      assert tags == [tags[0]] + tags[1..];
      if tags[0] != tag {
        forall i | 0 <= i < |rest| ensures rest[i] != tags[0] { assert rest[i] in tags[1..]; }
        assert Without(tags, tag) == [tags[0]] + rest;
      }
    }
  }

  /** `Distinct` lists every tag, once. */
  lemma {:induction false} DistinctDupFree(tags: seq<string>)
    ensures DupFree(Distinct(tags)) && forall t :: t in Distinct(tags) <==> t in tags
  {
    if tags == [] {
    } else {
      DistinctDupFree(tags[1..]);
      WithoutDupFree(Distinct(tags[1..]), tags[0]);
    }
  }

  predicate IsPrefix(a: seq<string>, b: seq<string>) {
    |a| <= |b| && a == b[..|a|]
  }

  lemma {:induction false} WithoutPrefix(a: seq<string>, b: seq<string>, tag: string)
    requires IsPrefix(a, b)
    ensures IsPrefix(Without(a, tag), Without(b, tag))
  {
    if a == [] {
    } else {
      assert a[1..] == b[1..][..|a| - 1];
      WithoutPrefix(a[1..], b[1..], tag);
    }
  }

  /** Truncating before and after is the same as truncating once, after. */
  lemma TruncateOnce(tags: seq<string>, tag: string, cap: nat)
    requires DupFree(tags) && cap > 0
    ensures Truncate(MoveToFront(Truncate(tags, cap), tag), cap) == Truncate(MoveToFront(tags, tag), cap)
  {
    var cut := Truncate(tags, cap);
    assert IsPrefix(cut, tags) && DupFree(cut);
    WithoutPrefix(cut, tags, tag);
    WithoutDupFree(cut, tag);
    WithoutDupFree(tags, tag);
  }

  // ---- calls

  datatype Call = Favorite(sub: Uuid, tag: string) | Unfavorite(sub: Uuid, tag: string) | RemoveSubscription(sub: Uuid)

  function TagsOf(s: Store, sub: Uuid): seq<string> {
    if sub in s then s[sub] else []
  }

  /** The store with `tags` for `sub`; an empty list is no entry. */
  function WithTags(s: Store, sub: Uuid, tags: seq<string>): Store {
    if tags == [] then s - {sub} else s[sub := tags]
  }

  function Apply(s: Store, c: Call): Store {
    match c
    case Favorite(sub, tag) => s[sub := Truncate(MoveToFront(TagsOf(s, sub), tag), MAX_FAVORITES_PER_SUBSCRIPTION)]
    case Unfavorite(sub, tag) => if sub in s then WithTags(s, sub, Without(s[sub], tag)) else s
    case RemoveSubscription(sub) => s - {sub}
  }

  function Run(s: Store, calls: seq<Call>): Store {
    if calls == [] then s else Apply(Run(s, calls[..|calls| - 1]), calls[|calls| - 1])
  }

  predicate ValidList(tags: seq<string>) {
    0 < |tags| <= MAX_FAVORITES_PER_SUBSCRIPTION && DupFree(tags)
  }

  predicate Valid(s: Store) {
    forall sub :: sub in s ==> ValidList(s[sub])
  }

  lemma ApplyValid(s: Store, c: Call)
    requires Valid(s)
    ensures Valid(Apply(s, c))
  {
    if c.Favorite? { WithoutDupFree(TagsOf(s, c.sub), c.tag); }
    if c.Unfavorite? { WithoutDupFree(TagsOf(s, c.sub), c.tag); }
  }

  lemma {:induction false} RunValid(s: Store, calls: seq<Call>)
    requires Valid(s)
    ensures Valid(Run(s, calls))
  {
    if calls == [] {
    } else {
      RunValid(s, calls[..|calls| - 1]);
      ApplyValid(Run(s, calls[..|calls| - 1]), calls[|calls| - 1]);
    }
  }

  // ---- what a list remembers

  /** The list of one subscription, had nothing ever been cut off. */
  function Unbounded(calls: seq<Call>, sub: Uuid): seq<string> {
    if calls == [] then []
    else
      var before := Unbounded(calls[..|calls| - 1], sub);
      var c := calls[|calls| - 1];
      if c.sub != sub then before
      else match c
        case Favorite(_, tag) => MoveToFront(before, tag)
        case Unfavorite(_, tag) => Without(before, tag)
        case RemoveSubscription(_) => []
  }

  lemma {:induction false} UnboundedDupFree(calls: seq<Call>, sub: Uuid)
    ensures DupFree(Unbounded(calls, sub))
  {
    if calls == [] {
    } else {
      UnboundedDupFree(calls[..|calls| - 1], sub);
      var c := calls[|calls| - 1];
      if c.Favorite? || c.Unfavorite? { WithoutDupFree(Unbounded(calls[..|calls| - 1], sub), c.tag); }
    }
  }

  /** After any run the stored list is a prefix of the unbounded one: the cap
      never reorders and never drops a newer tag before an older one. */
  lemma {:induction false} StoredIsPrefix(calls: seq<Call>, sub: Uuid)
    ensures IsPrefix(TagsOf(Run(map[], calls), sub), Unbounded(calls, sub))
  {
    if calls == [] {
    } else {
      var before, c := calls[..|calls| - 1], calls[|calls| - 1];
      StoredIsPrefix(before, sub);
      if c.sub == sub && (c.Favorite? || c.Unfavorite?) {
        WithoutPrefix(TagsOf(Run(map[], before), sub), Unbounded(before, sub), c.tag);
      }
    }
  }

  predicate OnlyFavorites(calls: seq<Call>) {
    forall i :: 0 <= i < |calls| ==> calls[i].Favorite?
  }

  /** The tags favorited for one subscription, newest first. */
  function NewestFirst(calls: seq<Call>, sub: Uuid): seq<string> {
    if calls == [] then []
    else
      var c := calls[|calls| - 1];
      (if c.Favorite? && c.sub == sub then [c.tag] else []) + NewestFirst(calls[..|calls| - 1], sub)
  }

  lemma {:induction false} UnboundedIsDistinct(calls: seq<Call>, sub: Uuid)
    requires OnlyFavorites(calls)
    ensures Unbounded(calls, sub) == Distinct(NewestFirst(calls, sub))
  {
    if calls == [] {
    } else {
      var before, c := calls[..|calls| - 1], calls[|calls| - 1];
      UnboundedIsDistinct(before, sub);
      if c.sub == sub {
        var all := [c.tag] + NewestFirst(before, sub);
        assert all[1..] == NewestFirst(before, sub);
      } else {
        assert [] + NewestFirst(before, sub) == NewestFirst(before, sub);
      }
    }
  }

  /** After any run of favorite calls the list is the first 500 of the distinct
      tags, newest first. */
  lemma {:induction false} FavoritesKeepNewest(calls: seq<Call>, sub: Uuid)
    requires OnlyFavorites(calls)
    ensures TagsOf(Run(map[], calls), sub) ==
      Truncate(Distinct(NewestFirst(calls, sub)), MAX_FAVORITES_PER_SUBSCRIPTION)
  {
    UnboundedIsDistinct(calls, sub);
    if calls == [] {
    } else {
      var before, c := calls[..|calls| - 1], calls[|calls| - 1];
      FavoritesKeepNewest(before, sub);
      UnboundedIsDistinct(before, sub);
      UnboundedDupFree(before, sub);
      if c.sub == sub { TruncateOnce(Unbounded(before, sub), c.tag, MAX_FAVORITES_PER_SUBSCRIPTION); }
    }
  }

  lemma WithoutTruncated(tags: seq<string>, tag: string, cap: nat)
    requires DupFree(tags)
    ensures Truncate(Without(Truncate(tags, cap), tag), cap) == Truncate(Without(tags, tag), cap)
      <==> (tag !in Truncate(tags, cap) || |tags| <= cap)
  {
    var cut := Truncate(tags, cap);
    assert IsPrefix(cut, tags) && DupFree(cut);
    WithoutPrefix(cut, tags, tag);
    WithoutDupFree(cut, tag);
    WithoutDupFree(tags, tag);
  }

  /** Removing a favorite keeps a list equal to the newest 500 exactly when the
      tag was not stored or nothing had been cut off: tags beyond the cap are
      forgotten, not pulled back in. */
  lemma UnfavoriteForgets(calls: seq<Call>, sub: Uuid, tag: string)
    requires TagsOf(Run(map[], calls), sub) == Truncate(Unbounded(calls, sub), MAX_FAVORITES_PER_SUBSCRIPTION)
    ensures var after := calls + [Unfavorite(sub, tag)];
      TagsOf(Run(map[], after), sub) == Truncate(Unbounded(after, sub), MAX_FAVORITES_PER_SUBSCRIPTION) <==>
      (tag !in TagsOf(Run(map[], calls), sub) || |Unbounded(calls, sub)| <= MAX_FAVORITES_PER_SUBSCRIPTION)
  {
    var after := calls + [Unfavorite(sub, tag)];
    assert after[..|after| - 1] == calls;
    UnboundedDupFree(calls, sub);
    WithoutTruncated(Unbounded(calls, sub), tag, MAX_FAVORITES_PER_SUBSCRIPTION);
    var stored := TagsOf(Run(map[], calls), sub);
    assert TagsOf(Run(map[], after), sub) == Without(stored, tag);
  }

  /** While a list never outgrows the cap, nothing of it is forgotten. */
  lemma {:induction false} NothingForgotten(calls: seq<Call>, sub: Uuid)
    requires forall i :: 0 <= i <= |calls| ==> |Unbounded(calls[..i], sub)| <= 500
    ensures TagsOf(Run(map[], calls), sub) == Unbounded(calls, sub)
  {
    if calls == [] {
    } else {
      var before := calls[..|calls| - 1];
      assert calls[..|calls|] == calls;
      forall i | 0 <= i <= |before| ensures |Unbounded(before[..i], sub)| <= 500 {
        assert before[..i] == calls[..i];
      }
      NothingForgotten(before, sub);
    }
  }

  // ---- the in-memory edit, as it runs

  method SetNodeFavorite(s: Store, sub: Uuid, tag: string, favorite: bool) returns (r: Store, changed: bool)
    requires Valid(s)
    ensures r == Apply(s, if favorite then Favorite(sub, tag) else Unfavorite(sub, tag))
    ensures changed <==> TagsOf(r, sub) != TagsOf(s, sub)
  {
    r := s;
    var previous := TagsOf(s, sub);
    if favorite {
      var tags := Retain(previous, tag);
      tags := [tag] + tags;
      if |tags| > MAX_FAVORITES_PER_SUBSCRIPTION { tags := tags[..MAX_FAVORITES_PER_SUBSCRIPTION]; }
      r := r[sub := tags];
    } else {
      if sub !in r { return r, false; }
      var tags := Retain(r[sub], tag);
      r := if tags == [] then r - {sub} else r[sub := tags];
    }
    changed := TagsOf(r, sub) != previous;
  }

  method Retain(tags: seq<string>, tag: string) returns (kept: seq<string>)
    ensures kept == Without(tags, tag)
  {
    kept := [];
    var i := 0;
    assert tags[0..] == tags;
    while i < |tags|
      invariant i <= |tags|
      invariant kept + Without(tags[i..], tag) == Without(tags, tag)
    {
      assert tags[i..][0] == tags[i] && tags[i..][1..] == tags[i + 1..];
      if tags[i] != tag {
        assert kept + ([tags[i]] + Without(tags[i + 1..], tag)) == (kept + [tags[i]]) + Without(tags[i + 1..], tag);
        kept := kept + [tags[i]];
      }
      i := i + 1;
    }
    assert tags[i..] == [] && kept + [] == kept;
  }

  // ---- the file

  type Doc = Json<string>

  /** How subscription ids are written; reading is more liberal than writing. */
  datatype IdFormat = IdFormat(parse: string -> Option<Uuid>, show: Uuid -> string)

  ghost predicate ReadsBack(fmt: IdFormat) {
    forall u: Uuid :: fmt.parse(fmt.show(u)) == Some(u)
  }

  /** `doc` is the file written for `s`. */
  ghost predicate Encodes(doc: Doc, s: Store, fmt: IdFormat) {
    && Get(doc, "version") == Some(Num(1))
    && Has(doc, "subscriptions") && doc.fields["subscriptions"].Obj?
    && var subs := doc.fields["subscriptions"].fields;
    && (forall u :: u in s ==> fmt.show(u) in subs && subs[fmt.show(u)] == Arr(ToStrs(s[u])))
    && (forall key :: key in subs ==> exists u :: u in s && fmt.show(u) == key)
  }

  datatype Loaded = Ready(store: Store) | UnsupportedVersion

  /** What a load may return: lists cleaned from some entry each, and every
      readable entry represented. */
  ghost predicate Decodes(doc: Doc, r: Loaded, fmt: IdFormat) {
    if Get(doc, "version") != Some(Num(1)) then r == UnsupportedVersion
    else if !Has(doc, "subscriptions") || !doc.fields["subscriptions"].Obj? then r == Ready(map[])
    else
      var subs := doc.fields["subscriptions"].fields;
      && r.Ready?
      && (forall u :: u in r.store ==>
        exists key :: EntryFor(subs, key, u, fmt) && r.store[u] == Cleaned(subs[key].items) != [])
      && (forall key, u :: EntryFor(subs, key, u, fmt) && Cleaned(subs[key].items) != [] ==> u in r.store)
  }

  ghost predicate EntryFor(subs: map<string, Doc>, key: string, u: Uuid, fmt: IdFormat) {
    key in subs && fmt.parse(key) == Some(u) && subs[key].Arr?
  }

  /** Text tags, first occurrences, capped. */
  function Cleaned(items: seq<Doc>): seq<string> {
    Truncate(FirstSeen([], StrItems(items)), MAX_FAVORITES_PER_SUBSCRIPTION)
  }

  /** `seen` followed by the tags not seen before. */
  function FirstSeen(seen: seq<string>, tags: seq<string>): seq<string>
    decreases tags
  {
    if tags == [] then seen
    else FirstSeen(if tags[0] in seen then seen else seen + [tags[0]], tags[1..])
  }

  lemma {:induction false} FirstSeenGrows(seen: seq<string>, tags: seq<string>)
    ensures IsPrefix(seen, FirstSeen(seen, tags))
    ensures DupFree(seen) ==> DupFree(FirstSeen(seen, tags))
    decreases tags
  {
    if tags != [] { FirstSeenGrows(if tags[0] in seen then seen else seen + [tags[0]], tags[1..]); }
  }

  lemma {:induction false} FirstSeenOfDupFree(seen: seq<string>, tags: seq<string>)
    requires DupFree(seen + tags)
    ensures FirstSeen(seen, tags) == seen + tags
    decreases tags
  {
    if tags == [] {
      assert seen + tags == seen;
    } else {
      assert (seen + tags)[|seen|] == tags[0];
      forall i | 0 <= i < |seen| ensures seen[i] != tags[0] { assert (seen + tags)[i] == seen[i]; }
      assert (seen + [tags[0]]) + tags[1..] == seen + tags;
      FirstSeenOfDupFree(seen + [tags[0]], tags[1..]);
    }
  }

  lemma CleanedValid(items: seq<Doc>)
    ensures Cleaned(items) != [] ==> ValidList(Cleaned(items))
  {
    FirstSeenGrows([], StrItems(items));
  }

  lemma CleanedIdentity(tags: seq<string>)
    requires ValidList(tags)
    ensures Cleaned(ToStrs(tags)) == tags
  {
    var items: seq<Doc> := ToStrs(tags);
    StrItemsOfStrs(items);
    assert StrItems(items) == tags && [] + tags == tags;
    FirstSeenOfDupFree([], tags);
  }

  method CleanTags(items: seq<Doc>) returns (cleaned: seq<string>)
    ensures cleaned == Cleaned(items)
  {
    cleaned := [];
    var i := 0;
    assert items[0..] == items;
    while i < |items|
      invariant i <= |items| && |cleaned| <= MAX_FAVORITES_PER_SUBSCRIPTION
      invariant FirstSeen(cleaned, StrItems(items[i..])) == FirstSeen([], StrItems(items))
    {
      assert items[i..][0] == items[i] && items[i..][1..] == items[i + 1..];
      if items[i].Str? {
        ghost var later := StrItems(items[i + 1..]);
        assert StrItems(items[i..])[0] == items[i].s && StrItems(items[i..])[1..] == later;
        if items[i].s !in cleaned {
          if |cleaned| >= MAX_FAVORITES_PER_SUBSCRIPTION {
            FirstSeenGrows(cleaned, StrItems(items[i..]));
            FirstSeenGrows(cleaned + [items[i].s], later);
            return;
          }
          cleaned := cleaned + [items[i].s];
        }
      }
      i := i + 1;
    }
    assert items[i..] == [];
  }

  method ParseFavorites(doc: Doc, fmt: IdFormat) returns (r: Loaded)
    ensures Decodes(doc, r, fmt)
  {
    if Get(doc, "version") != Some(Num(1)) { return UnsupportedVersion; }
    if !Has(doc, "subscriptions") || !doc.fields["subscriptions"].Obj? { return Ready(map[]); }
    var subs := doc.fields["subscriptions"].fields;
    var store: Store := map[];
    var keys := subs.Keys;
    while keys != {}
      invariant keys <= subs.Keys
      invariant forall u :: u in store ==>
        exists key :: EntryFor(subs, key, u, fmt) && store[u] == Cleaned(subs[key].items) != []
      invariant forall key, u :: key !in keys && EntryFor(subs, key, u, fmt) && Cleaned(subs[key].items) != [] ==>
        u in store
      decreases keys
    {
      var key :| key in keys;
      keys := keys - {key};
      if fmt.parse(key).Some? && subs[key].Arr? {
        var cleaned := CleanTags(subs[key].items);
        assert EntryFor(subs, key, fmt.parse(key).value, fmt);
        if cleaned != [] { store := store[fmt.parse(key).value := cleaned]; }
      }
    }
    return Ready(store);
  }

  method SaveFavorites(s: Store, fmt: IdFormat) returns (doc: Doc)
    requires ReadsBack(fmt)
    ensures Encodes(doc, s, fmt)
  {
    var subs: map<string, Doc> := map[];
    var todo := s.Keys;
    while todo != {}
      invariant todo <= s.Keys
      invariant forall u :: u in s && u !in todo ==> fmt.show(u) in subs && subs[fmt.show(u)] == Arr(ToStrs(s[u]))
      invariant forall key :: key in subs ==> exists u :: u in s && u !in todo && fmt.show(u) == key
      decreases todo
    {
      var u :| u in todo;
      assert forall v :: v in s && v != u ==> fmt.show(v) != fmt.show(u) by {
        forall v | v in s && v != u ensures fmt.show(v) != fmt.show(u)
        {
          assert fmt.parse(fmt.show(v)) == Some(v) && fmt.parse(fmt.show(u)) == Some(u);
        }
      }
      subs := subs[fmt.show(u) := Arr(ToStrs(s[u]))];
      todo := todo - {u};
    }
    doc := Obj(map["version" := Num(1), "subscriptions" := Obj(subs)]);
  }

  /** Every load is well formed, even of a file edited by hand. */
  lemma LoadIsValid(doc: Doc, r: Loaded, fmt: IdFormat)
    requires Decodes(doc, r, fmt) && r.Ready?
    ensures Valid(r.store)
  {
    forall u | u in r.store ensures ValidList(r.store[u]) {
      var subs := doc.fields["subscriptions"].fields;
      var key :| EntryFor(subs, key, u, fmt) && r.store[u] == Cleaned(subs[key].items) != [];
      CleanedValid(subs[key].items);
    }
  }

  lemma SavedIsLoaded(s: Store, doc: Doc, r: Loaded, fmt: IdFormat, u: Uuid)
    requires Valid(s) && ReadsBack(fmt) && Encodes(doc, s, fmt) && Decodes(doc, r, fmt) && u in s
    ensures r.Ready? && u in r.store
  {
    var subs := doc.fields["subscriptions"].fields;
    CleanedIdentity(s[u]);
    assert EntryFor(subs, fmt.show(u), u, fmt);
    assert subs[fmt.show(u)].items == ToStrs(s[u]);
  }

  lemma LoadedWasSaved(s: Store, doc: Doc, r: Loaded, fmt: IdFormat, u: Uuid)
    requires Valid(s) && ReadsBack(fmt) && Encodes(doc, s, fmt) && Decodes(doc, r, fmt) && r.Ready? && u in r.store
    ensures u in s && r.store[u] == s[u]
  {
    var subs := doc.fields["subscriptions"].fields;
    var key :| EntryFor(subs, key, u, fmt) && r.store[u] == Cleaned(subs[key].items) != [];
    var v :| v in s && fmt.show(v) == key;
    assert fmt.parse(fmt.show(v)) == Some(v) && v == u;
    CleanedIdentity(s[u]);
  }

  /** Loading what was saved gives the same store back. */
  lemma LoadAfterSave(s: Store, doc: Doc, r: Loaded, fmt: IdFormat)
    requires Valid(s) && ReadsBack(fmt) && Encodes(doc, s, fmt) && Decodes(doc, r, fmt)
    ensures r == Ready(s)
  {
    forall u | u in s ensures u in r.store { SavedIsLoaded(s, doc, r, fmt, u); }
    forall u | u in r.store ensures u in s && r.store[u] == s[u] { LoadedWasSaved(s, doc, r, fmt, u); }
    assert r.store == s;
  }
}
