/** Tags of a shared document stay unique: outbounds are added once per tag, and
    an injected selector takes a tag nothing else has. */
module ShareTags {
  import opened JsonValue
  import opened RuleKeys
  import opened JsonPointer
  import opened ShareGroups

  /** Adds an outbound unless its tag is missing or taken. */
  method PushUniqueOutbound(outs: seq<Value>, tags: set<string>, o: Value)
    returns (outs': seq<Value>, tags': set<string>)
    requires AllTagged(outs, tags) && DistinctTags(outs)
    ensures AllTagged(outs', tags') && DistinctTags(outs')
    ensures var isNew := TagOf(o).Some? && TagOf(o).value !in tags;
      && outs' == (if isNew then outs + [o] else outs)
      && tags' == (if isNew then tags + {TagOf(o).value} else tags)
  {
    outs', tags' := outs, tags;
    if TagOf(o) == None { return; }
    var tag := TagOf(o).value;
    if tag !in tags {
      tags' := tags + {tag};
      outs' := outs + [o];
    }
  }

  // ---- the items of a pasted document

  /** The nodes and groups read so far, and every tag taken. */
  datatype Items = Items(nodes: seq<NormalizedOutbound>, groups: seq<NormalizedOutbound>, tags: set<string>) {
    /** What trimming the groups asks for. */
    predicate Ready() {
      StoredGroups(groups) && AllTagged(Bodies(groups), tags) && DistinctTags(Bodies(groups))
    }
  }

  /** The first node with this tag becomes `entry`. */
  function ReplaceNode(nodes: seq<NormalizedOutbound>, tag: string, entry: NormalizedOutbound): seq<NormalizedOutbound>
  {
    if nodes == [] then []
    else if nodes[0].tag == tag then [entry] + nodes[1..]
    else [nodes[0]] + ReplaceNode(nodes[1..], tag, entry)
  }

  lemma {:induction false} ReplaceFirst(nodes: seq<NormalizedOutbound>, tag: string, entry: NormalizedOutbound, i: nat)
    requires i <= |nodes| && (i < |nodes| ==> nodes[i].tag == tag)
    requires forall j :: 0 <= j < i ==> nodes[j].tag != tag
    ensures ReplaceNode(nodes, tag, entry) == if i < |nodes| then nodes[i := entry] else nodes
  {
    if i == 0 {
    } else {
      ReplaceFirst(nodes[1..], tag, entry, i - 1);
      assert nodes == [nodes[0]] + nodes[1..];
    }
  }

  method FindNode(nodes: seq<NormalizedOutbound>, tag: string) returns (i: nat)
    ensures i <= |nodes| && (i < |nodes| ==> nodes[i].tag == tag)
    ensures forall j :: 0 <= j < i ==> nodes[j].tag != tag
  {
    i := 0;
    while i < |nodes| && nodes[i].tag != tag
      invariant i <= |nodes| && forall j :: 0 <= j < i ==> nodes[j].tag != tag
    {
      i := i + 1;
    }
  }

  /** What reading one item makes of the rest; `fits` when it passed its checks. */
  function Pushed(item: Value, fits: bool, items: Items): Items {
    if !fits || TagOf(item) == None then items
    else
      var entry := NormalizedOutbound(TagOf(item).value, item);
      if entry.tag in items.tags then
        if GetStr(item, Type) == Some("wireguard")
        then items.(nodes := ReplaceNode(items.nodes, entry.tag, entry)) else items
      else if IsGroup(item) then items.(groups := items.groups + [entry], tags := items.tags + {entry.tag})
      else items.(nodes := items.nodes + [entry], tags := items.tags + {entry.tag})
  }

  /** Reads one item; `allowed` and `tagOk` are the checks it must pass. A second
      WireGuard item replaces the node that has its tag. */
  method PushShareItem(item: Value, allowed: Value -> bool, tagOk: string -> bool, items: Items) returns (r: Items)
    requires items.Ready()
    ensures r == Pushed(item, allowed(item) && TagOf(item).Some? && tagOk(TagOf(item).value), items)
    ensures r.Ready()
  {
    r := items;
    if !allowed(item) || TagOf(item) == None || !tagOk(TagOf(item).value) { return; }
    var tag := TagOf(item).value;
    var entry := NormalizedOutbound(tag, item);
    if tag in items.tags {
      if GetStr(item, Type) == Some("wireguard") {
        var i := FindNode(items.nodes, tag);
        ReplaceFirst(items.nodes, tag, entry, i);
        if i < |items.nodes| { r := items.(nodes := items.nodes[i := entry]); }
      }
      return;
    }
    if IsGroup(item) {
      assert Bodies(items.groups + [entry]) == Bodies(items.groups) + [item];
      r := items.(groups := items.groups + [entry], tags := items.tags + {tag});
    } else {
      r := items.(nodes := items.nodes + [entry], tags := items.tags + {tag});
    }
  }

  // ---- a tag for the injected selector

  const U32_MAX: nat := 0xFFFF_FFFF

  function Candidate(preferred: string, n: nat): string {
    preferred + "-" + Decimal(n)
  }

  lemma CandidatesDiffer(preferred: string, m: nat, n: nat)
    ensures Candidate(preferred, m) != preferred
    ensures Candidate(preferred, m) == Candidate(preferred, n) ==> m == n
  {
    if Candidate(preferred, m) == Candidate(preferred, n) {
      var k := |preferred + "-"|;
      assert Candidate(preferred, m)[k..] == Decimal(m) && Candidate(preferred, n)[k..] == Decimal(n);
      DecimalFacts(m);
      DecimalFacts(n);
    }
    assert |Candidate(preferred, m)| > |preferred|;
  }

  /** `preferred` and its candidates below `n`. */
  function Tried(preferred: string, n: nat): set<string>
    requires n >= 2
  {
    if n == 2 then {preferred} else Tried(preferred, n - 1) + {Candidate(preferred, n - 1)}
  }

  lemma {:induction false} TriedCount(preferred: string, n: nat)
    requires n >= 2
    ensures |Tried(preferred, n)| == n - 1
    ensures forall m: nat :: n <= m ==> Candidate(preferred, m) !in Tried(preferred, n)
  {
    if n > 2 {
      TriedCount(preferred, n - 1);
    }
    forall m: nat | n <= m ensures Candidate(preferred, m) !in Tried(preferred, n) {
      CandidatesDiffer(preferred, m, n - 1);
    }
  }

  lemma {:induction false} SubsetCount(a: set<string>, b: set<string>)
    requires a <= b
    ensures |a| <= |b|
  {
    if a != {} {
      var x :| x in a;
      SubsetCount(a - {x}, b - {x});
    }
  }

  /** The preferred tag, or the first numbered one that is free. The search ends
      before the numbers of a `u32` do unless that many tags are taken. */
  method FreshShareTag(tags: set<string>, preferred: string) returns (r: string)
    ensures preferred !in tags ==> r == preferred
    ensures |tags| < U32_MAX - 1 ==> r !in tags
    ensures preferred in tags && r !in tags && r != preferred + "-fallback" ==>
      exists n: nat :: 2 <= n < U32_MAX && r == Candidate(preferred, n) && Tried(preferred, n) <= tags
  {
    if preferred !in tags { return preferred; }
    var n := 2;
    while n < U32_MAX
      invariant 2 <= n <= U32_MAX && Tried(preferred, n) <= tags
    {
      var candidate := Candidate(preferred, n);
      if candidate !in tags { return candidate; }
      n := n + 1;
    }
    TriedCount(preferred, n);
    SubsetCount(Tried(preferred, n), tags);
    return preferred + "-fallback";
  }
}
