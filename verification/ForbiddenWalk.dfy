/** The walk that keeps file paths, URLs and plugins out of an elevated config. */
module ForbiddenWalk {
  import opened JsonValue
  import opened JsonPointer

  /** The files the helper itself points the core at. */
  datatype Context = Context(logOutput: bool, cacheFile: bool)

  predicate IsForbiddenKey(key: string) {
    || key == "path" || key == "executable_path" || key == "data_directory" || key == "state_directory"
    || key == "working_directory" || key == "home_directory" || key == "output" || key == "external_ui"
    || key == "external_ui_download_url" || key == "url" || key == "download_url" || key == "plugin"
    || key == "plugin_opts" || EndsWith(key, "_path")
  }

  function TypeOf(parent: map<string, Doc>): Option<string> {
    GetStr(Obj(parent), "type")
  }

  /** `<prefix><digits>/path`, nothing else. */
  predicate IsNumberedPath(pointer: string, prefix: string) {
    StartsWith(pointer, prefix) &&
    var rest := pointer[|prefix|..];
    var idx := Head(rest);
    idx != "" && AllDigits(idx) && rest[|idx|..] == "/path"
  }

  predicate IsUrlStylePath(pointer: string, parent: map<string, Doc>) {
    || EndsWith(pointer, "/transport/path")
    || (IsNumberedPath(pointer, "/dns/servers/") && (TypeOf(parent) == Some("https") || TypeOf(parent) == Some("h3")))
  }

  predicate SkipForbiddenAt(key: string, pointer: string, parent: map<string, Doc>, ctx: Option<Context>) {
    || (key == "path" && IsUrlStylePath(pointer, parent))
    || (key == "path" && IsNumberedPath(pointer, "/route/rule_set/"))
    || (key == "output" && pointer == "/log/output" && ctx.Some? && ctx.value.logOutput)
    || (key == "path" && pointer == "/experimental/cache_file/path" && ctx.Some? && ctx.value.cacheFile)
    || (key == "url" && (TypeOf(parent) == Some("urltest") || TypeOf(parent) == Some("fallback")))
    || key == "process_path" || key == "process_path_regex"
  }

  predicate Refused(key: string, pointer: string, parent: map<string, Doc>, ctx: Option<Context>) {
    IsForbiddenKey(key) && !SkipForbiddenAt(key, pointer, parent, ctx)
  }

  datatype Verdict = Clean | Found(pointer: string)

  /** A refused member at `path` below `v`, which itself sits at `base`. */
  ghost predicate RefusedAt(v: Doc, base: string, path: seq<Step>, ctx: Option<Context>) {
    path != [] &&
    var last := path[|path| - 1];
    var parent := Resolve(v, path[..|path| - 1]);
    && last.Member? && parent.Some? && parent.value.Obj? && last.key in parent.value.fields
    && Refused(last.key, base + Pointer(path), parent.value.fields, ctx)
  }

  ghost predicate SomeRefused(v: Doc, base: string, ctx: Option<Context>) {
    exists path :: RefusedAt(v, base, path, ctx)
  }

  // ---- one step down

  function Below(base: string, step: Step): string {
    base + "/" + Token(step)
  }

  lemma PointerCons(base: string, step: Step, rest: seq<Step>)
    ensures base + Pointer([step] + rest) == Below(base, step) + Pointer(rest)
  {
    assert ([step] + rest)[1..] == rest;
    assert base + ("/" + Token(step) + Pointer(rest)) == base + "/" + Token(step) + Pointer(rest);
  }

  lemma RefusedBelow(v: Doc, base: string, step: Step, rest: seq<Step>, ctx: Option<Context>)
    requires Child(v, step).Some? && rest != []
    ensures RefusedAt(v, base, [step] + rest, ctx) == RefusedAt(Child(v, step).value, Below(base, step), rest, ctx)
  {
    var path := [step] + rest;
    PointerCons(base, step, rest);
    assert path[..|path| - 1] == [step] + rest[..|rest| - 1];
    assert ([step] + rest[..|rest| - 1])[1..] == rest[..|rest| - 1];
  }

  lemma RefusedHere(v: Doc, base: string, key: string, ctx: Option<Context>)
    requires v.Obj? && key in v.fields
    ensures RefusedAt(v, base, [Member(key)], ctx) == Refused(key, Below(base, Member(key)), v.fields, ctx)
  {
    PointerCons(base, Member(key), []);
    assert [Member(key)] + [] == [Member(key)] && [Member(key)][..0] == [];
    assert Below(base, Member(key)) + Pointer([]) == Below(base, Member(key));
  }

  /** A refused member is either here or below one of the children. */
  lemma RefusedSplits(v: Doc, base: string, path: seq<Step>, ctx: Option<Context>)
    requires RefusedAt(v, base, path, ctx)
    ensures Child(v, path[0]).Some?
    ensures (|path| == 1 && path[0].Member? && v.Obj? && Refused(path[0].key, Below(base, path[0]), v.fields, ctx))
         || (|path| > 1 && RefusedAt(Child(v, path[0]).value, Below(base, path[0]), path[1..], ctx))
  {
    assert path == [path[0]] + path[1..];
    if |path| == 1 {
      assert path[..0] == [] && path == [Member(path[0].key)];
      RefusedHere(v, base, path[0].key, ctx);
    } else {
      assert path[..|path| - 1][0] == path[0];
      RefusedBelow(v, base, path[0], path[1..], ctx);
    }
  }

  /** What holds of one child: refused itself, or something below it is. */
  ghost predicate ChildRefused(v: Doc, base: string, step: Step, ctx: Option<Context>) {
    Child(v, step).Some? &&
    ((v.Obj? && step.Member? && Refused(step.key, Below(base, step), v.fields, ctx)) ||
     SomeRefused(Child(v, step).value, Below(base, step), ctx))
  }

  lemma RefusedByChild(v: Doc, base: string, ctx: Option<Context>)
    ensures SomeRefused(v, base, ctx) <==> exists step :: ChildRefused(v, base, step, ctx)
  {
    if path :| RefusedAt(v, base, path, ctx) {
      RefusedSplits(v, base, path, ctx);
      assert ChildRefused(v, base, path[0], ctx);
    }
    if step :| ChildRefused(v, base, step, ctx) {
      if v.Obj? && step.Member? && Refused(step.key, Below(base, step), v.fields, ctx) {
        RefusedHere(v, base, step.key, ctx);
      } else {
        var rest :| RefusedAt(Child(v, step).value, Below(base, step), rest, ctx);
        RefusedBelow(v, base, step, rest, ctx);
      }
    }
  }

  /** The verdict, and when it names a location, a refused member lies there. */
  ghost predicate Right(v: Doc, base: string, ctx: Option<Context>, r: Verdict) {
    match r
    case Clean => !SomeRefused(v, base, ctx)
    case Found(p) => exists path :: RefusedAt(v, base, path, ctx) && p == base + Pointer(path)
  }

  lemma FoundBelow(v: Doc, base: string, step: Step, ctx: Option<Context>, p: string)
    requires Child(v, step).Some?
    ensures Right(Child(v, step).value, Below(base, step), ctx, Found(p)) ==> Right(v, base, ctx, Found(p))
  {
    if rest :| RefusedAt(Child(v, step).value, Below(base, step), rest, ctx) && p == Below(base, step) + Pointer(rest) {
      RefusedBelow(v, base, step, rest, ctx);
      PointerCons(base, step, rest);
    }
  }

  lemma ObjectClean(v: Doc, base: string, ctx: Option<Context>)
    requires v.Obj? && forall k :: k in v.fields ==> !ChildRefused(v, base, Member(k), ctx)
    ensures !SomeRefused(v, base, ctx)
  {
    RefusedByChild(v, base, ctx);
    forall step ensures !ChildRefused(v, base, step, ctx) {
      match step case Member(k) => case Element(i) =>
    }
  }

  lemma ArrayClean(v: Doc, base: string, ctx: Option<Context>)
    requires v.Arr? && forall i :: 0 <= i < |v.items| ==> !ChildRefused(v, base, Element(i), ctx)
    ensures !SomeRefused(v, base, ctx)
  {
    RefusedByChild(v, base, ctx);
    forall step ensures !ChildRefused(v, base, step, ctx) {
      match step case Member(k) => case Element(i) =>
    }
  }

  /** One member of an object. */
  method WalkMember(v: Doc, key: string, pointer: string, ctx: Option<Context>) returns (r: Verdict)
    requires v.Obj? && key in v.fields
    ensures r.Clean? ==> !ChildRefused(v, pointer, Member(key), ctx)
    ensures r.Found? ==> Right(v, pointer, ctx, r)
    decreases v, 0
  {
    var child, at := v.fields[key], Below(pointer, Member(key));
    var skip := SkipForbiddenAt(key, at, v.fields, ctx);
    if skip && !child.Obj? && !child.Arr? {
      ScalarClean(child, at, ctx);
      return Clean;
    }
    if !skip && IsForbiddenKey(key) {
      RefusedHere(v, pointer, key, ctx);
      PointerCons(pointer, Member(key), []);
      assert [Member(key)] + [] == [Member(key)] && at + "" == at;
      return Found(at);
    }
    r := WalkForbidden(child, at, ctx);
    if r.Found? { FoundBelow(v, pointer, Member(key), ctx, r.pointer); }
  }

  /** Members are visited in some order; the result is right for all of them. */
  method WalkForbidden(v: Doc, pointer: string, ctx: Option<Context>) returns (r: Verdict)
    ensures Right(v, pointer, ctx, r)
    decreases v, 1
  {
    if v.Obj? {
      var keys := v.fields.Keys;
      while keys != {}
        invariant keys <= v.fields.Keys
        invariant forall k :: k in v.fields && k !in keys ==> !ChildRefused(v, pointer, Member(k), ctx)
        decreases keys
      {
        var key :| key in keys;
        r := WalkMember(v, key, pointer, ctx);
        if r.Found? { return; }
        keys := keys - {key};
      }
      ObjectClean(v, pointer, ctx);
    } else if v.Arr? {
      var i := 0;
      while i < |v.items|
        invariant i <= |v.items|
        invariant forall j :: 0 <= j < i ==> !ChildRefused(v, pointer, Element(j), ctx)
      {
        r := WalkForbidden(v.items[i], Below(pointer, Element(i)), ctx);
        if r.Found? { FoundBelow(v, pointer, Element(i), ctx, r.pointer); return; }
        i := i + 1;
      }
      ArrayClean(v, pointer, ctx);
    } else {
      ScalarClean(v, pointer, ctx);
    }
    return Clean;
  }

  lemma ScalarClean(v: Doc, base: string, ctx: Option<Context>)
    requires !v.Obj? && !v.Arr?
    ensures !SomeRefused(v, base, ctx)
  {
    RefusedByChild(v, base, ctx);
  }

  lemma RefusedResolves(v: Doc, base: string, path: seq<Step>, ctx: Option<Context>)
    requires RefusedAt(v, base, path, ctx)
    ensures Resolve(v, path).Some? && path[|path| - 1].Member? && IsForbiddenKey(path[|path| - 1].key)
  {
    var n := |path| - 1;
    ResolveAppend(v, path[..n], path[n..]);
    assert path[..n] + path[n..] == path && path[n..][1..] == [] && path[n..][0] == path[n];
  }

  /** The reported pointer, read as section 4 of RFC 6901 says, finds a member
      that is forbidden where it stands. */
  lemma ReportedPointerResolves(root: Doc, pointer: string, ctx: Option<Context>)
    requires Right(root, "", ctx, Found(pointer))
    ensures Evaluate(root, pointer).Some?
    ensures exists path ::
      RefusedAt(root, "", path, ctx) && pointer == Pointer(path) && Evaluate(root, pointer) == Resolve(root, path)
  {
    var path :| RefusedAt(root, "", path, ctx) && pointer == "" + Pointer(path);
    assert pointer == Pointer(path);
    RefusedResolves(root, "", path, ctx);
    PointerRoundTrip(root, path);
  }

  lemma {:induction false} ResolveAppend(v: Doc, a: seq<Step>, b: seq<Step>)
    ensures Resolve(v, a + b) == if Resolve(v, a).Some? then Resolve(Resolve(v, a).value, b) else None
  {
    if a == [] {
      assert a + b == b;
    } else {
      assert (a + b)[0] == a[0] && (a + b)[1..] == a[1..] + b;
      if Child(v, a[0]).Some? { ResolveAppend(Child(v, a[0]).value, a[1..], b); }
    }
  }

  // ---- exemptions cannot be forged

  predicate Plain(key: string) {
    forall i :: 0 <= i < |key| ==> key[i] != '~' && key[i] != '/'
  }

  lemma {:induction false} PlainToken(key: string)
    requires Plain(key)
    ensures EscapeEach(key) == key
  {
    if key == "" {
    } else {
      PlainToken(key[1..]);
    }
  }

  lemma SameTokenSameKey(a: string, b: string)
    requires Token(Member(a)) == Token(Member(b))
    ensures a == b
  {
    EscapeByChar(a);
    EscapeByChar(b);
    UnescapeEscaped(a);
    UnescapeEscaped(b);
  }

  lemma PointerOfPlain(a: string, rest: seq<Step>)
    requires Plain(a)
    ensures Pointer([Member(a)] + rest) == "/" + a + Pointer(rest)
  {
    EscapeByChar(a);
    PlainToken(a);
    assert ([Member(a)] + rest)[1..] == rest;
  }

  lemma FourTokens(path: seq<Step>, a: string, b: string, c: string, d: string)
    requires Plain(a) && Plain(b) && Plain(c) && Plain(d)
    requires Pointer(path) == "/" + a + ("/" + b + ("/" + c + ("/" + d)))
    ensures |path| == 4 && Token(path[0]) == a && Token(path[1]) == b && Token(path[2]) == c && Token(path[3]) == d
  {
    PointerOfPlain(d, []);
    PointerOfPlain(c, [Member(d)]);
    PointerOfPlain(b, [Member(c)] + [Member(d)]);
    var three := [Member(b)] + ([Member(c)] + [Member(d)]);
    PointerOfPlain(a, three);
    var written := [Member(a)] + three;
    assert [Member(d)] + [] == [Member(d)] && Pointer([Member(d)]) == "/" + d;
    PointerTokensUnique(path, written);
    EscapeByChar(a); PlainToken(a);
    EscapeByChar(b); PlainToken(b);
    EscapeByChar(c); PlainToken(c);
    EscapeByChar(d); PlainToken(d);
    assert written[1] == Member(b) && written[2] == Member(c) && written[3] == Member(d);
  }

  lemma JoinFour(prefix: string, a: string, b: string, c: string, d: string)
    requires prefix == "/" + a + "/" + b + "/"
    ensures prefix + (c + ("/" + d)) == "/" + a + ("/" + b + ("/" + c + ("/" + d)))
  {}

  /** Only a member of that very name writes a token that is no number. */
  lemma WordToken(step: Step, word: string)
    requires Plain(word) && !AllDigits(word) && Token(step) == word
    ensures step == Member(word)
  {
    match step
    case Element(i) => DecimalFacts(i);
    case Member(key) =>
      EscapeByChar(word);
      PlainToken(word);
      SameTokenSameKey(key, word);
  }

  /** A `path` member is exempt as a rule-set file (or a DNS server path) only
      when it really sits three levels down: a member name holding a slash
      cannot stand in for two levels. */
  lemma ExemptionIsStructural(path: seq<Step>, pointer: string, prefix: string, a: string, b: string)
    requires Plain(a) && Plain(b) && !AllDigits(a) && !AllDigits(b) && prefix == "/" + a + "/" + b + "/"
    requires pointer == Pointer(path) && IsNumberedPath(pointer, prefix)
    ensures |path| == 4 && path[0] == Member(a) && path[1] == Member(b)
    ensures AllDigits(Token(path[2])) && path[3] == Member("path")
  {
    var idx, d := NumberedShape(pointer, prefix);
    ShapeTokens(path, prefix, a, b, idx, d);
    WordToken(path[0], a);
    WordToken(path[1], b);
    assert !IsDigit("path"[0]);
    WordToken(path[3], d);
  }

  lemma ShapeTokens(path: seq<Step>, prefix: string, a: string, b: string, idx: string, d: string)
    requires Plain(a) && Plain(b) && Plain(idx) && Plain(d) && prefix == "/" + a + "/" + b + "/"
    requires Pointer(path) == prefix + (idx + ("/" + d))
    ensures |path| == 4 && Token(path[0]) == a && Token(path[1]) == b && Token(path[2]) == idx && Token(path[3]) == d
  {
    JoinFour(prefix, a, b, idx, d);
    FourTokens(path, a, b, idx, d);
  }

  lemma NumberedShape(pointer: string, prefix: string) returns (idx: string, d: string)
    requires IsNumberedPath(pointer, prefix)
    ensures AllDigits(idx) && Plain(idx) && d == "path" && Plain(d) && pointer == prefix + (idx + ("/" + d))
  {
    var rest := pointer[|prefix|..];
    idx, d := Head(rest), "path";
    assert rest == idx + rest[|idx|..] && "/path" == "/" + d;
  }
}
