/** Where the sanitizer lets a forbidden member pass: places in the document,
    which no choice of member names can imitate. */
module ForbiddenExemptions {
  import opened JsonValue
  import opened JsonPointer
  import opened ForbiddenWalk

  lemma Regroup(a: string, b: string, c: string, d: string)
    ensures a + b + (c + d) == a + b + c + d
  {}

  lemma {:induction false} PointerAppend(a: seq<Step>, b: seq<Step>)
    ensures Pointer(a + b) == Pointer(a) + Pointer(b)
  {
    if a == [] {
      assert a + b == b;
    } else {
      assert (a + b)[0] == a[0] && (a + b)[1..] == a[1..] + b;
      PointerAppend(a[1..], b);
      Regroup("/", Token(a[0]), Pointer(a[1..]), Pointer(b));
    }
  }

  lemma SinglePointer(step: Step)
    ensures Pointer([step]) == "/" + Token(step)
  {
    assert [step][1..] == [];
  }

  lemma PointerSnoc(front: seq<Step>, last: Step)
    ensures Pointer(front + [last]) == Pointer(front) + ("/" + Token(last))
  {
    PointerAppend(front, [last]);
    SinglePointer(last);
  }

  lemma PointerLast(path: seq<Step>)
    requires path != []
    ensures Pointer(path) == Pointer(path[..|path| - 1]) + ("/" + Token(path[|path| - 1]))
  {
    var front, last := path[..|path| - 1], path[|path| - 1];
    PointerSnoc(front, last);
    assert front + [last] == path;
  }

  // ---- suffixes

  lemma SameLength(front: string, token: string, word: string)
    requires NoSlash(token) && NoSlash(word) && EndsWith(front + ("/" + token), "/" + word)
    ensures |token| == |word|
  {
    var s := front + ("/" + token);
    var i := |s| - |word| - 1;
    assert s[i..] == "/" + word && s[i..][0] == s[i];
    assert forall j :: |front| < j < |s| ==> s[j] == token[j - |front| - 1];
    assert forall j :: i < j < |s| ==> s[j] == s[i..][j - i] == word[j - i - 1];
    assert s[|front|] == '/';
  }

  /** The text after the last slash is all there is to compare. */
  lemma LastToken(front: string, token: string, word: string)
    requires NoSlash(token) && NoSlash(word)
    ensures EndsWith(front + ("/" + token), "/" + word) <==> token == word
  {
    var s := front + ("/" + token);
    assert s[|front|..] == "/" + token && s[|front|..][1..] == token && ("/" + word)[1..] == word;
    if EndsWith(s, "/" + word) { SameLength(front, token, word); }
  }

  lemma EndsBelow(s: string, tail: string, suffix: string)
    ensures EndsWith(s + tail, suffix + tail) <==> EndsWith(s, suffix)
  {
    var all := s + tail;
    if |suffix| <= |s| {
      var rest := s[|s| - |suffix|..];
      assert all[|all| - |suffix + tail|..] == rest + tail;
      assert (rest + tail)[..|suffix|] == rest && (suffix + tail)[..|suffix|] == suffix;
    }
  }

  lemma WordIs(word: string)
    requires Plain(word)
    ensures Token(Member(word)) == word && NoSlash(word)
  {
    EscapeByChar(word);
    PlainToken(word);
  }

  /** A token is this word only for the member of that name. */
  lemma NameExactly(step: Step, name: string)
    requires Plain(name) && !AllDigits(name)
    ensures Token(step) == name <==> step == Member(name)
  {
    WordIs(name);
    if Token(step) == name { WordToken(step, name); }
  }

  /** The last step goes to the member called `name`. */
  predicate EndsIn(path: seq<Step>, name: string) {
    path != [] && path[|path| - 1] == Member(name)
  }

  lemma EndsInExactly(path: seq<Step>, name: string)
    requires Plain(name) && !AllDigits(name)
    ensures EndsWith(Pointer(path), "/" + name) <==> EndsIn(path, name)
  {
    if path != [] {
      PointerLast(path);
      TokenHasNoSlash(path[|path| - 1]);
      WordIs(name);
      LastToken(Pointer(path[..|path| - 1]), Token(path[|path| - 1]), name);
      NameExactly(path[|path| - 1], name);
    }
  }

  lemma EndsInTwo(path: seq<Step>, above: string, name: string)
    requires Plain(above) && !AllDigits(above) && Plain(name) && EndsIn(path, name)
    ensures EndsWith(Pointer(path), "/" + above + "/" + name) <==> EndsIn(path[..|path| - 1], above)
  {
    var front := path[..|path| - 1];
    assert "/" + above + "/" + name == "/" + above + ("/" + name);
    PointerLast(path);
    WordIs(name);
    EndsBelow(Pointer(front), "/" + name, "/" + above);
    EndsInExactly(front, above);
  }

  // ---- fixed places

  predicate Words(names: seq<string>) {
    forall i :: 0 <= i < |names| ==> Plain(names[i]) && !AllDigits(names[i])
  }

  function Members(names: seq<string>): (r: seq<Step>)
    ensures |r| == |names| && forall i :: 0 <= i < |r| ==> r[i] == Member(names[i])
  {
    seq(|names|, i requires 0 <= i < |names| => Member(names[i]))
  }

  lemma PlaceExactly(path: seq<Step>, place: seq<string>)
    requires Words(place)
    ensures Pointer(path) == Pointer(Members(place)) <==> path == Members(place)
  {
    if Pointer(path) == Pointer(Members(place)) {
      PointerTokensUnique(path, Members(place));
      forall i | 0 <= i < |path| ensures path[i] == Members(place)[i] {
        WordIs(place[i]);
        NameExactly(path[i], place[i]);
      }
    }
  }

  lemma PlaceOfTwo(path: seq<Step>, a: string, b: string)
    requires Words([a, b])
    ensures Pointer(path) == "/" + a + "/" + b <==> path == Members([a, b])
  {
    var place := Members([a, b]);
    WordIs([a, b][0]);
    WordIs([a, b][1]);
    PointerLast(place);
    assert place[..1] == [Member(a)];
    SinglePointer(Member(a));
    assert "/" + a + "/" + b == "/" + a + ("/" + b);
    PlaceExactly(path, [a, b]);
  }

  lemma PlaceOfThree(path: seq<Step>, a: string, b: string, c: string)
    requires Words([a, b, c])
    ensures Pointer(path) == "/" + a + "/" + b + "/" + c <==> path == Members([a, b, c])
  {
    var place := Members([a, b, c]);
    WordIs([a, b, c][2]);
    PointerLast(place);
    assert place[..2] == Members([a, b]);
    assert [a, b][0] == [a, b, c][0] && [a, b][1] == [a, b, c][1];
    PlaceOfTwo(place[..2], a, b);
    assert "/" + a + "/" + b + "/" + c == "/" + a + "/" + b + ("/" + c);
    PlaceExactly(path, [a, b, c]);
  }

  // ---- numbered places

  /** `path` below an entry of the list `b` of the object `a`. An entry of an object
      counts as well when its name is a number. */
  predicate InList(path: seq<Step>, a: string, b: string) {
    && |path| == 4 && path[0] == Member(a) && path[1] == Member(b) && path[3] == Member("path")
    && Token(path[2]) != "" && AllDigits(Token(path[2]))
  }

  lemma FourSteps(path: seq<Step>)
    requires |path| == 4
    ensures Pointer(path) ==
      "/" + Token(path[0]) + "/" + Token(path[1]) + "/" + (Token(path[2]) + ("/" + Token(path[3])))
  {
    PointerLast(path);
    PointerLast(path[..3]);
    PointerLast(path[..2]);
    assert path[..2] == [path[0]] + [path[1]] && path[..2][..1] == [path[0]];
    SinglePointer(path[0]);
    assert path[..3][..2] == path[..2];
    JoinSteps(Token(path[0]), Token(path[1]), Token(path[2]), Token(path[3]));
  }

  lemma JoinSteps(a: string, b: string, c: string, d: string)
    ensures "/" + a + ("/" + b) + ("/" + c) + ("/" + d) == "/" + a + "/" + b + "/" + (c + ("/" + d))
  {}

  lemma NumberedHead(prefix: string, idx: string, rest: string)
    requires NoSlash(idx) && idx != "" && AllDigits(idx) && rest == "/path"
    ensures IsNumberedPath(prefix + (idx + rest), prefix)
  {
    var pointer := prefix + (idx + rest);
    assert pointer[..|prefix|] == prefix && pointer[|prefix|..] == idx + rest;
    HeadOf(idx, rest);
    assert (idx + rest)[|idx|..] == rest;
  }

  lemma NumberedIsInList(path: seq<Step>, prefix: string, a: string, b: string)
    requires Plain(a) && Plain(b) && !AllDigits(a) && !AllDigits(b) && prefix == "/" + a + "/" + b + "/"
    requires IsNumberedPath(Pointer(path), prefix)
    ensures InList(path, a, b)
  {
    ExemptionIsStructural(path, Pointer(path), prefix, a, b);
    var idx, d := NumberedShape(Pointer(path), prefix);
    ShapeTokens(path, prefix, a, b, idx, d);
    assert idx != "";
  }

  /** A pointer of four steps, two of them given by name and the last one too. */
  lemma NumberedPointer(path: seq<Step>, prefix: string, a: string, b: string, d: string)
    requires |path| == 4 && path[0] == Member(a) && path[1] == Member(b) && path[3] == Member(d)
    requires Plain(a) && Plain(b) && Plain(d) && prefix == "/" + a + "/" + b + "/"
    ensures Pointer(path) == prefix + (Token(path[2]) + ("/" + d))
  {
    FourSteps(path);
    WordIs(a);
    WordIs(b);
    WordIs(d);
  }

  lemma InListIsNumbered(path: seq<Step>, prefix: string, a: string, b: string)
    requires Plain(a) && Plain(b) && InList(path, a, b) && prefix == "/" + a + "/" + b + "/"
    ensures IsNumberedPath(Pointer(path), prefix)
  {
    NumberedPointer(path, prefix, a, b, "path");
    TokenHasNoSlash(path[2]);
    NumberedHead(prefix, Token(path[2]), "/" + "path");
  }

  lemma InListExactly(path: seq<Step>, a: string, b: string)
    requires Plain(a) && Plain(b) && !AllDigits(a) && !AllDigits(b)
    ensures IsNumberedPath(Pointer(path), "/" + a + "/" + b + "/") <==> InList(path, a, b)
  {
    var prefix := "/" + a + "/" + b + "/";
    if IsNumberedPath(Pointer(path), prefix) { NumberedIsInList(path, prefix, a, b); }
    if InList(path, a, b) { InListIsNumbered(path, prefix, a, b); }
  }

  // ---- the places the sanitizer knows

  lemma LogOutput(key: string, path: seq<Step>)
    requires EndsIn(path, key)
    ensures key == "output" && Pointer(path) == "/log/output" <==> path == Members(["log", "output"])
  {
    assert !IsDigit("log"[0]) && !IsDigit("output"[0]);
    assert "/" + "log" + "/" + "output" == "/log/output";
    PlaceOfTwo(path, "log", "output");
  }

  lemma CacheFile(key: string, path: seq<Step>)
    requires EndsIn(path, key)
    ensures key == "path" && Pointer(path) == "/experimental/cache_file/path" <==>
      path == Members(["experimental", "cache_file", "path"])
  {
    assert !IsDigit("experimental"[0]) && !IsDigit("cache_file"[0]) && !IsDigit("path"[0]);
    assert "/" + "experimental" + "/" + "cache_file" + "/" + "path" == "/experimental/cache_file/path";
    PlaceOfThree(path, "experimental", "cache_file", "path");
  }

  lemma DnsServer(key: string, path: seq<Step>)
    requires EndsIn(path, key)
    ensures key == "path" && IsNumberedPath(Pointer(path), "/dns/servers/") <==> InList(path, "dns", "servers")
  {
    assert !IsDigit("dns"[0]) && !IsDigit("servers"[0]);
    assert "/" + "dns" + "/" + "servers" + "/" == "/dns/servers/";
    InListExactly(path, "dns", "servers");
  }

  lemma RuleSetFile(key: string, path: seq<Step>)
    requires EndsIn(path, key)
    ensures key == "path" && IsNumberedPath(Pointer(path), "/route/rule_set/") <==> InList(path, "route", "rule_set")
  {
    assert !IsDigit("route"[0]) && !IsDigit("rule_set"[0]);
    assert "/" + "route" + "/" + "rule_set" + "/" == "/route/rule_set/";
    InListExactly(path, "route", "rule_set");
  }

  /** `path` of the object called `transport`, at any depth. */
  predicate InTransport(path: seq<Step>) {
    EndsIn(path, "path") && EndsIn(path[..|path| - 1], "transport")
  }

  lemma TransportPath(key: string, path: seq<Step>)
    requires EndsIn(path, key)
    ensures key == "path" && EndsWith(Pointer(path), "/transport/path") <==> InTransport(path)
  {
    if key == "path" {
      assert !IsDigit("transport"[0]);
      assert "/" + "transport" + "/" + "path" == "/transport/path";
      EndsInTwo(path, "transport", "path");
    }
  }

  /** The places, and the types of the object around the member, that let the
      forbidden member `path` leads to pass. */
  predicate Exempt(path: seq<Step>, parent: map<string, Doc>, ctx: Option<Context>) {
    var kind := TypeOf(parent);
    || InTransport(path)
    || (InList(path, "dns", "servers") && (kind == Some("https") || kind == Some("h3")))
    || InList(path, "route", "rule_set")
    || (path == Members(["log", "output"]) && ctx.Some? && ctx.value.logOutput)
    || (path == Members(["experimental", "cache_file", "path"]) && ctx.Some? && ctx.value.cacheFile)
    || (EndsIn(path, "url") && (kind == Some("urltest") || kind == Some("fallback")))
    || EndsIn(path, "process_path") || EndsIn(path, "process_path_regex")
  }

  /** The test on the text of the pointer is a test on the place it points to. */
  lemma ExemptExactly(key: string, path: seq<Step>, parent: map<string, Doc>, ctx: Option<Context>)
    requires EndsIn(path, key)
    ensures SkipForbiddenAt(key, Pointer(path), parent, ctx) <==> Exempt(path, parent, ctx)
  {
    LogOutput(key, path);
    CacheFile(key, path);
    DnsServer(key, path);
    RuleSetFile(key, path);
    TransportPath(key, path);
  }

  // ---- whole documents

  const FORBIDDEN_NAMES: set<string> := {
    "path", "executable_path", "data_directory", "state_directory", "working_directory", "home_directory", "output",
    "external_ui", "external_ui_download_url", "url", "download_url", "plugin", "plugin_opts"}

  lemma ForbiddenNames(key: string)
    ensures IsForbiddenKey(key) <==> key in FORBIDDEN_NAMES || EndsWith(key, "_path")
  {}

  /** A member that could name a file, a download or a plugin is there. */
  predicate Forbidden(root: Doc, path: seq<Step>) {
    path != [] &&
    var last, parent := path[|path| - 1], Resolve(root, path[..|path| - 1]);
    && last.Member? && (last.key in FORBIDDEN_NAMES || EndsWith(last.key, "_path"))
    && parent.Some? && parent.value.Obj? && last.key in parent.value.fields
  }

  predicate ExemptAt(root: Doc, path: seq<Step>, ctx: Option<Context>)
    requires Forbidden(root, path)
  {
    Exempt(path, Resolve(root, path[..|path| - 1]).value.fields, ctx)
  }

  /** A document is let through if and only if every forbidden member in it, at
      every depth, stands in an exempt place. */
  lemma CleanExactly(root: Doc, ctx: Option<Context>)
    ensures !SomeRefused(root, "", ctx) <==>
      forall path: seq<Step> :: Forbidden(root, path) ==> ExemptAt(root, path, ctx)
  {
    forall path: seq<Step>
      ensures RefusedAt(root, "", path, ctx) <==> Forbidden(root, path) && !ExemptAt(root, path, ctx)
    {
      if path != [] && path[|path| - 1].Member? { ForbiddenNames(path[|path| - 1].key); }
      if Forbidden(root, path) {
        assert "" + Pointer(path) == Pointer(path);
        ExemptExactly(path[|path| - 1].key, path, Resolve(root, path[..|path| - 1]).value.fields, ctx);
      }
    }
  }
}
