/** JSON Pointers (RFC 6901): how a location is written and read back. */
module JsonPointer {
  import opened JsonValue

  type Doc = Json<string>

  /** One step into a document. */
  datatype Step = Member(key: string) | Element(index: nat)

  function Child(v: Doc, step: Step): Option<Doc> {
    match step
    case Member(key) => Get(v, key)
    case Element(i) => if v.Arr? && i < |v.items| then Some(v.items[i]) else None
  }

  function Resolve(v: Doc, path: seq<Step>): Option<Doc> {
    if path == [] then Some(v)
    else
      var next := Child(v, path[0]);
      if next.Some? then Resolve(next.value, path[1..]) else None
  }

  // ---- writing

  function ReplaceChar(s: string, c: char, text: string): string {
    if s == "" then "" else (if s[0] == c then text else [s[0]]) + ReplaceChar(s[1..], c, text)
  }

  function Escape(key: string): string {
    ReplaceChar(ReplaceChar(key, '~', "~0"), '/', "~1")
  }

  function Digit(n: nat): char
    requires n < 10
  {
    (n + 48) as char
  }

  function Decimal(n: nat): string {
    if n < 10 then [Digit(n)] else Decimal(n / 10) + [Digit(n % 10)]
  }

  function Token(step: Step): string {
    match step
    case Member(key) => Escape(key)
    case Element(i) => Decimal(i)
  }

  function Pointer(path: seq<Step>): string {
    if path == [] then "" else "/" + Token(path[0]) + Pointer(path[1..])
  }

  // ---- reading (section 4)

  /** The text before the first `/`. */
  function Head(s: string): (r: string)
    ensures |r| <= |s| && s[..|r|] == r
  {
    if s == "" || s[0] == '/' then "" else [s[0]] + Head(s[1..])
  }

  function Unescape(token: string): string {
    if |token| >= 2 && token[0] == '~' && token[1] == '1' then "/" + Unescape(token[2..])
    else if |token| >= 2 && token[0] == '~' && token[1] == '0' then "~" + Unescape(token[2..])
    else if token == "" then ""
    else [token[0]] + Unescape(token[1..])
  }

  predicate AllDigits(s: string) {
    forall i :: 0 <= i < |s| ==> IsDigit(s[i])
  }

  function Number(s: string): nat
    requires AllDigits(s)
  {
    if s == "" then 0 else 10 * Number(s[..|s| - 1]) + (s[|s| - 1] as int - 48)
  }

  /** An array index has no leading zero. */
  predicate IsIndex(s: string) {
    s != "" && AllDigits(s) && (|s| > 1 ==> s[0] != '0')
  }

  function ChildAt(v: Doc, token: string): Option<Doc> {
    if v.Obj? then Get(v, Unescape(token))
    else if v.Arr? && IsIndex(token) && Number(token) < |v.items| then Some(v.items[Number(token)])
    else None
  }

  function Evaluate(v: Doc, pointer: string): Option<Doc>
    decreases |pointer|
  {
    if pointer == "" then Some(v)
    else if pointer[0] != '/' then None
    else
      var token := Head(pointer[1..]);
      var next := ChildAt(v, token);
      if next.Some? then Evaluate(next.value, pointer[1 + |token|..]) else None
  }

  // ---- reading back what was written

  /** Escaping one character at a time. */
  function EscapeEach(key: string): string {
    if key == "" then ""
    else (if key[0] == '~' then "~0" else if key[0] == '/' then "~1" else [key[0]]) + EscapeEach(key[1..])
  }

  lemma {:induction false} ReplaceAppend(a: string, b: string, c: char, text: string)
    ensures ReplaceChar(a + b, c, text) == ReplaceChar(a, c, text) + ReplaceChar(b, c, text)
  {
    if a == "" {
      assert a + b == b;
    } else {
      assert (a + b)[0] == a[0] && (a + b)[1..] == a[1..] + b;
      ReplaceAppend(a[1..], b, c, text);
    }
  }

  lemma {:induction false} EscapeByChar(key: string)
    ensures Escape(key) == EscapeEach(key)
  {
    if key == "" {
    } else {
      EscapeByChar(key[1..]);
      var first := if key[0] == '~' then "~0" else [key[0]];
      ReplaceAppend(first, ReplaceChar(key[1..], '~', "~0"), '/', "~1");
      ReplaceFirst(first, key[0]);
    }
  }

  lemma ReplaceFirst(first: string, c: char)
    requires first == if c == '~' then "~0" else [c]
    ensures ReplaceChar(first, '/', "~1") == if c == '/' then "~1" else first
  {
    if c == '~' {
      assert first[1..] == "0" && "0"[1..] == "";
      assert ReplaceChar("0", '/', "~1") == "0" + ReplaceChar("", '/', "~1");
    } else {
      assert first[1..] == "";
    }
  }

  lemma {:induction false} UnescapeEscaped(key: string)
    ensures Unescape(EscapeEach(key)) == key
  {
    if key == "" {
    } else {
      UnescapeEscaped(key[1..]);
      var rest := EscapeEach(key[1..]);
      if key[0] == '~' {
        assert ("~0" + rest)[2..] == rest;
      } else if key[0] == '/' {
        assert ("~1" + rest)[2..] == rest;
      } else {
        assert ([key[0]] + rest)[1..] == rest;
      }
      assert key == [key[0]] + key[1..];
    }
  }

  predicate NoSlash(s: string) {
    forall i :: 0 <= i < |s| ==> s[i] != '/'
  }

  lemma {:induction false} EscapedHasNoSlash(key: string)
    ensures NoSlash(EscapeEach(key))
  {
    if key == "" {
    } else {
      EscapedHasNoSlash(key[1..]);
    }
  }

  lemma {:induction false} DecimalFacts(n: nat)
    ensures IsIndex(Decimal(n)) && Number(Decimal(n)) == n && NoSlash(Decimal(n))
    ensures n > 0 ==> Decimal(n)[0] != '0'
  {
    if n >= 10 {
      DecimalFacts(n / 10);
      var s := Decimal(n);
      assert s[..|s| - 1] == Decimal(n / 10);
      assert s[0] == Decimal(n / 10)[0];
    } else {
      assert [Digit(n)][..0] == "";
    }
  }

  lemma TokenHasNoSlash(step: Step)
    ensures NoSlash(Token(step))
  {
    match step
    case Member(key) => EscapeByChar(key); EscapedHasNoSlash(key);
    case Element(i) => DecimalFacts(i);
  }

  lemma {:induction false} HeadOf(token: string, rest: string)
    requires NoSlash(token) && (rest == "" || rest[0] == '/')
    ensures Head(token + rest) == token
  {
    if token == "" {
      assert token + rest == rest;
    } else {
      assert (token + rest)[0] == token[0] && (token + rest)[1..] == token[1..] + rest;
      HeadOf(token[1..], rest);
      assert token == [token[0]] + token[1..];
    }
  }

  lemma TokenReadsBack(v: Doc, step: Step)
    requires Child(v, step).Some?
    ensures ChildAt(v, Token(step)) == Child(v, step)
  {
    match step
    case Member(key) => EscapeByChar(key); UnescapeEscaped(key);
    case Element(i) => DecimalFacts(i);
  }

  lemma PointerSplits(path: seq<Step>)
    requires path != []
    ensures var p := Pointer(path);
      p[0] == '/' && Head(p[1..]) == Token(path[0]) && p[1 + |Token(path[0])|..] == Pointer(path[1..])
  {
    var token, rest := Token(path[0]), Pointer(path[1..]);
    TokenHasNoSlash(path[0]);
    HeadOf(token, rest);
    assert Pointer(path) == "/" + (token + rest);
    assert Pointer(path)[1..] == token + rest;
    assert (token + rest)[|token|..] == rest;
  }

  /** A written pointer leads back to the node it was written for, whatever
      characters the member names hold. */
  lemma {:induction false} PointerRoundTrip(v: Doc, path: seq<Step>)
    requires Resolve(v, path).Some?
    ensures Evaluate(v, Pointer(path)) == Resolve(v, path)
  {
    if path == [] {
    } else {
      PointerSplits(path);
      TokenReadsBack(v, path[0]);
      PointerRoundTrip(Child(v, path[0]).value, path[1..]);
    }
  }

  /** Member names cannot imitate structure: equal pointers have equal tokens. */
  lemma {:induction false} PointerTokensUnique(a: seq<Step>, b: seq<Step>)
    requires Pointer(a) == Pointer(b)
    ensures |a| == |b| && forall i :: 0 <= i < |a| ==> Token(a[i]) == Token(b[i])
  {
    if a != [] && b != [] {
      PointerSplits(a);
      PointerSplits(b);
      PointerTokensUnique(a[1..], b[1..]);
      assert forall i :: 1 <= i < |a| ==> a[i] == a[1..][i - 1] && b[i] == b[1..][i - 1];
    }
  }
}
