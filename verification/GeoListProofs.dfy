/** What survives of one `geoip` / `geosite` list, and when that is enough. */
module GeoListProofs {
  import opened JsonValue
  import opened RuleKeys
  import opened RuleSemantics
  import opened ShareRules

  // ---- how a list of codes is read

  lemma {:induction false} NonEmptyCodesExactly(texts: seq<string>, code: string)
    ensures code in NonEmptyCodes(texts) <==> code != "" && exists text :: text in texts && Lower(Trim(text)) == code
  {
    if texts == [] {
    } else {
      NonEmptyCodesExactly(texts[1..], code);
      assert texts[0] in texts && forall text :: text in texts <==> text == texts[0] || text in texts[1..];
      if code in NonEmptyCodes(texts[1..]) {
        var text :| text in texts[1..] && Lower(Trim(text)) == code;
        assert text in texts;
      }
    }
  }

  lemma {:induction false} TextsExactly(items: seq<Value>, text: string)
    ensures text in StrItems(items) <==> Str(text) in items
  {
    if items == [] {
    } else {
      TextsExactly(items[1..], text);
      assert forall v :: v in items <==> v == items[0] || v in items[1..];
    }
  }

  /** A text is one code, trimmed and in lower case; a list gives the non-empty
      ones of its texts; anything else none. */
  lemma GeoCodesExactly(v: Value, code: string)
    ensures v.Str? ==> GeoCodes(v) == [Lower(Trim(v.s))]
    ensures v.Arr? ==>
      (code in GeoCodes(v) <==> code != "" && exists text :: Str(text) in v.items && Lower(Trim(text)) == code)
    ensures !v.Str? && !v.Arr? ==> GeoCodes(v) == []
  {
    if v.Arr? {
      NonEmptyCodesExactly(StrItems(v.items), code);
      forall text ensures text in StrItems(v.items) <==> Str(text) in v.items { TextsExactly(v.items, text); }
    }
  }

  /** A leading `!` negates the code after it; `private` and `lan` are address
      classes of geo-ip lists, everything else names a set. */
  lemma CodeLiteralExactly(kind: GeoKind, code: string)
    ensures var private := kind == GeoIp && (code == "private" || code == "lan");
      var atom := if private then PrivateAddress else InSet(KindName(kind) + "-" + code);
      CodeLiteral(kind, "!" + code) == Literal(atom, true) &&
      (code == "" || code[0] != '!' ==> CodeLiteral(kind, code) == Literal(atom, false))
  {
    assert ("!" + code)[0] == '!' && ("!" + code)[1..] == code;
  }

  predicate CodeChar(c: char) {
    IsDigit(c) || 'a' <= c <= 'z' || 'A' <= c <= 'Z' || c == '-' || c == '!'
  }

  /** A valid code has up to 64 letters, digits and dashes, and a `!` only after a
      dash: never a slash or a dot. */
  lemma GeoCodeExactly(code: string)
    ensures GeoCodeOk(code) <==>
      && 1 <= |code| <= 64 && code[0] != '!'
      && (forall i :: 0 <= i < |code| ==> CodeChar(code[i]))
      && (forall i :: 0 <= i < |code| - 1 && code[i + 1] == '!' ==> code[i] == '-')
  {
    if GeoCodeOk(code) {
      assert CodeCharOk(code, 0);
      forall i | 0 <= i < |code| ensures CodeChar(code[i]) { assert CodeCharOk(code, i); }
      forall i | 0 <= i < |code| - 1 && code[i + 1] == '!' ensures code[i] == '-' { assert CodeCharOk(code, i + 1); }
    } else if 1 <= |code| <= 64 {
      var i :| 0 <= i < |code| && !CodeCharOk(code, i);
      if CodeChar(code[i]) && i > 0 { assert code[i - 1 + 1] == '!'; }
    }
  }

  // ---- what of it can be shared

  /** A code the share path can express. */
  predicate ValidCode(kind: GeoKind, code: string) {
    NamesPrivate(kind, BareCode(code)) || GeoCodeOk(BareCode(code))
  }

  function ValidLiterals(kind: GeoKind, codes: seq<string>): set<Literal> {
    set code | code in codes && ValidCode(kind, code) :: CodeLiteral(kind, code)
  }

  /** `private` swallows `!private`. */
  function Collapse(ls: set<Literal>): set<Literal> {
    if Literal(PrivateAddress, false) in ls then ls - {Literal(PrivateAddress, true)} else ls
  }

  function KeptLiterals(kind: GeoKind, codes: seq<string>): set<Literal> {
    Collapse(ValidLiterals(kind, codes))
  }

  function AtomSet(atoms: seq<Literal>): set<Literal> {
    set l | l in atoms
  }

  predicate OnePrivate(atoms: seq<Literal>) {
    forall i, j :: 0 <= i < j < |atoms| ==> !(atoms[i].atom.PrivateAddress? && atoms[j].atom.PrivateAddress?)
  }

  predicate TagsKnown(atoms: seq<Literal>, tags: set<string>) {
    forall l :: l in atoms && l.atom.InSet? ==> l.atom.tag in tags
  }

  lemma AtomSetCons(first: Literal, rest: seq<Literal>)
    ensures AtomSet([first] + rest) == {first} + AtomSet(rest)
  {}

  lemma {:induction false} ClearPrivateNegationMeaning(atoms: seq<Literal>)
    requires OnePrivate(atoms) && exists l :: l in atoms && l.atom.PrivateAddress?
    ensures var r := ClearPrivateNegation(atoms);
      OnePrivate(r) && AtomSet(r) == AtomSet(atoms) - {Literal(PrivateAddress, true)} + {Literal(PrivateAddress, false)}
  {
    var r := ClearPrivateNegation(atoms);
    if atoms[0].atom.PrivateAddress? {
      assert atoms == [atoms[0]] + atoms[1..];
      assert forall i :: 0 <= i < |atoms[1..]| ==> !atoms[1..][i].atom.PrivateAddress?;
      assert forall i :: 1 <= i < |r| ==> r[i] == atoms[i];
    } else {
      var l :| l in atoms && l.atom.PrivateAddress?;
      assert l in atoms[1..];
      ClearPrivateNegationMeaning(atoms[1..]);
      var rest := ClearPrivateNegation(atoms[1..]);
      assert r == [atoms[0]] + rest && atoms == [atoms[0]] + atoms[1..];
      AtomSetCons(atoms[0], rest);
      AtomSetCons(atoms[0], atoms[1..]);
    }
  }

  lemma PushPrivate(kind: GeoKind, code: string, atoms: seq<Literal>, t: Tables)
    requires OnePrivate(atoms) && TagsKnown(atoms, t.tags) && NamesPrivate(kind, BareCode(code))
    ensures var (r, t') := PushGeoAtom(kind, code, atoms, t);
      && OnePrivate(r) && t' == t && TagsKnown(r, t.tags)
      && AtomSet(r) == Collapse(AtomSet(atoms) + {CodeLiteral(kind, code)})
  {
    var (r, _) := PushGeoAtom(kind, code, atoms, t);
    var l := CodeLiteral(kind, code);
    if exists i :: 0 <= i < |atoms| && atoms[i].atom.PrivateAddress? {
      var i :| 0 <= i < |atoms| && atoms[i].atom.PrivateAddress?;
      assert atoms[i] in AtomSet(atoms) && atoms[i] == Literal(PrivateAddress, atoms[i].negated);
      if !l.negated {
        ClearPrivateNegationMeaning(atoms);
        forall l' | l' in r && l'.atom.InSet? ensures l' in atoms { assert l' in AtomSet(r); }
      }
    } else {
      assert AtomSet(r) == AtomSet(atoms) + {l};
    }
  }

  lemma AlreadyCollapsed(atoms: seq<Literal>)
    requires OnePrivate(atoms)
    ensures Collapse(AtomSet(atoms)) == AtomSet(atoms)
  {}

  lemma PushGeoAtomMeaning(kind: GeoKind, code: string, atoms: seq<Literal>, t: Tables)
    requires OnePrivate(atoms) && TagsKnown(atoms, t.tags)
    ensures var (r, t') := PushGeoAtom(kind, code, atoms, t);
      && OnePrivate(r) && t.tags <= t'.tags && TagsKnown(r, t'.tags)
      && AtomSet(r) == Collapse(AtomSet(atoms) + (if ValidCode(kind, code) then {CodeLiteral(kind, code)} else {}))
  {
    AlreadyCollapsed(atoms);
    if NamesPrivate(kind, BareCode(code)) {
      PushPrivate(kind, code, atoms, t);
    } else {
      var (r, _) := PushGeoAtom(kind, code, atoms, t);
      assert AtomSet(atoms) + {} == AtomSet(atoms);
      if r != atoms { assert AtomSet(r) == AtomSet(atoms) + {CodeLiteral(kind, code)}; }
    }
  }

  lemma ValidLiteralsCons(kind: GeoKind, codes: seq<string>)
    requires codes != []
    ensures ValidLiterals(kind, codes)
         == (if ValidCode(kind, codes[0]) then {CodeLiteral(kind, codes[0])} else {}) + ValidLiterals(kind, codes[1..])
  {
    assert codes == [codes[0]] + codes[1..];
  }

  lemma CollapseTwice(a: set<Literal>, b: set<Literal>)
    ensures Collapse(Collapse(a) + b) == Collapse(a + b)
  {}

  lemma {:induction false} PushGeoAtomsMeaning(kind: GeoKind, codes: seq<string>, atoms: seq<Literal>, t: Tables)
    requires OnePrivate(atoms) && TagsKnown(atoms, t.tags)
    ensures var (r, t') := PushGeoAtoms(kind, codes, atoms, t);
      && OnePrivate(r) && t.tags <= t'.tags && TagsKnown(r, t'.tags)
      && AtomSet(r) == Collapse(AtomSet(atoms) + ValidLiterals(kind, codes))
  {
    if codes == [] {
      assert AtomSet(atoms) + ValidLiterals(kind, codes) == AtomSet(atoms);
    } else {
      PushGeoAtomMeaning(kind, codes[0], atoms, t);
      var (atoms', t') := PushGeoAtom(kind, codes[0], atoms, t);
      PushGeoAtomsMeaning(kind, codes[1..], atoms', t');
      var first := if ValidCode(kind, codes[0]) then {CodeLiteral(kind, codes[0])} else {};
      ValidLiteralsCons(kind, codes);
      CollapseTwice(AtomSet(atoms) + first, ValidLiterals(kind, codes[1..]));
      assert AtomSet(atoms) + ValidLiterals(kind, codes) == (AtomSet(atoms) + first) + ValidLiterals(kind, codes[1..]);
    }
  }

  /** The emitted atoms of one list. */
  lemma GeoAtomsKept(kind: GeoKind, codes: seq<string>, t: Tables)
    ensures var (r, t') := PushGeoAtoms(kind, codes, [], t);
      AtomSet(r) == KeptLiterals(kind, codes) && t.tags <= t'.tags && TagsKnown(r, t'.tags)
  {
    PushGeoAtomsMeaning(kind, codes, [], t);
    assert AtomSet([]) + ValidLiterals(kind, codes) == ValidLiterals(kind, codes);
  }

  /** The rule-set tags a list defines. */
  function ListTags(kind: GeoKind, codes: seq<string>): set<string> {
    set code | code in codes && !NamesPrivate(kind, BareCode(code)) && GeoCodeOk(BareCode(code))
      :: GeoTag(kind, BareCode(code))
  }

  lemma ListTagsCons(kind: GeoKind, code: string, rest: seq<string>)
    ensures ListTags(kind, [code] + rest) == ListTags(kind, [code]) + ListTags(kind, rest)
  {}

  lemma PushedTag(kind: GeoKind, code: string, atoms: seq<Literal>, t: Tables)
    ensures PushGeoAtom(kind, code, atoms, t).1.tags == t.tags + ListTags(kind, [code])
  {
    if NamesPrivate(kind, BareCode(code)) || !GeoCodeOk(BareCode(code)) {
      assert ListTags(kind, [code]) == {};
    } else {
      assert ListTags(kind, [code]) == {GeoTag(kind, BareCode(code))};
    }
  }

  lemma {:induction false} PushedTags(kind: GeoKind, codes: seq<string>, atoms: seq<Literal>, t: Tables)
    ensures PushGeoAtoms(kind, codes, atoms, t).1.tags == t.tags + ListTags(kind, codes)
  {
    if codes == [] {
    } else {
      var (atoms', t') := PushGeoAtom(kind, codes[0], atoms, t);
      PushedTag(kind, codes[0], atoms, t);
      PushedTags(kind, codes[1..], atoms', t');
      ListTagsCons(kind, codes[0], codes[1..]);
      assert codes == [codes[0]] + codes[1..];
    }
  }

  // ---- the compiled list, as a rule

  lemma AtomRuleMeaning(l: Literal, f: Flow)
    ensures Matches(AtomRule(l), f) == LiteralHolds(l, f)
  {
    var r := AtomRule(l);
    assert !IsLogical(r);
    if l.atom.PrivateAddress? {
      assert IpIsPrivate in r.fields && !MetaKey(IpIsPrivate);
    } else {
      assert RuleSet in r.fields && !MetaKey(RuleSet);
      assert RuleSetList(r.fields[RuleSet]) == [l.atom.tag];
    }
  }

  lemma RuleSetListOfValue(tags: seq<string>)
    ensures RuleSetList(RuleSetValue(tags)) == tags
  {
    StrItemsOfStrs<Key>(ToStrs(tags));
  }

  lemma PlainSetsMeaning(atoms: seq<Literal>, tags: seq<string>, f: Flow)
    requires atoms != [] && PlainSets(atoms) && |tags| == |atoms|
    requires forall i :: 0 <= i < |atoms| ==> tags[i] == atoms[i].atom.tag
    ensures SetRefHolds(RuleSetValue(tags), f) == Clause(AtomSet(atoms), f)
  {
    RuleSetListOfValue(tags);
    if Clause(AtomSet(atoms), f) {
      var l :| l in AtomSet(atoms) && LiteralHolds(l, f);
      var i :| 0 <= i < |atoms| && atoms[i] == l;
      assert tags[i] in tags;
    }
    if tag :| tag in tags && tag in f.sets {
      var i :| 0 <= i < |tags| && tags[i] == tag;
      assert atoms[i] in AtomSet(atoms) && LiteralHolds(atoms[i], f);
    }
  }

  /** A rule whose only member is a rule-set reference. */
  lemma SetRuleMeaning(v: Value, f: Flow)
    ensures Matches(Obj(map[RuleSet := v]), f) == SetRefHolds(v, f)
    ensures !IsLogical(Obj(map[RuleSet := v]))
  {
    var r := Obj(map[RuleSet := v]);
    assert RuleSet in r.fields && !MetaKey(RuleSet) && !IsLogical(r);
  }

  lemma OrRulesMeaning(atoms: seq<Literal>, rules: seq<Value>, f: Flow)
    requires |rules| == |atoms| && forall i :: 0 <= i < |atoms| ==> rules[i] == AtomRule(atoms[i])
    ensures (exists i :: 0 <= i < |rules| && Matches(rules[i], f)) == Clause(AtomSet(atoms), f)
  {
    forall i | 0 <= i < |atoms| ensures Matches(rules[i], f) == LiteralHolds(atoms[i], f) {
      AtomRuleMeaning(atoms[i], f);
    }
    if Clause(AtomSet(atoms), f) {
      var l :| l in AtomSet(atoms) && LiteralHolds(l, f);
      var i :| 0 <= i < |atoms| && atoms[i] == l;
      assert Matches(rules[i], f);
    }
    if i :| 0 <= i < |rules| && Matches(rules[i], f) {
      assert atoms[i] in AtomSet(atoms);
    }
  }

  lemma OrAtomsMeaning(atoms: seq<Literal>, f: Flow)
    requires atoms != []
    ensures Matches(OrAtoms(atoms), f) == Clause(AtomSet(atoms), f)
  {
    if PlainSets(atoms) {
      var tags := seq(|atoms|, i requires 0 <= i < |atoms| => atoms[i].atom.tag);
      PlainSetsMeaning(atoms, tags, f);
      SetRuleMeaning(RuleSetValue(tags), f);
    } else if |atoms| == 1 {
      AtomRuleMeaning(atoms[0], f);
      assert AtomSet(atoms) == {atoms[0]};
    } else {
      var r := OrAtoms(atoms);
      assert IsLogical(r) && IsOr(r) && !Inverted(r);
      OrRulesMeaning(atoms, SubRules(r), f);
    }
  }

  // ---- when the compiled list means what the original one meant

  /** The meaning of what the share path emits for `codes`; nothing emitted
      means no condition. */
  ghost predicate EmittedHolds(kind: GeoKind, codes: seq<string>, f: Flow) {
    KeptLiterals(kind, codes) == {} || Clause(KeptLiterals(kind, codes), f)
  }

  ghost predicate ListHolds(kind: GeoKind, codes: seq<string>, f: Flow) {
    codes == [] || Clause(GeoLiterals(kind, codes), f)
  }

  /** Every condition of the list is emitted, or what is emitted (all flows,
      when nothing is) is what an always-true list already said. */
  predicate GeoListFaithful(kind: GeoKind, codes: seq<string>) {
    var all, kept := GeoLiterals(kind, codes), KeptLiterals(kind, codes);
    if kept == {} then codes == [] || Tautology(all) else kept == all || Tautology(kept)
  }

  lemma GeoListExact(kind: GeoKind, codes: seq<string>)
    ensures (forall f: Flow :: ListHolds(kind, codes, f) == EmittedHolds(kind, codes, f))
            <==> GeoListFaithful(kind, codes)
  {
    var all, kept := GeoLiterals(kind, codes), KeptLiterals(kind, codes);
    assert kept <= all;
    SubClauseExact(all, kept);
    if kept == {} && codes != [] {
      assert CodeLiteral(kind, codes[0]) in all;
      if Tautology(all) {
        forall f: Flow ensures ListHolds(kind, codes, f) { TautologyHolds(all, f); }
      } else {
        FalsifierFalsifies(all);
        assert !ListHolds(kind, codes, Falsifier(all));
      }
    } else if kept != {} {
      assert codes != [];
      assert forall f: Flow :: ListHolds(kind, codes, f) == Clause(all, f);
      assert forall f: Flow :: EmittedHolds(kind, codes, f) == Clause(kept, f);
    }
  }

  /** What is emitted is no wider (`up`), or no narrower, than the list: something
      is left of it, or nothing is, or it is kept as it was. */
  predicate GeoListBounded(kind: GeoKind, codes: seq<string>, up: bool) {
    GeoListFaithful(kind, codes) || (KeptLiterals(kind, codes) != {} <==> up)
  }

  /** `copy` is no wider (`up`), or no narrower, than `original`. */
  predicate Within(copy: bool, original: bool, up: bool) {
    if up then copy ==> original else original ==> copy
  }

  lemma GeoListWithin(kind: GeoKind, codes: seq<string>, up: bool, f: Flow)
    requires GeoListBounded(kind, codes, up)
    ensures Within(EmittedHolds(kind, codes, f), ListHolds(kind, codes, f), up)
  {
    var all, kept := GeoLiterals(kind, codes), KeptLiterals(kind, codes);
    if GeoListFaithful(kind, codes) {
      GeoListExact(kind, codes);
      assert ListHolds(kind, codes, f) == EmittedHolds(kind, codes, f);
    } else if up && Clause(kept, f) {
      assert kept <= all;
      var l :| l in kept && LiteralHolds(l, f);
      assert l in all && Clause(all, f);
    }
  }

  /** The bound holds of every flow in exactly those cases. */
  lemma GeoListBoundedExact(kind: GeoKind, codes: seq<string>, up: bool)
    ensures (forall f: Flow :: Within(EmittedHolds(kind, codes, f), ListHolds(kind, codes, f), up))
            <==> GeoListBounded(kind, codes, up)
  {
    if GeoListBounded(kind, codes, up) {
      forall f: Flow ensures Within(EmittedHolds(kind, codes, f), ListHolds(kind, codes, f), up) {
        GeoListWithin(kind, codes, up, f);
      }
    } else {
      GeoListExact(kind, codes);
      assert GeoListBounded(kind, codes, !up);
      forall f: Flow ensures Within(EmittedHolds(kind, codes, f), ListHolds(kind, codes, f), !up) {
        GeoListWithin(kind, codes, !up, f);
      }
      var f: Flow :| ListHolds(kind, codes, f) != EmittedHolds(kind, codes, f);
      assert !Within(EmittedHolds(kind, codes, f), ListHolds(kind, codes, f), up);
    }
  }

  /** What a reader would check first: valid codes and no `private` beside
      `!private`. */
  lemma PlainListsAreFaithful(kind: GeoKind, codes: seq<string>)
    requires forall code :: code in codes ==> ValidCode(kind, code)
    requires !(Literal(PrivateAddress, false) in GeoLiterals(kind, codes) &&
      Literal(PrivateAddress, true) in GeoLiterals(kind, codes))
    ensures GeoListFaithful(kind, codes)
  {
    assert ValidLiterals(kind, codes) == GeoLiterals(kind, codes);
    assert KeptLiterals(kind, codes) == GeoLiterals(kind, codes);
    if codes != [] { assert CodeLiteral(kind, codes[0]) in GeoLiterals(kind, codes); }
  }

  /** `["private", "!private"]` matches every flow; the copy matches only
      private ones. */
  lemma PrivatePairNarrows()
    ensures !GeoListFaithful(GeoIp, ["private", "!private"])
    ensures exists f: Flow ::
      ListHolds(GeoIp, ["private", "!private"], f) && !EmittedHolds(GeoIp, ["private", "!private"], f)
  {
    var codes := ["private", "!private"];
    assert BareCode("!private") == "private" && BareCode("private") == "private";
    var plain, neg := Literal(PrivateAddress, false), Literal(PrivateAddress, true);
    assert CodeLiteral(GeoIp, codes[0]) == plain && CodeLiteral(GeoIp, codes[1]) == neg;
    assert plain in GeoLiterals(GeoIp, codes) && neg in GeoLiterals(GeoIp, codes);
    assert GeoLiterals(GeoIp, codes) == {plain, neg};
    assert ValidCode(GeoIp, codes[0]) && ValidCode(GeoIp, codes[1]);
    assert plain in ValidLiterals(GeoIp, codes) && neg in ValidLiterals(GeoIp, codes);
    assert KeptLiterals(GeoIp, codes) == {plain};
    var f := Flow(iset{}, false, "", iset{});
    assert LiteralHolds(neg, f) && !LiteralHolds(plain, f);
    assert ListHolds(GeoIp, codes, f);
    assert !Clause({plain}, f);
  }

  /** A list whose only code is invalid disappears, so the rule widens. */
  lemma InvalidCodeWidens()
    ensures !GeoListFaithful(GeoSite, ["a.b"])
    ensures exists f: Flow :: !ListHolds(GeoSite, ["a.b"], f) && EmittedHolds(GeoSite, ["a.b"], f)
  {
    var codes := ["a.b"];
    assert BareCode(codes[0]) == "a.b" && !CodeCharOk("a.b", 1);
    assert !ValidCode(GeoSite, codes[0]);
    assert KeptLiterals(GeoSite, codes) == {};
    var l := CodeLiteral(GeoSite, codes[0]);
    assert GeoLiterals(GeoSite, codes) == {l} && !l.negated;
    FalsifierFalsifies({l});
    assert !ListHolds(GeoSite, codes, Falsifier({l}));
  }
}
