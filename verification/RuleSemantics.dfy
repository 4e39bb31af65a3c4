/** What a route or DNS rule means: the set of flows it matches.

    List values are alternatives, the fields of one rule must all hold, `invert`
    negates the whole rule, and an empty list places no condition. */
module RuleSemantics {
  import opened JsonValue
  import opened RuleKeys

  /** One connection or query, as far as a rule can tell. `holds` answers every
      matcher this model leaves uninterpreted. */
  datatype Flow = Flow(
    sets: iset<string>,
    isPrivate: bool,
    mode: string,
    holds: iset<(Key, Value)>)

  /** A country or category condition after its code has been read. */
  datatype Atom = PrivateAddress | InSet(tag: string)
  datatype Literal = Literal(atom: Atom, negated: bool)

  ghost predicate LiteralHolds(l: Literal, f: Flow) {
    l.negated != (if l.atom.PrivateAddress? then f.isPrivate else l.atom.tag in f.sets)
  }

  ghost predicate Clause(ls: set<Literal>, f: Flow) {
    exists l :: l in ls && LiteralHolds(l, f)
  }

  datatype GeoKind = GeoIp | GeoSite

  function KindKey(kind: GeoKind): Key {
    if kind == GeoIp then Geoip else Geosite
  }

  function KindName(kind: GeoKind): string {
    if kind == GeoIp then "geoip" else "geosite"
  }

  function GeoCodes(v: Value): seq<string> {
    match v
    case Str(code) => [Lower(Trim(code))]
    case Arr(items) => NonEmptyCodes(StrItems(items))
    case _ => []
  }

  function NonEmptyCodes(codes: seq<string>): seq<string> {
    if codes == [] then []
    else
      var code := Lower(Trim(codes[0]));
      if code == "" then NonEmptyCodes(codes[1..]) else [code] + NonEmptyCodes(codes[1..])
  }

  predicate IsNegatedCode(code: string) {
    code != "" && code[0] == '!'
  }

  function BareCode(code: string): string {
    if IsNegatedCode(code) then code[1..] else code
  }

  predicate NamesPrivate(kind: GeoKind, bare: string) {
    kind == GeoIp && (bare == "private" || bare == "lan")
  }

  function GeoTag(kind: GeoKind, code: string): string {
    KindName(kind) + "-" + code
  }

  function CodeLiteral(kind: GeoKind, code: string): Literal {
    var bare := BareCode(code);
    Literal(if NamesPrivate(kind, bare) then PrivateAddress else InSet(GeoTag(kind, bare)), IsNegatedCode(code))
  }

  function GeoLiterals(kind: GeoKind, codes: seq<string>): set<Literal> {
    set code | code in codes :: CodeLiteral(kind, code)
  }

  ghost predicate GeoHolds(kind: GeoKind, v: Value, f: Flow) {
    GeoCodes(v) == [] || Clause(GeoLiterals(kind, GeoCodes(v)), f)
  }

  function RuleSetList(v: Value): seq<string> {
    match v
    case Str(tag) => [tag]
    case Arr(items) => StrItems(items)
    case _ => []
  }

  ghost predicate SetRefHolds(v: Value, f: Flow) {
    RuleSetList(v) == [] || exists tag :: tag in RuleSetList(v) && tag in f.sets
  }

  ghost predicate FieldHolds(key: Key, v: Value, f: Flow) {
    match key
    case RuleSet => SetRefHolds(v, f)
    case Geoip => GeoHolds(GeoIp, v, f)
    case Geosite => GeoHolds(GeoSite, v, f)
    case _ =>
      if key == IpIsPrivate && v == Bool(true) then f.isPrivate
      else if key == ClashMode && v.Str? then Lower(v.s) == Lower(f.mode)
      else (key, v) in f.holds
  }

  ghost predicate FieldsHold(m: map<Key, Value>, f: Flow) {
    forall k :: k in m && !MetaKey(k) ==> FieldHolds(k, m[k], f)
  }

  predicate IsLogical(r: Value) {
    GetStr(r, Type) == Some("logical")
  }

  predicate IsOr(r: Value) {
    GetStr(r, Mode) == Some("or")
  }

  predicate Inverted(r: Value) {
    Flag(r, Invert)
  }

  function SubRules(r: Value): (rules: seq<Value>)
    ensures forall i :: 0 <= i < |rules| ==> rules[i] < r
  {
    if GetArr(r, Rules).Some? then GetArr(r, Rules).value else []
  }

  ghost predicate Matches(r: Value, f: Flow)
    decreases r
  {
    r.Obj? &&
    Inverted(r) != (
      if !IsLogical(r) then FieldsHold(r.fields, f)
      else if IsOr(r) then exists i :: 0 <= i < |SubRules(r)| && Matches(SubRules(r)[i], f)
      else forall i :: 0 <= i < |SubRules(r)| ==> Matches(SubRules(r)[i], f))
  }

  /** What a rule does once it matches. */
  function RuleAction(r: Value): map<Key, Value> {
    if r.Obj? then r.fields - (set k | k in r.fields && (!MetaKey(k) || k == Invert)) else map[]
  }

  // ---- clauses as sets of literals

  predicate Tautology(ls: set<Literal>) {
    exists l :: l in ls && Literal(l.atom, !l.negated) in ls
  }

  /** A flow on which no literal of `ls` holds. */
  ghost function Falsifier(ls: set<Literal>): Flow {
    Flow(
      iset l | l in ls && l.negated && l.atom.InSet? :: l.atom.tag,
      Literal(PrivateAddress, true) in ls,
      "",
      iset{})
  }

  lemma FalsifierFalsifies(ls: set<Literal>)
    requires !Tautology(ls)
    ensures !Clause(ls, Falsifier(ls))
  {
    var f := Falsifier(ls);
    forall l | l in ls
      ensures !LiteralHolds(l, f)
    {
      assert Literal(l.atom, !l.negated) !in ls;
      if l.atom.InSet? && l.negated {
        assert l.atom.tag in f.sets;
      }
    }
  }

  lemma TautologyHolds(ls: set<Literal>, f: Flow)
    requires Tautology(ls)
    ensures Clause(ls, f)
  {
    var l :| l in ls && Literal(l.atom, !l.negated) in ls;
    assert LiteralHolds(l, f) || LiteralHolds(Literal(l.atom, !l.negated), f);
  }

  /** Dropping literals from a non-empty clause is invisible exactly when
      nothing was dropped or what is left is always true. */
  lemma SubClauseExact(ls: set<Literal>, kept: set<Literal>)
    requires kept <= ls
    ensures (forall f: Flow :: Clause(ls, f) == Clause(kept, f)) <==> (kept == ls || Tautology(kept))
  {
    if Tautology(kept) {
      forall f: Flow ensures Clause(ls, f) == Clause(kept, f) {
        TautologyHolds(kept, f);
        var l :| l in kept && LiteralHolds(l, f);
        assert l in ls;
      }
    } else if kept != ls {
      var l :| l in ls && l !in kept;
      var dual := Literal(l.atom, !l.negated);
      if dual in kept {
        FalsifierFalsifies(kept);
        TautologyHolds(ls, Falsifier(kept));
      } else {
        var all := kept + {dual};
        FalsifierFalsifies(all);
        var f := Falsifier(all);
        assert dual in all && !LiteralHolds(dual, f);
        assert Clause(ls, f) && !Clause(kept, f);
      }
    }
  }

  /** Two clauses, one of which can fail, mean the same only when they have the
      same literals. */
  lemma ClauseUnique(ls: set<Literal>, other: set<Literal>)
    requires !Tautology(other)
    ensures (forall f: Flow :: Clause(ls, f) == Clause(other, f)) <==> ls == other
  {
    if l :| l in ls && l !in other {
      var all := other + {Literal(l.atom, !l.negated)};
      FalsifierFalsifies(all);
      var f := Falsifier(all);
      assert Literal(l.atom, !l.negated) in all && LiteralHolds(l, f);
      assert forall o :: o in other ==> o in all;
      assert Clause(ls, f) && !Clause(other, f);
    } else if ls != other {
      assert !Tautology(ls);
      var l :| l in other && l !in ls;
      var all := ls + {Literal(l.atom, !l.negated)};
      FalsifierFalsifies(all);
      var f := Falsifier(all);
      assert Literal(l.atom, !l.negated) in all && LiteralHolds(l, f);
      assert forall o :: o in ls ==> o in all;
      assert Clause(other, f) && !Clause(ls, f);
    }
  }
}
