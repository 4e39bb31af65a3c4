/** How a rule list decides: the first matching rule that ends the search. */
module FirstMatch {
  import opened JsonValue
  import opened RuleKeys
  import opened RuleSemantics

  datatype Decision = By(action: map<Key, Value>) | Default(outbound: string)

  /** Actions after which matching goes on. */
  predicate NonTerminal(rule: Value) {
    GetStr(rule, Action) == Some("sniff") || GetStr(rule, Action) == Some("resolve") ||
      GetStr(rule, Action) == Some("route-options")
  }

  ghost predicate Decides(rule: Value, f: Flow) {
    !NonTerminal(rule) && Matches(rule, f)
  }

  /** The first matching terminal rule wins. */
  ghost function Evaluate(rules: seq<Value>, final: string, f: Flow): Decision {
    if rules == [] then Decision.Default(final)
    else if Decides(rules[0], f) then By(RuleAction(rules[0]))
    else Evaluate(rules[1..], final, f)
  }

  ghost predicate Undecided(rules: seq<Value>, f: Flow) {
    forall i :: 0 <= i < |rules| ==> !Decides(rules[i], f)
  }

  ghost predicate DecidesFirst(rules: seq<Value>, i: nat, f: Flow) {
    i < |rules| && Decides(rules[i], f) && forall j :: 0 <= j < i ==> !Decides(rules[j], f)
  }

  /** No earlier rule decides `f`. */
  ghost predicate Reached(rules: seq<Value>, i: nat, f: Flow) {
    i < |rules| && forall j :: 0 <= j < i ==> !Decides(rules[j], f)
  }

  lemma ReachedLater(rules: seq<Value>, i: nat, f: Flow)
    requires rules != [] && !Decides(rules[0], f) && Reached(rules[1..], i, f)
    ensures Reached(rules, i + 1, f) && rules[i + 1] == rules[1..][i]
  {
    forall j | 0 <= j < i + 1 ensures !Decides(rules[j], f) {
      if j > 0 { assert rules[j] == rules[1..][j - 1]; }
    }
  }

  lemma EvaluateCons(rule: Value, rules: seq<Value>, final: string, f: Flow)
    ensures Evaluate([rule] + rules, final, f) == if Decides(rule, f) then By(RuleAction(rule))
      else Evaluate(rules, final, f)
  {
    assert ([rule] + rules)[1..] == rules;
  }

  lemma EvaluateTwo(a: Value, b: Value, rules: seq<Value>, final: string, f: Flow)
    ensures Evaluate([a, b] + rules, final, f) ==
      if Decides(a, f) then By(RuleAction(a)) else if Decides(b, f) then By(RuleAction(b))
        else Evaluate(rules, final, f)
  {
    assert [a, b] + rules == [a] + ([b] + rules);
    EvaluateCons(a, [b] + rules, final, f);
    EvaluateCons(b, rules, final, f);
  }

  lemma {:induction false} EvaluateSkips(before: seq<Value>, rules: seq<Value>, final: string, f: Flow)
    requires Undecided(before, f)
    ensures Evaluate(before + rules, final, f) == Evaluate(rules, final, f)
  {
    if before == [] {
      assert before + rules == rules;
    } else {
      assert before + rules == [before[0]] + (before[1..] + rules);
      EvaluateCons(before[0], before[1..] + rules, final, f);
      EvaluateSkips(before[1..], rules, final, f);
    }
  }

  lemma SplitFirst<T>(a: seq<T>, b: seq<T>)
    requires a != []
    ensures a == [a[0]] + a[1..] && a + b == [a[0]] + (a[1..] + b)
  {}

  lemma DecidedLater(rules: seq<Value>, f: Flow)
    requires !Undecided(rules, f) && !Decides(rules[0], f)
    ensures !Undecided(rules[1..], f)
  {
    var i :| 0 <= i < |rules| && Decides(rules[i], f);
    assert rules[1..][i - 1] == rules[i];
  }

  lemma {:induction false} EvaluateDecided(before: seq<Value>, rules: seq<Value>, final: string, f: Flow)
    requires !Undecided(before, f)
    ensures Evaluate(before + rules, final, f) == Evaluate(before, final, f)
  {
    var first, tail := before[0], before[1..];
    SplitFirst(before, rules);
    EvaluateCons(first, tail + rules, final, f);
    EvaluateCons(first, tail, final, f);
    if !Decides(first, f) {
      DecidedLater(before, f);
      EvaluateDecided(tail, rules, final, f);
    }
  }

  // ---- lists whose rules were rewritten or dropped

  lemma SameTerminal(a: Value, b: Value)
    requires RuleAction(a) == RuleAction(b)
    ensures NonTerminal(a) == NonTerminal(b)
  {
    assert Has(a, Action) == (Action in RuleAction(a)) && Has(b, Action) == (Action in RuleAction(b));
    assert Get(a, Action) == Get(b, Action);
  }

  /** The rules that are left, in order. */
  function Left(results: seq<Option<Value>>): seq<Value> {
    if results == [] then []
    else One(results[0]) + Left(results[1..])
  }

  function One(result: Option<Value>): seq<Value> {
    if result.Some? then [result.value] else []
  }

  lemma LeftCons(result: Option<Value>, rest: seq<Option<Value>>)
    ensures Left([result] + rest) == One(result) + Left(rest)
  {
    assert ([result] + rest)[1..] == rest;
  }

  lemma Associative(x: seq<Value>, y: seq<Value>, z: seq<Value>)
    ensures (x + y) + z == x + (y + z)
  {}

  lemma {:induction false} LeftConcat(a: seq<Option<Value>>, b: seq<Option<Value>>)
    ensures Left(a + b) == Left(a) + Left(b)
  {
    if a == [] {
      assert a + b == b;
    } else {
      var tail := a[1..];
      SplitFirst(a, b);
      LeftCons(a[0], tail);
      LeftCons(a[0], tail + b);
      LeftConcat(tail, b);
      Associative(One(a[0]), Left(tail), Left(b));
    }
  }

  /** For the search, `result` does what `rule` does: it decides `f` when the rule
      does, with the same action, and does not otherwise. */
  ghost predicate Stands(result: Option<Value>, rule: Value, f: Flow) {
    if Decides(rule, f) then
      result.Some? && Decides(result.value, f) && RuleAction(result.value) == RuleAction(rule)
    else result.Some? ==> !Decides(result.value, f)
  }

  /** The same for every rule up to the deciding one. */
  ghost predicate AllStand(results: seq<Option<Value>>, rules: seq<Value>, f: Flow) {
    |results| == |rules| && forall i: nat :: Reached(rules, i, f) ==> Stands(results[i], rules[i], f)
  }

  /** Then the rules that are left decide as the original ones did. */
  lemma {:induction false} StandDecides(results: seq<Option<Value>>, rules: seq<Value>, final: string, f: Flow)
    requires AllStand(results, rules, f)
    ensures Evaluate(Left(results), final, f) == Evaluate(rules, final, f)
  {
    if rules == [] {
    } else {
      var rest := Left(results[1..]);
      assert Reached(rules, 0, f);
      if results[0].Some? {
        EvaluateCons(results[0].value, rest, final, f);
      } else {
        assert [] + rest == rest;
      }
      if !Decides(rules[0], f) {
        forall i: nat | Reached(rules[1..], i, f) ensures Stands(results[1..][i], rules[1..][i], f) {
          ReachedLater(rules, i, f);
        }
        StandDecides(results[1..], rules[1..], final, f);
      }
    }
  }
}
