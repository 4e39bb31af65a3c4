/** Disabled subscription rules and custom rules, keyed by fingerprints in two
    formats: the current hash and the older canonical text. */
module RuleOverrides {
  import opened RuleKeys

  datatype Fingerprints = Fingerprints(sha: Value -> string, legacy: Value -> string)

  /** No two rules share a fingerprint, and the two formats never meet (a hash
      starts with `sha256:`, canonical JSON text never does). */
  ghost predicate CollisionFree(fp: Fingerprints) {
    && (forall a, b :: fp.sha(a) == fp.sha(b) ==> a == b)
    && (forall a, b :: fp.legacy(a) == fp.legacy(b) ==> a == b)
    && (forall a, b :: fp.sha(a) != fp.legacy(b))
  }

  predicate Listed(disabled: set<string>, rule: Value, fp: Fingerprints) {
    fp.sha(rule) in disabled || fp.legacy(rule) in disabled
  }

  function MigrateOne(disabled: set<string>, rule: Value, fp: Fingerprints): set<string> {
    if fp.legacy(rule) in disabled then disabled - {fp.legacy(rule)} + {fp.sha(rule)} else disabled
  }

  function Migrate(disabled: set<string>, rules: seq<Value>, fp: Fingerprints): set<string>
    decreases rules
  {
    if rules == [] then disabled else Migrate(MigrateOne(disabled, rules[0], fp), rules[1..], fp)
  }

  /** Migration changes the format of the marks, never which rules are marked. */
  lemma {:induction false} MigrationPreserves(disabled: set<string>, rules: seq<Value>, fp: Fingerprints, rule: Value)
    requires CollisionFree(fp)
    ensures Listed(Migrate(disabled, rules, fp), rule, fp) == Listed(disabled, rule, fp)
    decreases rules
  {
    if rules == [] {
    } else {
      MigrationPreserves(MigrateOne(disabled, rules[0], fp), rules[1..], fp, rule);
    }
  }

  lemma {:induction false} MigrationAddsNoLegacy(disabled: set<string>, rules: seq<Value>, fp: Fingerprints,
      rule: Value)
    requires CollisionFree(fp) && fp.legacy(rule) !in disabled
    ensures fp.legacy(rule) !in Migrate(disabled, rules, fp)
    decreases rules
  {
    if rules == [] {
    } else {
      MigrationAddsNoLegacy(MigrateOne(disabled, rules[0], fp), rules[1..], fp, rule);
    }
  }

  /** Every rule that was passed is left without a text mark. */
  lemma {:induction false} MigrationCompletes(disabled: set<string>, rules: seq<Value>, fp: Fingerprints, i: nat)
    requires CollisionFree(fp) && i < |rules|
    ensures fp.legacy(rules[i]) !in Migrate(disabled, rules, fp)
    decreases rules
  {
    var next := MigrateOne(disabled, rules[0], fp);
    if i == 0 { MigrationAddsNoLegacy(next, rules[1..], fp, rules[0]); }
    else { MigrationCompletes(next, rules[1..], fp, i - 1); }
  }

  lemma {:induction false} MigrationOfMigrated(disabled: set<string>, rules: seq<Value>, fp: Fingerprints)
    requires forall i :: 0 <= i < |rules| ==> fp.legacy(rules[i]) !in disabled
    ensures Migrate(disabled, rules, fp) == disabled
    decreases rules
  {
    if rules == [] {
    } else {
      MigrationOfMigrated(disabled, rules[1..], fp);
    }
  }

  lemma MigrationIdempotent(disabled: set<string>, rules: seq<Value>, fp: Fingerprints)
    requires CollisionFree(fp)
    ensures Migrate(Migrate(disabled, rules, fp), rules, fp) == Migrate(disabled, rules, fp)
  {
    forall i | 0 <= i < |rules| ensures fp.legacy(rules[i]) !in Migrate(disabled, rules, fp) {
      MigrationCompletes(disabled, rules, fp, i);
    }
    MigrationOfMigrated(Migrate(disabled, rules, fp), rules, fp);
  }

  // ---- cleaning up marks on custom rules

  function Unlisted(disabled: set<string>, rules: seq<Value>, fp: Fingerprints): (r: seq<Value>)
    ensures forall v :: v in r <==> v in rules && !Listed(disabled, v, fp)
  {
    if rules == [] then []
    else if Listed(disabled, rules[0], fp) then Unlisted(disabled, rules[1..], fp)
    else [rules[0]] + Unlisted(disabled, rules[1..], fp)
  }

  lemma Tail(a: seq<Value>, b: seq<Value>)
    requires a != []
    ensures (a + b)[0] == a[0] && (a + b)[1..] == a[1..] + b
  {}

  lemma {:induction false} UnlistedConcat(disabled: set<string>, a: seq<Value>, b: seq<Value>, fp: Fingerprints)
    ensures Unlisted(disabled, a + b, fp) == Unlisted(disabled, a, fp) + Unlisted(disabled, b, fp)
  {
    if a == [] {
      assert a + b == b;
    } else {
      Tail(a, b);
      UnlistedConcat(disabled, a[1..], b, fp);
    }
  }

  /** The rules a cleanup keeps stay in order, each as often as before. */
  lemma UnlistedInOrder(disabled: set<string>, a: seq<Value>, b: seq<Value>, rule: Value, fp: Fingerprints)
    ensures Unlisted(disabled, a + b, fp) == Unlisted(disabled, a, fp) + Unlisted(disabled, b, fp)
    ensures Unlisted(disabled, [rule], fp) ==
      if fp.sha(rule) in disabled || fp.legacy(rule) in disabled then [] else [rule]
  {
    assert [rule][1..] == [];
    UnlistedConcat(disabled, a, b, fp);
  }

  function MarksOf(rules: seq<Value>, fp: Fingerprints): set<string> {
    (set i | 0 <= i < |rules| :: fp.sha(rules[i])) + (set i | 0 <= i < |rules| :: fp.legacy(rules[i]))
  }

  function ListedRules(disabled: set<string>, rules: seq<Value>, fp: Fingerprints): (r: seq<Value>)
    ensures forall v :: v in r <==> v in rules && Listed(disabled, v, fp)
  {
    if rules == [] then []
    else if Listed(disabled, rules[0], fp) then [rules[0]] + ListedRules(disabled, rules[1..], fp)
    else ListedRules(disabled, rules[1..], fp)
  }

  function CleanDisabled(disabled: set<string>, custom: seq<Value>, fp: Fingerprints): set<string> {
    disabled - MarksOf(ListedRules(disabled, custom, fp), fp)
  }

  lemma InMarks(rules: seq<Value>, rule: Value, fp: Fingerprints)
    requires rule in rules
    ensures fp.sha(rule) in MarksOf(rules, fp) && fp.legacy(rule) in MarksOf(rules, fp)
  {
    var i :| 0 <= i < |rules| && rules[i] == rule;
    assert fp.sha(rules[i]) in MarksOf(rules, fp) && fp.legacy(rules[i]) in MarksOf(rules, fp);
  }

  /** After the cleanup no custom rule is marked, no mark of a removed rule is
      left, and every other rule is marked as before. */
  lemma CleanupExact(disabled: set<string>, custom: seq<Value>, fp: Fingerprints, rule: Value)
    requires CollisionFree(fp)
    ensures var disabled' := CleanDisabled(disabled, custom, fp);
      && (rule in Unlisted(disabled, custom, fp) ==> !Listed(disabled', rule, fp))
      && (Listed(disabled', rule, fp) <==> Listed(disabled, rule, fp) && rule !in custom)
  {
    var gone := ListedRules(disabled, custom, fp);
    if rule in gone { InMarks(gone, rule, fp); }
    if fp.sha(rule) in MarksOf(gone, fp) {
      var i :| 0 <= i < |gone| && (fp.sha(rule) == fp.sha(gone[i]) || fp.sha(rule) == fp.legacy(gone[i]));
      assert gone[i] == rule;
    }
    if fp.legacy(rule) in MarksOf(gone, fp) {
      var i :| 0 <= i < |gone| && (fp.legacy(rule) == fp.sha(gone[i]) || fp.legacy(rule) == fp.legacy(gone[i]));
      assert gone[i] == rule;
    }
  }

  lemma {:induction false} NothingListed(disabled: set<string>, rules: seq<Value>, fp: Fingerprints)
    requires forall v :: v in rules ==> !Listed(disabled, v, fp)
    ensures Unlisted(disabled, rules, fp) == rules && ListedRules(disabled, rules, fp) == []
  {
    if rules == [] {
    } else {
      NothingListed(disabled, rules[1..], fp);
    }
  }

  lemma CleanupIdempotent(disabled: set<string>, custom: seq<Value>, fp: Fingerprints)
    requires CollisionFree(fp)
    ensures var disabled', custom' := CleanDisabled(disabled, custom, fp), Unlisted(disabled, custom, fp);
      CleanDisabled(disabled', custom', fp) == disabled' && Unlisted(disabled', custom', fp) == custom'
  {
    var disabled', custom' := CleanDisabled(disabled, custom, fp), Unlisted(disabled, custom, fp);
    forall v | v in custom' ensures !Listed(disabled', v, fp) { CleanupExact(disabled, custom, fp, v); }
    NothingListed(disabled', custom', fp);
    assert MarksOf([], fp) == {};
  }

  // ---- deleting a custom rule

  predicate MatchesFingerprint(rule: Value, fingerprint: string, fp: Fingerprints) {
    fp.sha(rule) == fingerprint || fp.legacy(rule) == fingerprint
  }

  function NotMatching(rules: seq<Value>, fingerprint: string, fp: Fingerprints): (r: seq<Value>)
    ensures forall v :: v in r <==> v in rules && !MatchesFingerprint(v, fingerprint, fp)
  {
    if rules == [] then []
    else if MatchesFingerprint(rules[0], fingerprint, fp) then NotMatching(rules[1..], fingerprint, fp)
    else [rules[0]] + NotMatching(rules[1..], fingerprint, fp)
  }

  lemma {:induction false} RemainingConcat(a: seq<Value>, b: seq<Value>, fingerprint: string, fp: Fingerprints)
    ensures NotMatching(a + b, fingerprint, fp) == NotMatching(a, fingerprint, fp) + NotMatching(b, fingerprint, fp)
  {
    if a == [] {
      assert a + b == b;
    } else {
      Tail(a, b);
      RemainingConcat(a[1..], b, fingerprint, fp);
    }
  }

  /** The rules that remain keep their order and number: what remains of two lists
      in a row is what remains of each, and a single rule remains or not. */
  lemma RemainingInOrder(a: seq<Value>, b: seq<Value>, rule: Value, fingerprint: string, fp: Fingerprints)
    ensures NotMatching(a + b, fingerprint, fp) == NotMatching(a, fingerprint, fp) + NotMatching(b, fingerprint, fp)
    ensures NotMatching([rule], fingerprint, fp) ==
      if fp.sha(rule) == fingerprint || fp.legacy(rule) == fingerprint then [] else [rule]
  {
    assert [rule][1..] == [];
    RemainingConcat(a, b, fingerprint, fp);
  }

  /** The marks after every rule of `rules` with this fingerprint is gone. */
  function Unmark(disabled: set<string>, rules: seq<Value>, fingerprint: string, fp: Fingerprints): set<string>
    decreases rules
  {
    if rules == [] then disabled - {fingerprint}
    else Unmark(if MatchesFingerprint(rules[0], fingerprint, fp)
      then disabled - {fp.sha(rules[0]), fp.legacy(rules[0])} else disabled,
                rules[1..], fingerprint, fp)
  }

  /** Deleting by fingerprint, in either format, removes exactly the rule it was
      taken from, with its marks, and leaves every other mark alone. */
  lemma {:induction false} DeletionExact(disabled: set<string>, custom: seq<Value>, rule: Value, legacy: bool,
      fp: Fingerprints, other: Value)
    requires CollisionFree(fp)
    ensures var fingerprint := if legacy then fp.legacy(rule) else fp.sha(rule);
      && (other in NotMatching(custom, fingerprint, fp) <==> other in custom && other != rule)
      && (other != rule ==> Listed(Unmark(disabled, custom, fingerprint, fp), other, fp) == Listed(disabled, other, fp))
      && (rule in custom ==> !Listed(Unmark(disabled, custom, fingerprint, fp), rule, fp))
    decreases custom
  {
    var fingerprint := if legacy then fp.legacy(rule) else fp.sha(rule);
    if custom == [] {
    } else {
      var first := custom[0];
      assert MatchesFingerprint(first, fingerprint, fp) <==> first == rule;
      var next := if first == rule then disabled - {fp.sha(first), fp.legacy(first)} else disabled;
      DeletionExact(next, custom[1..], rule, legacy, fp, other);
      if first == rule { UnmarkShrinks(next, custom[1..], fingerprint, fp); }
    }
  }

  lemma {:induction false} UnmarkShrinks(disabled: set<string>, rules: seq<Value>, fingerprint: string,
      fp: Fingerprints)
    ensures Unmark(disabled, rules, fingerprint, fp) <= disabled
    decreases rules
  {
    if rules == [] {
    } else {
      UnmarkShrinks(if MatchesFingerprint(rules[0], fingerprint, fp)
        then disabled - {fp.sha(rules[0]), fp.legacy(rules[0])} else disabled,
                    rules[1..], fingerprint, fp);
    }
  }

  /** What deleting from `todo` makes of the rules kept and marks left so far. */
  ghost function Deleted(kept: seq<Value>, disabled: set<string>, todo: seq<Value>, fingerprint: string,
      fp: Fingerprints): (seq<Value>, set<string>)
  {
    (kept + NotMatching(todo, fingerprint, fp), Unmark(disabled, todo, fingerprint, fp))
  }

  lemma DeleteStep(kept: seq<Value>, disabled: set<string>, todo: seq<Value>, fingerprint: string, fp: Fingerprints)
    requires todo != []
    ensures Deleted(kept, disabled, todo, fingerprint, fp) ==
      if MatchesFingerprint(todo[0], fingerprint, fp)
      then Deleted(kept, disabled - {fp.sha(todo[0]), fp.legacy(todo[0])}, todo[1..], fingerprint, fp)
      else Deleted(kept + [todo[0]], disabled, todo[1..], fingerprint, fp)
  {
    var rest := NotMatching(todo[1..], fingerprint, fp);
    assert kept + ([todo[0]] + rest) == (kept + [todo[0]]) + rest;
  }

  lemma DeleteEnds(kept: seq<Value>, disabled: set<string>, fingerprint: string, fp: Fingerprints)
    ensures Deleted(kept, disabled, [], fingerprint, fp) == (kept, disabled - {fingerprint})
  {
    assert kept + NotMatching([], fingerprint, fp) == kept;
  }

  lemma DeleteStarts(disabled: set<string>, rules: seq<Value>, fingerprint: string, fp: Fingerprints)
    ensures Deleted([], disabled, rules, fingerprint, fp) ==
      (NotMatching(rules, fingerprint, fp), Unmark(disabled, rules, fingerprint, fp))
  {
    assert [] + NotMatching(rules, fingerprint, fp) == NotMatching(rules, fingerprint, fp);
  }

  class Overrides {
    var disabled: set<string>
    var custom: seq<Value>
    const fp: Fingerprints

    constructor (disabled: set<string>, custom: seq<Value>, fp: Fingerprints)
      ensures this.disabled == disabled && this.custom == custom && this.fp == fp
    {
      this.disabled, this.custom, this.fp := disabled, custom, fp;
    }

    predicate IsRuleDisabled(rule: Value)
      reads this`disabled
    {
      Listed(disabled, rule, fp)
    }

    method SetRuleDisabled(rule: Value, off: bool)
      requires CollisionFree(fp)
      modifies this`disabled
      ensures IsRuleDisabled(rule) == off && fp.legacy(rule) !in disabled
      ensures forall other :: other != rule ==> Listed(disabled, other, fp) == Listed(old(disabled), other, fp)
    {
      disabled := if off then disabled + {fp.sha(rule)} - {fp.legacy(rule)}
        else disabled - {fp.sha(rule)} - {fp.legacy(rule)};
    }

    method MigrateLegacyFingerprints(rules: seq<Value>) returns (changed: bool)
      requires CollisionFree(fp)
      modifies this`disabled
      ensures disabled == Migrate(old(disabled), rules, fp)
      ensures changed <==> exists i :: 0 <= i < |rules| && fp.legacy(rules[i]) in old(disabled)
    {
      changed := false;
      var i := 0;
      assert rules[0..] == rules;
      while i < |rules|
        invariant i <= |rules|
        invariant Migrate(disabled, rules[i..], fp) == Migrate(old(disabled), rules, fp)
        invariant changed <==> exists j :: 0 <= j < i && fp.legacy(rules[j]) in old(disabled)
        invariant forall r :: fp.legacy(r) in disabled ==> fp.legacy(r) in old(disabled)
        invariant forall r :: fp.legacy(r) in old(disabled) && fp.legacy(r) !in disabled ==> r in rules[..i]
      {
        assert rules[i..][0] == rules[i] && rules[i..][1..] == rules[i + 1..] &&
          rules[..i + 1] == rules[..i] + [rules[i]];
        var legacy := fp.legacy(rules[i]);
        if legacy in disabled {
          disabled := disabled - {legacy} + {fp.sha(rules[i])};
          changed := true;
        }
        i := i + 1;
      }
      assert rules[i..] == [];
    }

    method RemoveCustom(fingerprint: string)
      modifies this`disabled, this`custom
      ensures custom == NotMatching(old(custom), fingerprint, fp)
      ensures disabled == Unmark(old(disabled), old(custom), fingerprint, fp)
    {
      var kept, todo := [], custom;
      DeleteStarts(disabled, custom, fingerprint, fp);
      while todo != []
        invariant custom == old(custom)
        invariant Deleted(kept, disabled, todo, fingerprint, fp)
               == (NotMatching(custom, fingerprint, fp), Unmark(old(disabled), custom, fingerprint, fp))
        decreases |todo|
      {
        DeleteStep(kept, disabled, todo, fingerprint, fp);
        if MatchesFingerprint(todo[0], fingerprint, fp) {
          disabled := disabled - {fp.sha(todo[0]), fp.legacy(todo[0])};
        } else {
          kept := kept + [todo[0]];
        }
        todo := todo[1..];
      }
      DeleteEnds(kept, disabled, fingerprint, fp);
      disabled := disabled - {fingerprint};
      custom := kept;
    }

    method RemoveLegacyDisabledCustomRules() returns (changed: bool)
      modifies this`disabled, this`custom
      ensures custom == Unlisted(old(disabled), old(custom), fp)
      ensures disabled == CleanDisabled(old(disabled), old(custom), fp)
      ensures changed <==> ListedRules(old(disabled), old(custom), fp) != []
    {
      var gone := ListedRules(disabled, custom, fp);
      custom := Unlisted(disabled, custom, fp);
      assert MarksOf([], fp) == {};
      if gone == [] { return false; }
      disabled := disabled - MarksOf(gone, fp);
      return true;
    }
  }
}
