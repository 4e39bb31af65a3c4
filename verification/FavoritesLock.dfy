/** Concurrent favorite calls: every interleaving of their locked steps leaves
    the file some one-after-another order would leave. */
module FavoritesLock {
  import opened JsonValue
  import opened Favorites

  type Tid = nat

  /** Where one caller is. `view` is the copy it loaded. */
  datatype Stage =
    | Idle
    | Waiting(call: Call)
    | Locked(call: Call)
    | Loaded(call: Call, view: Store)
    | Saved(call: Call)

  /** `done` lists the calls whose save succeeded, in the order they saved. */
  datatype System = System(
    file: Store,
    supported: bool,
    lock: Option<Tid>,
    stages: map<Tid, Stage>,
    done: seq<(Tid, Call)>)

  datatype Action =
    | Begin(t: Tid, call: Call)
    | Acquire(t: Tid)
    | Load(t: Tid, readable: bool)
    | Save(t: Tid, written: bool)
    | Release(t: Tid)

  function StageOf(s: System, t: Tid): Stage {
    if t in s.stages then s.stages[t] else Idle
  }

  function Moved(s: System, t: Tid, stage: Stage): System {
    s.(stages := s.stages[t := stage])
  }

  /** One step; a step that is not enabled changes nothing. A file with an
      unknown version is refused, one that cannot be read passes for empty, and
      a call that changes nothing ends without writing. */
  function Next(s: System, a: Action): System {
    var stage := StageOf(s, a.t);
    match a
    case Begin(t, call) => if stage.Idle? then Moved(s, t, Waiting(call)) else s
    case Acquire(t) => if stage.Waiting? && s.lock == None then Moved(s, t, Locked(stage.call)).(lock := Some(t)) else s
    case Load(t, readable) =>
      if !stage.Locked? then s
      else if !readable then Moved(s, t, Loaded(stage.call, map[]))
      else if s.supported then Moved(s, t, Loaded(stage.call, s.file))
      else Moved(s, t, Saved(stage.call))
    case Save(t, written) =>
      if !stage.Loaded? then s
      else if Apply(stage.view, stage.call) == stage.view then
        Moved(s, t, Saved(stage.call)).(done := s.done + [(t, stage.call)])
      else if written then
        Moved(s, t, Saved(stage.call)).(file := Apply(stage.view, stage.call), supported := true,
          done := s.done + [(t, stage.call)])
      else Moved(s, t, Saved(stage.call))
    case Release(t) => if stage.Saved? then Moved(s, t, Idle).(lock := None) else s
  }

  function Trace(s: System, actions: seq<Action>): System
    decreases |actions|
  {
    if actions == [] then s else Trace(Next(s, actions[0]), actions[1..])
  }

  function Calls(done: seq<(Tid, Call)>): (r: seq<Call>)
    ensures |r| == |done|
  {
    seq(|done|, i requires 0 <= i < |done| => done[i].1)
  }

  predicate Holds(stage: Stage) {
    stage.Locked? || stage.Loaded? || stage.Saved?
  }

  /** Only the lock holder is inside. */
  ghost predicate Exclusive(s: System) {
    forall t: Tid :: Holds(StageOf(s, t)) <==> s.lock == Some(t)
  }

  /** The file is what the finished calls make of the first one. */
  ghost predicate FileSerial(first: Store, s: System) {
    s.file == Run(first, Calls(s.done))
  }

  /** Besides, the copy of the lock holder is current until it writes, and a file
      with an unknown version has no reader. */
  ghost predicate Serial(first: Store, s: System) {
    && Exclusive(s)
    && (forall t: Tid :: StageOf(s, t).Loaded? ==> s.supported && StageOf(s, t).view == s.file)
    && FileSerial(first, s)
  }

  /** The step does not take a file it cannot read for an empty one. */
  predicate Reads(s: System, a: Action) {
    a.Load? && StageOf(s, a.t).Locked? && !a.readable ==> s.supported && s.file == map[]
  }

  lemma RunSnoc(first: Store, done: seq<(Tid, Call)>, one: (Tid, Call))
    ensures Run(first, Calls(done + [one])) == Apply(Run(first, Calls(done)), one.1)
  {
    var all := Calls(done + [one]);
    assert all[..|all| - 1] == Calls(done);
  }

  lemma NextExclusive(s: System, a: Action)
    requires Exclusive(s)
    ensures Exclusive(Next(s, a))
  {
    var s', stage := Next(s, a), StageOf(s, a.t);
    forall t: Tid ensures Holds(StageOf(s', t)) <==> s'.lock == Some(t) {
      assert Holds(StageOf(s, t)) <==> s.lock == Some(t);
      assert Holds(stage) <==> s.lock == Some(a.t);
    }
  }

  /** A call ends that would have left another file, had it seen the real one. */
  predicate Harms(s: System, a: Action) {
    a.Save? && StageOf(s, a.t).Loaded? &&
    var stage := StageOf(s, a.t);
    var edited := Apply(stage.view, stage.call);
    if edited == stage.view then Apply(s.file, stage.call) != s.file
    else a.written && edited != Apply(s.file, stage.call)
  }

  /** Every other step keeps the file serial, and that one never does. */
  lemma NextFileSerial(first: Store, s: System, a: Action)
    requires FileSerial(first, s)
    ensures FileSerial(first, Next(s, a)) <==> !Harms(s, a)
  {
    var stage := StageOf(s, a.t);
    if a.Save? && stage.Loaded? {
      RunSnoc(first, s.done, (a.t, stage.call));
    }
  }

  /** The copies stay current, if and only if the step is no read error of a file
      that is there. */
  lemma NextSerial(first: Store, s: System, a: Action)
    requires Serial(first, s)
    ensures Serial(first, Next(s, a)) <==> Reads(s, a)
  {
    var s', stage := Next(s, a), StageOf(s, a.t);
    NextExclusive(s, a);
    NextFileSerial(first, s, a);
    if Reads(s, a) {
      forall t: Tid ensures StageOf(s', t).Loaded? ==> s'.supported && StageOf(s', t).view == s'.file {
        assert Holds(StageOf(s, t)) <==> s.lock == Some(t);
        assert Holds(stage) <==> s.lock == Some(a.t);
      }
    } else {
      assert StageOf(s', a.t) == Loaded(stage.call, map[]);
    }
  }

  predicate AllRead(s: System, actions: seq<Action>)
    decreases |actions|
  {
    actions != [] ==> Reads(s, actions[0]) && AllRead(Next(s, actions[0]), actions[1..])
  }

  /** Whatever the interleaving, the file is the result of running the finished
      calls one after another, and every list in it is well formed. A file with
      an unknown version is never written. */
  lemma {:induction false} InterleavingsAreSerial(first: Store, s: System, actions: seq<Action>)
    requires Serial(first, s) && Valid(first) && AllRead(s, actions)
    ensures var s' := Trace(s, actions);
      Serial(first, s') && Valid(s'.file) && (!s.supported ==> !s'.supported && s'.file == s.file)
    decreases |actions|
  {
    if actions == [] {
      RunValid(first, Calls(s.done));
    } else {
      NextSerial(first, s, actions[0]);
      InterleavingsAreSerial(first, Next(s, actions[0]), actions[1..]);
    }
  }

  predicate NoneHarms(s: System, actions: seq<Action>)
    decreases |actions|
  {
    actions != [] ==> !Harms(s, actions[0]) && NoneHarms(Next(s, actions[0]), actions[1..])
  }

  ghost predicate FileSerialThroughout(first: Store, s: System, actions: seq<Action>)
    decreases |actions|
  {
    FileSerial(first, s) && (actions != [] ==> FileSerialThroughout(first, Next(s, actions[0]), actions[1..]))
  }

  /** Read errors included, the file stays serial throughout a run, if and only
      if none of its calls ends on a stale copy that matters. */
  lemma {:induction false} RunsAreSerialExactly(first: Store, s: System, actions: seq<Action>)
    requires FileSerial(first, s)
    ensures FileSerialThroughout(first, s, actions) <==> NoneHarms(s, actions)
    decreases |actions|
  {
    if actions == [] {
    } else {
      NextFileSerial(first, s, actions[0]);
      if !Harms(s, actions[0]) { RunsAreSerialExactly(first, Next(s, actions[0]), actions[1..]); }
    }
  }

  /** A read error of a file that is there ends, after one favorite, with that
      one favorite: the rest is overwritten. */
  lemma UnreadableFileIsLost(file: Store, t: Tid, sub: Uuid, tag: string)
    ensures var s := System(file, true, None, map[], []);
      var s' := Trace(s, [Begin(t, Favorite(sub, tag)), Acquire(t), Load(t, false), Save(t, true), Release(t)]);
      s'.file == map[sub := [tag]] && s'.lock == None
  {
    var call := Favorite(sub, tag);
    var s := System(file, true, None, map[], []);
    var s1 := Next(s, Begin(t, call));
    var s2 := Next(s1, Acquire(t));
    var s3 := Next(s2, Load(t, false));
    var s4 := Next(s3, Save(t, true));
    FiveSteps(s, Begin(t, call), Acquire(t), Load(t, false), Save(t, true), Release(t));
    assert MoveToFront([], tag) == [tag];
    assert Apply(map[], call) == map[sub := [tag]];
    assert StageOf(s3, t) == Loaded(call, map[]) && s4.file == map[sub := [tag]];
  }

  lemma TraceCons(s: System, a: Action, rest: seq<Action>)
    ensures Trace(s, [a] + rest) == Trace(Next(s, a), rest)
  {
    assert ([a] + rest)[1..] == rest;
  }

  lemma FiveSteps(s: System, a: Action, b: Action, c: Action, d: Action, e: Action)
    ensures Trace(s, [a, b, c, d, e]) == Next(Next(Next(Next(Next(s, a), b), c), d), e)
  {
    var s2 := Next(Next(s, a), b);
    var s4 := Next(Next(s2, c), d);
    assert [a, b, c, d, e] == [a] + [b, c, d, e] && [b, c, d, e] == [b] + [c, d, e];
    TraceCons(s, a, [b, c, d, e]);
    TraceCons(Next(s, a), b, [c, d, e]);
    assert [c, d, e] == [c] + [d, e] && [d, e] == [d] + [e] && [e] == [e] + [];
    TraceCons(s2, c, [d, e]);
    TraceCons(Next(s2, c), d, [e]);
    TraceCons(s4, e, []);
  }

  // ---- nothing is lost and nothing is made up

  /** The calls of `t` that have saved, in order. */
  function SavedBy(done: seq<(Tid, Call)>, t: Tid): seq<Call> {
    if done == [] then []
    else
      var last := done[|done| - 1];
      SavedBy(done[..|done| - 1], t) + (if last.0 == t then [last.1] else [])
  }

  /** A call is recorded once, at its own save, and by its own caller. */
  lemma SaveRecordsOwnCall(s: System, a: Action, t: Tid)
    ensures SavedBy(Next(s, a).done, t) ==
      SavedBy(s.done, t) + (if a.Save? && a.t == t && StageOf(s, t).Loaded?
                              && (a.written || Apply(StageOf(s, t).view, StageOf(s, t).call) == StageOf(s, t).view)
                            then [StageOf(s, t).call] else [])
  {
    var s' := Next(s, a);
    if s'.done != s.done {
      assert s'.done[..|s'.done| - 1] == s.done;
    }
    assert SavedBy(s.done, t) + [] == SavedBy(s.done, t);
  }
}
