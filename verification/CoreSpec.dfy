/** The lifecycle of the managed sing-box core, as a function of what the
    environment answers during each call. */
module CoreSpec {
  import opened JsonValue

  type Pid = nat

  datatype Status = Stopped | Starting | Running | Stopping | Error

  datatype Failure =
    | InvalidState | NotFound | PortInUse | AdoptRejected | SpawnFailed | HealthcheckFailed | StopFailed
      | ClearPidFailed

  datatype Notice = WritePidNotice | StopFailedNotice | ExitedUnexpectedly | FromError(e: Failure)

  datatype Outcome = Ok | HotReloaded | Restarted | Err(e: Failure)

  /** A core came under the controller while the others in `alive` were running. */
  datatype Event = Spawned(pid: Pid, alive: set<Pid>)

  /** `child`, `host`, `port`, `status`, `message` and `needsRestore` are the
      controller's own fields; `pidFile` is the file it shares with the next
      session, `live` the cores it started or adopted that still run. */
  datatype Core = Core(
    status: Status,
    message: Option<Notice>,
    host: Option<string>,
    port: Option<nat>,
    child: Option<Pid>,
    needsRestore: bool,
    pidFile: Option<Pid>,
    live: set<Pid>,
    log: seq<Event>)

  datatype Paths = Paths(host: string, port: nat)

  /** What one call meets: `died` exited on their own beforehand; the rest
      answers the questions the call asks, in the order it asks them. */
  datatype Env = Env(
    died: set<Pid>,
    binaryPresent: bool,
    portsFree: bool,
    imageMatches: bool,
    signal: bool,
    hotHealth: bool,
    sameProcess: bool,
    firstStop: bool,
    firstClear: bool,
    spawned: Option<Pid>,
    writePid: bool,
    probe: Option<Failure>,
    secondStop: bool,
    secondClear: bool,
    exited: bool,
    pidReadable: bool,
    orphanAlive: bool,
    orphanMatches: bool,
    orphanKilled: bool)

  datatype Op =
    | BeginStart
    | Start(paths: Paths)
    | Adopt(pid: Pid, paths: Paths)
    | Stop
    | Reload(paths: Paths)
    | Reap
    | Reclaim
    | ClearRestore

  const INITIAL := Core(Stopped, None, None, None, None, false, None, {}, [])

  predicate StartAllowed(s: Status) { s == Stopped || s == Error }
  predicate ReloadAllowed(s: Status) { s == Running }

  function ClearInbound(s: Core): Core { s.(host := None, port := None) }

  function Fail(s: Core, m: Notice): Core { ClearInbound(s.(status := Error, message := Some(m))) }

  function ClearPid(s: Core, ok: bool): Core { if ok then s.(pidFile := None) else s }

  /** A pid file never holds zero. */
  predicate PidWritten(pid: Pid, ok: bool) { ok && pid != 0 }

  function KillChild(s: Core, stop: bool, clear: bool): (Core, Option<Failure>) {
    if s.child.Some? && !stop then (s, Some(StopFailed))
    else
      var s1 := if s.child.Some? then s.(child := None, live := s.live - {s.child.value}) else s;
      (ClearPid(s1, clear), if clear then None else Some(ClearPidFailed))
  }

  function SpawnAndProbe(s: Core, env: Env): (Core, Option<Failure>) {
    if env.spawned == None then (s, Some(SpawnFailed))
    else
      var pid := env.spawned.value;
      var s1 := s.(live := s.live + {pid}, log := s.log + [Spawned(pid, s.live)]);
      if !PidWritten(pid, env.writePid) then
        var s2 := if env.secondStop then s1.(live := s1.live - {pid}) else s1;
        (ClearPid(s2, env.secondClear), Some(SpawnFailed))
      else
        Probe(s1.(child := Some(pid), pidFile := Some(pid)), env)
  }

  function Probe(s: Core, env: Env): (Core, Option<Failure>) {
    if env.probe == None then (s, None)
    else (KillChild(s, env.secondStop, env.secondClear).0, env.probe)
  }

  function EnterStarting(s: Core): Core {
    ClearInbound(s.(status := Starting, message := None, needsRestore := false))
  }

  function EnterRunning(s: Core, paths: Paths): Core {
    s.(status := Running, message := None, host := Some(paths.host), port := Some(paths.port))
  }

  function DoStart(s: Core, paths: Paths, env: Env): (Core, Outcome) {
    if !StartAllowed(s.status) then (s, Err(InvalidState))
    else if !env.binaryPresent then (s, Err(NotFound))
    else if !env.portsFree then (s, Err(PortInUse))
    else
      var (s1, failure) := SpawnAndProbe(EnterStarting(s), env);
      if failure.Some? then (Fail(s1, FromError(failure.value)), Err(failure.value))
      else (EnterRunning(s1, paths), Ok)
  }

  function DoAdopt(s: Core, pid: Pid, paths: Paths, env: Env): (Core, Outcome) {
    if !StartAllowed(s.status) then (s, Err(InvalidState))
    else if !env.imageMatches then (s, Err(AdoptRejected))
    else
      var s0 := EnterStarting(s);
      var s1 := s0.(live := s0.live + {pid}, log := s0.log + [Spawned(pid, s0.live - {pid})]);
      if !PidWritten(pid, env.writePid) then (Fail(s1, WritePidNotice), Err(SpawnFailed))
      else
        var (s2, failure) := Probe(s1.(child := Some(pid), pidFile := Some(pid)), env);
        if failure.Some? then (Fail(s2, FromError(failure.value)), Err(failure.value))
        else (EnterRunning(s2, paths), Ok)
  }

  function FinishStop(s: Core, env: Env): (Core, Outcome) {
    var (s1, failure) := KillChild(s.(status := Stopping), env.firstStop, env.firstClear);
    if failure.Some? then (Fail(s1, StopFailedNotice), Err(failure.value))
    else (ClearInbound(s1.(status := Stopped, message := None, needsRestore := false)), Ok)
  }

  function DoStop(s: Core, env: Env): (Core, Outcome) {
    if s.status == Stopping then (s, Ok)
    else if s.status == Stopped && s.child == None then (ClearInbound(ClearPid(s, env.firstClear)), Ok)
    else FinishStop(s, env)
  }

  function DoReload(s: Core, paths: Paths, env: Env): (Core, Outcome) {
    if !ReloadAllowed(s.status) then (s, Err(InvalidState))
    else if s.child.Some? && env.signal && env.hotHealth && env.sameProcess then (s, HotReloaded)
    else RestartInPlace(s, paths, env)
  }

  function RestartInPlace(s: Core, paths: Paths, env: Env): (Core, Outcome) {
    var (s1, failure) := KillChild(s, env.firstStop, env.firstClear);
    if failure.Some? then (Fail(s1, FromError(failure.value)).(needsRestore := true), Err(failure.value))
    else
      var (s2, failure2) := SpawnAndProbe(s1, env);
      if failure2.Some? then (Fail(s2, FromError(failure2.value)).(needsRestore := true), Err(failure2.value))
      else (EnterRunning(s2, paths).(needsRestore := false), Restarted)
  }

  function DoReap(s: Core, env: Env): (Core, Outcome) {
    if s.child == None || !env.exited then (s, Ok)
    else
      var s1 := ClearPid(s.(child := None, live := s.live - {s.child.value}), env.firstClear);
      (if s1.status == Running then Fail(s1, ExitedUnexpectedly) else s1, Ok)
  }

  function DoReclaim(s: Core, env: Env): (Core, Outcome) {
    if !env.pidReadable then (s, Err(SpawnFailed))
    else if s.pidFile == None then (s, Ok)
    else if env.orphanAlive && env.orphanMatches && !env.orphanKilled then (s, Err(SpawnFailed))
    else
      var s1 := if env.orphanAlive && env.orphanMatches then s.(live := s.live - {s.pidFile.value}) else s;
      (ClearInbound(ClearPid(s1, env.firstClear).(child := None, status := Stopped)), Ok)
  }

  function AfterDeaths(s: Core, env: Env): Core {
    s.(live := s.live - env.died)
  }

  /** One public call, after whatever exited by itself is gone. */
  function Step(before: Core, op: Op, env: Env): (Core, Outcome) {
    var s := AfterDeaths(before, env);
    match op
    case BeginStart => if StartAllowed(s.status) then (s.(status := Starting, message := None), Ok)
      else (s, Err(InvalidState))
    case Start(paths) => DoStart(s, paths, env)
    case Adopt(pid, paths) => DoAdopt(s, pid, paths, env)
    case Stop => DoStop(s, env)
    case Reload(paths) => DoReload(s, paths, env)
    case Reap => DoReap(s, env)
    case Reclaim => DoReclaim(s, env)
    case ClearRestore => (s.(needsRestore := false), Ok)
  }

  function Run(s: Core, calls: seq<(Op, Env)>): Core
    decreases |calls|
  {
    if calls == [] then s else Run(Step(s, calls[0].0, calls[0].1).0, calls[1..])
  }

  // ---- what holds between calls, whatever the environment answers

  predicate Consistent(s: Core) {
    && s.status != Stopping
    && s.host.Some? == s.port.Some? == (s.status == Running)
    && (s.status == Running ==> s.child.Some? && s.pidFile == s.child && !s.needsRestore)
    && (s.status == Stopped ==> s.child == None)
    && (s.status == Error ==> s.message.Some?)
  }

  lemma SpawnKeepsFields(s: Core, env: Env)
    ensures var (s', failure) := SpawnAndProbe(s, env);
      && s'.status == s.status && s'.host == s.host && s'.port == s.port && s'.needsRestore == s.needsRestore
      && (failure == None ==> s'.child.Some? && s'.pidFile == s'.child)
  {}

  lemma StartConsistent(s: Core, paths: Paths, env: Env)
    requires Consistent(s)
    ensures Consistent(DoStart(s, paths, env).0)
  {
    SpawnKeepsFields(EnterStarting(s), env);
  }

  lemma ReloadConsistent(s: Core, paths: Paths, env: Env)
    requires Consistent(s)
    ensures Consistent(DoReload(s, paths, env).0)
  {
    SpawnKeepsFields(KillChild(s, env.firstStop, env.firstClear).0, env);
  }

  lemma StepConsistent(s: Core, op: Op, env: Env)
    requires Consistent(s)
    ensures Consistent(Step(s, op, env).0)
  {
    var s0 := AfterDeaths(s, env);
    match op
    case Start(paths) => StartConsistent(s0, paths, env);
    case Reload(paths) => ReloadConsistent(s0, paths, env);
    case _ =>
  }

  lemma {:induction false} RunConsistent(s: Core, calls: seq<(Op, Env)>)
    requires Consistent(s)
    ensures Consistent(Run(s, calls))
    decreases |calls|
  {
    if calls == [] {
    } else {
      StepConsistent(s, calls[0].0, calls[0].1);
      RunConsistent(Step(s, calls[0].0, calls[0].1).0, calls[1..]);
    }
  }

  /** Every state a session can be in. */
  lemma SessionConsistent(calls: seq<(Op, Env)>)
    ensures Consistent(Run(INITIAL, calls))
  {
    RunConsistent(INITIAL, calls);
  }

  // ---- a core that cannot be stopped stays on record

  /** `stop_process` refused: the handle and the pid file stay, the status is
      Error and nothing new was spawned. */
  lemma UnstoppableStaysOnRecord(s: Core, op: Op, env: Env)
    requires Consistent(s) && s.child.Some? && !env.firstStop
    requires op == Stop || (op.Reload? && s.status == Running && !(env.signal && env.hotHealth && env.sameProcess))
    ensures var (s', r) := Step(s, op, env);
      && r == Err(StopFailed) && s'.status == Error && s'.child == s.child && s'.pidFile == s.pidFile
      && s'.log == s.log && (op.Reload? ==> s'.needsRestore)
  {}

  /** Stopped is only reported once the process is known to be gone. */
  lemma StoppedMeansGone(s: Core, op: Op, env: Env)
    requires Consistent(s) && op != Reclaim
    ensures var (s', _) := Step(s, op, env);
      s.status != Stopped && s'.status == Stopped ==>
        op == Stop && s'.pidFile == None && (s.child.Some? ==> s.child.value !in s'.live)
  {}

  // ---- one core at a time

  /** A reload that stops its core before it spawns. */
  predicate StopsFirst(s: Core, op: Op, env: Env) {
    op.Reload? && s.status == Running && !(env.signal && env.hotHealth && env.sameProcess) && env.firstStop
  }

  /** What the operating system guarantees: a new process has a pid no live
      core has (it may reuse one that was just stopped), and a process seen
      alive is alive. */
  predicate Possible(s: Core, op: Op, env: Env) {
    var alive := s.live - env.died;
    && (env.spawned.Some? && env.spawned.value in alive ==> StopsFirst(s, op, env) && env.spawned == s.child)
    && (env.sameProcess && s.child.Some? ==> s.child.value in alive)
    && (s.pidFile.Some? && s.pidFile.value in alive ==> env.orphanAlive)
  }

  function Untracked(s: Core): set<Pid> {
    if s.child.Some? then s.live - {s.child.value} else s.live
  }

  /** The calls that lose sight of a running core. */
  predicate Loses(s: Core, op: Op, env: Env) {
    var alive := s.live - env.died;
    match op
    case Start(_) =>
      && StartAllowed(s.status) && env.binaryPresent && env.portsFree && env.spawned.Some?
      && (if PidWritten(env.spawned.value, env.writePid) then s.child.Some? && s.child.value in alive
          else !env.secondStop && s.child != env.spawned)
    case Adopt(pid, _) =>
      && StartAllowed(s.status) && env.imageMatches
      && (if PidWritten(pid, env.writePid) then s.child.Some? && s.child.value in alive && s.child.value != pid
          else s.child != Some(pid) && pid !in alive)
    case Reload(_) =>
      && s.status == Running && !(env.signal && env.hotHealth && env.sameProcess)
      && env.firstStop && env.firstClear && env.spawned.Some?
      && !PidWritten(env.spawned.value, env.writePid) && !env.secondStop
    case Reclaim =>
      && env.pidReadable && s.pidFile.Some? && s.child.Some? && s.child.value in alive
      && !(env.orphanAlive && env.orphanMatches && (!env.orphanKilled || s.pidFile == s.child))
    case _ => false
  }

  lemma LosesSight(s: Core, op: Op, env: Env)
    requires Consistent(s) && Possible(s, op, env) && Loses(s, op, env)
    ensures !(Untracked(Step(s, op, env).0) <= Untracked(AfterDeaths(s, env)))
  {
    var p := match op
      case Start(_) => if PidWritten(env.spawned.value, env.writePid) then s.child.value else env.spawned.value
      case Adopt(pid, _) => if PidWritten(pid, env.writePid) then s.child.value else pid
      case Reload(_) => env.spawned.value
      case Reclaim => s.child.value
      case _ => 0;
    assert p in Untracked(Step(s, op, env).0) && p !in Untracked(AfterDeaths(s, env));
  }

  lemma LaunchKeepsSight(s: Core, op: Op, env: Env)
    requires Consistent(s) && Possible(s, op, env) && !Loses(s, op, env) && (op.Start? || op.Reload?)
    ensures Untracked(Step(s, op, env).0) <= Untracked(AfterDeaths(s, env))
  {}

  lemma TakeoverKeepsSight(s: Core, op: Op, env: Env)
    requires Consistent(s) && Possible(s, op, env) && !Loses(s, op, env) && (op.Adopt? || op.Reclaim?)
    ensures Untracked(Step(s, op, env).0) <= Untracked(AfterDeaths(s, env))
  {}

  lemma KeepsSight(s: Core, op: Op, env: Env)
    requires Consistent(s) && Possible(s, op, env) && !Loses(s, op, env)
    ensures Untracked(Step(s, op, env).0) <= Untracked(AfterDeaths(s, env))
  {
    if op.Start? || op.Reload? {
      LaunchKeepsSight(s, op, env);
    } else if op.Adopt? || op.Reclaim? {
      TakeoverKeepsSight(s, op, env);
    }
  }

  /** A call leaves a running core without a handle exactly in the listed cases. */
  lemma LosesExactly(s: Core, op: Op, env: Env)
    requires Consistent(s) && Possible(s, op, env)
    ensures Untracked(Step(s, op, env).0) <= Untracked(AfterDeaths(s, env)) <==> !Loses(s, op, env)
  {
    if Loses(s, op, env) { LosesSight(s, op, env); } else { KeepsSight(s, op, env); }
  }

  /** The calls that bring a core up while another one runs. */
  predicate Beside(s: Core, op: Op, env: Env) {
    var alive := s.live - env.died;
    match op
    case Start(_) =>
      StartAllowed(s.status) && env.binaryPresent && env.portsFree && env.spawned.Some? && alive != {}
    case Adopt(pid, _) => StartAllowed(s.status) && env.imageMatches && alive - {pid} != {}
    case _ => false
  }

  /** Every core is tracked, and each came up alone. */
  predicate NeverTwo(s: Core) {
    Untracked(s) == {} && forall i :: 0 <= i < |s.log| ==> s.log[i].alive == {}
  }

  /** What a call adds to the log. */
  function Arrival(s: Core, op: Op, env: Env): seq<Event> {
    var alive := s.live - env.died;
    match op
    case Start(_) =>
      if StartAllowed(s.status) && env.binaryPresent && env.portsFree && env.spawned.Some?
      then [Spawned(env.spawned.value, alive)] else []
    case Adopt(pid, _) =>
      if StartAllowed(s.status) && env.imageMatches then [Spawned(pid, alive - {pid})] else []
    case Reload(_) =>
      if StopsFirst(s, op, env) && env.firstClear && env.spawned.Some?
      then [Spawned(env.spawned.value, Untracked(AfterDeaths(s, env)))] else []
    case _ => []
  }

  lemma SpawnLog(s: Core, env: Env)
    ensures SpawnAndProbe(s, env).0.log ==
      s.log + if env.spawned == None then [] else [Spawned(env.spawned.value, s.live)]
  {}

  lemma StepLog(s: Core, op: Op, env: Env)
    requires Consistent(s)
    ensures Step(s, op, env).0.log == s.log + Arrival(s, op, env)
  {
    var s0 := AfterDeaths(s, env);
    match op
    case Start(paths) => SpawnLog(EnterStarting(s0), env);
    case Reload(paths) => SpawnLog(KillChild(s0, env.firstStop, env.firstClear).0, env);
    case _ =>
  }

  /** A core comes up beside another one exactly in the listed cases. */
  lemma BesideExactly(s: Core, op: Op, env: Env)
    requires Untracked(s) == {}
    ensures Beside(s, op, env) <==> exists e :: e in Arrival(s, op, env) && e.alive != {}
  {
    var arrival := Arrival(s, op, env);
    assert Untracked(AfterDeaths(s, env)) == {};
    if Beside(s, op, env) { assert arrival[0] in arrival; }
  }

  /** One call keeps a single tracked core, if and only if it is in neither list. */
  lemma NeverTwoExactly(s: Core, op: Op, env: Env)
    requires Consistent(s) && NeverTwo(s) && Possible(s, op, env)
    ensures NeverTwo(Step(s, op, env).0) <==> !Loses(s, op, env) && !Beside(s, op, env)
  {
    var s', arrival := Step(s, op, env).0, Arrival(s, op, env);
    LosesExactly(s, op, env);
    StepLog(s, op, env);
    BesideExactly(s, op, env);
    assert Untracked(AfterDeaths(s, env)) == {};
    if e :| e in arrival && e.alive != {} {
      assert arrival == [e] && s'.log[|s.log|] == e;
    }
    if i :| 0 <= i < |s'.log| && s'.log[i].alive != {} {
      assert i >= |s.log| && s'.log[i] in arrival;
    }
  }

  predicate PossibleRun(s: Core, calls: seq<(Op, Env)>)
    decreases |calls|
  {
    calls != [] ==>
      Possible(s, calls[0].0, calls[0].1) && PossibleRun(Step(s, calls[0].0, calls[0].1).0, calls[1..])
  }

  /** No call of the run loses a core or brings one up beside another. */
  predicate CarefulRun(s: Core, calls: seq<(Op, Env)>)
    decreases |calls|
  {
    calls != [] ==>
      && !Loses(s, calls[0].0, calls[0].1) && !Beside(s, calls[0].0, calls[0].1)
      && CarefulRun(Step(s, calls[0].0, calls[0].1).0, calls[1..])
  }

  /** After every call of the run there is at most one core, and it is tracked. */
  predicate NeverTwoThroughout(s: Core, calls: seq<(Op, Env)>)
    decreases |calls|
  {
    NeverTwo(s) && |s.live| <= 1 &&
    (calls != [] ==> NeverTwoThroughout(Step(s, calls[0].0, calls[0].1).0, calls[1..]))
  }

  lemma NeverTwoAlive(s: Core)
    requires NeverTwo(s)
    ensures |s.live| <= 1
  {
    if s.child.Some? {
      assert s.live <= {s.child.value};
      CardinalityAtMostOne(s.live, s.child.value);
    }
  }

  lemma CardinalityAtMostOne(a: set<Pid>, p: Pid)
    requires a <= {p}
    ensures |a| <= 1
  {
    if p in a { assert a == {p}; } else { assert a == {}; }
  }

  /** A run never has two cores, if and only if it is careful. */
  lemma {:induction false} CarefulRunNeverTwo(s: Core, calls: seq<(Op, Env)>)
    requires Consistent(s) && NeverTwo(s) && PossibleRun(s, calls)
    ensures NeverTwoThroughout(s, calls) <==> CarefulRun(s, calls)
    decreases |calls|
  {
    NeverTwoAlive(s);
    if calls == [] {
    } else {
      var (op, env) := calls[0];
      StepConsistent(s, op, env);
      NeverTwoExactly(s, op, env);
      if NeverTwo(Step(s, op, env).0) {
        CarefulRunNeverTwo(Step(s, op, env).0, calls[1..]);
      }
    }
  }

  /** A session starts that way. */
  lemma SessionNeverTwo(calls: seq<(Op, Env)>)
    requires PossibleRun(INITIAL, calls)
    ensures NeverTwoThroughout(INITIAL, calls) <==> CarefulRun(INITIAL, calls)
  {
    CarefulRunNeverTwo(INITIAL, calls);
  }

  /** A reload never spawns beside the core it replaces. */
  lemma ReloadSpawnsAlone(s: Core, paths: Paths, env: Env)
    requires Consistent(s) && s.status == Running
    ensures var (s', r) := Step(s, Reload(paths), env);
      && (s'.log == s.log || (|s'.log| == |s.log| + 1 && s'.log[..|s.log|] == s.log &&
        s.child.value !in s'.log[|s.log|].alive))
      && (r == HotReloaded ==> s'.log == s.log && s'.child == s.child)
      && (r == Restarted ==> s'.child == env.spawned && s'.pidFile == env.spawned)
      && (r.Err? ==> s'.needsRestore && s'.status == Error)
  {}

  /** Starting again over a core that refused to stop leaves two running, so not
      every run is careful. */
  lemma StartOverRetainedHandle(s: Core, paths: Paths, env: Env, again: Env)
    requires Consistent(s) && s.status == Running && s.child.value in s.live - env.died - again.died
    requires !env.firstStop && StartSucceeds(again) && again.spawned != s.child
    ensures var s1 := Step(s, Stop, env).0;
      var (s2, r) := Step(s1, Start(paths), again);
      r == Ok && {s.child.value, again.spawned.value} <= s2.live && s.child.value in Untracked(s2)
  {}

  /** A spawned process whose pid is written and whose probe answers. */
  predicate ComesUp(env: Env) {
    env.spawned.Some? && env.spawned.value != 0 && env.writePid && env.probe == None
  }

  predicate StartSucceeds(env: Env) {
    env.binaryPresent && env.portsFree && ComesUp(env)
  }
}
