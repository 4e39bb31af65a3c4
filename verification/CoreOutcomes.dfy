/** What each call of the core controller comes to: when it succeeds, and the
    state it leaves either way. */
module CoreOutcomes {
  import opened JsonValue
  import opened CoreSpec

  /** What still runs when the call begins, without the controller's own core. */
  function OthersAlive(s: Core, env: Env): set<Pid> {
    Untracked(AfterDeaths(s, env))
  }

  // ---- stop

  /** The process, if there is one, stops, and the pid file goes. */
  predicate StopsCleanly(s: Core, env: Env) {
    (s.child.Some? ==> env.firstStop) && env.firstClear
  }

  /** No core, no record of one, and no inbound address. */
  predicate AtRest(s: Core) {
    s.status == Stopped && s.child == None && s.pidFile == None && s.host == None && s.port == None
  }

  /** A stop that can take effect does: Ok, at rest, the process gone and no
      other one touched. Coming from anything but Stopped, no message and no
      pending proxy restore are left either. */
  lemma CleanStopRests(s: Core, env: Env)
    requires Consistent(s) && StopsCleanly(s, env)
    ensures var (s', r) := Step(s, Stop, env);
      && r == Ok && AtRest(s') && s'.live == OthersAlive(s, env) && s'.log == s.log
      && (if s.status == Stopped then s'.message == s.message && s'.needsRestore == s.needsRestore
          else s'.message == None && !s'.needsRestore)
  {}

  /** Otherwise it says so: Error with the stop-failed message, and a process
      that refused keeps its handle and its pid file. */
  lemma UncleanStopFails(s: Core, env: Env)
    requires Consistent(s) && s.status != Stopped && !StopsCleanly(s, env)
    ensures var (s', r) := Step(s, Stop, env);
      var refused := s.child.Some? && !env.firstStop;
      && r == Err(if refused then StopFailed else ClearPidFailed)
      && s'.status == Error && s'.message == Some(StopFailedNotice) && s'.host == None && s'.port == None
      && s'.child == (if refused then s.child else None) && s'.pidFile == s.pidFile
      && s'.live == (if refused then s.live - env.died else OthersAlive(s, env))
      && s'.needsRestore == s.needsRestore && s'.log == s.log
  {}

  /** A stop reaches Stopped, and answers Ok, exactly when it is clean; from
      Stopped it always does, whatever becomes of the pid file. */
  lemma StopExactly(s: Core, env: Env)
    requires Consistent(s)
    ensures var (s', r) := Step(s, Stop, env);
      && (r == Ok <==> s.status == Stopped || StopsCleanly(s, env))
      && (s'.status == Stopped <==> s.status == Stopped || StopsCleanly(s, env))
      && (AtRest(s') <==> StopsCleanly(s, env) || (s.status == Stopped && s.pidFile == None))
  {
    if StopsCleanly(s, env) {
      CleanStopRests(s, env);
    } else if s.status != Stopped {
      UncleanStopFails(s, env);
    }
  }

  /** Whatever a session did, a clean stop brings it to rest. */
  lemma SessionCanStop(calls: seq<(Op, Env)>, env: Env)
    requires StopsCleanly(Run(INITIAL, calls), env)
    ensures var (s', r) := Step(Run(INITIAL, calls), Stop, env);
      r == Ok && AtRest(s')
  {
    SessionConsistent(calls);
    CleanStopRests(Run(INITIAL, calls), env);
  }

  // ---- coming up

  /** Running on `paths` as process `pid`, recorded as such. */
  predicate Serves(s: Core, pid: Pid, paths: Paths) {
    && s.status == Running && s.message == None && !s.needsRestore
    && s.child == Some(pid) && s.pidFile == Some(pid)
    && s.host == Some(paths.host) && s.port == Some(paths.port)
  }

  /** Failed with `e`: Error, its message, and no inbound address. */
  predicate FailedWith(s: Core, r: Outcome, e: Failure) {
    r == Err(e) && s.status == Error && s.message == Some(FromError(e)) && s.host == None && s.port == None
  }

  /** Why a process does not come up. */
  function SpawnFailure(env: Env): Failure
    requires !ComesUp(env)
  {
    if env.spawned.Some? && env.spawned.value != 0 && env.writePid then env.probe.value else SpawnFailed
  }

  /** A process that does not come up is stopped again; one that refuses keeps a
      handle if its pid was written, and none otherwise. */
  lemma SpawnExactly(s: Core, env: Env)
    ensures var (s', failure) := SpawnAndProbe(s, env);
      if ComesUp(env) then
        failure == None && s'.child == env.spawned && s'.pidFile == env.spawned &&
        s'.live == s.live + {env.spawned.value}
      else
        && failure == Some(SpawnFailure(env))
        && (env.spawned == None ==> s' == s)
        && (env.spawned.Some? ==>
              var pid, written := env.spawned.value, env.spawned.value != 0 && env.writePid;
              && s'.live == s.live + {pid} - (if env.secondStop then {pid} else {})
              && s'.child == (if !written then s.child else if env.secondStop then None else Some(pid))
              && s'.pidFile == (if env.secondClear && (!written || env.secondStop) then None
                                else if written then Some(pid) else s.pidFile))
  {}

  /** A start is refused without a trace, fails with its reason, or serves on
      the address it was given; it succeeds exactly when nothing is in its way. */
  lemma StartExactly(s: Core, paths: Paths, env: Env)
    requires Consistent(s)
    ensures var (s', r) := Step(s, Start(paths), env);
      var ready := env.binaryPresent && env.portsFree;
      if s.status != Stopped && s.status != Error then r == Err(InvalidState) && s' == AfterDeaths(s, env)
      else if !ready then
        r == Err(if env.binaryPresent then PortInUse else NotFound) && s' == AfterDeaths(s, env)
      else if ComesUp(env) then
        r == Ok && Serves(s', env.spawned.value, paths) && s'.live == s.live - env.died + {env.spawned.value}
      else FailedWith(s', r, SpawnFailure(env)) && !s'.needsRestore
  {
    SpawnExactly(EnterStarting(AfterDeaths(s, env)), env);
    SpawnKeepsFields(EnterStarting(AfterDeaths(s, env)), env);
  }

  /** The same for a core that was started from outside. */
  lemma AdoptExactly(s: Core, pid: Pid, paths: Paths, env: Env)
    requires Consistent(s)
    ensures var (s', r) := Step(s, Adopt(pid, paths), env);
      var recorded := pid != 0 && env.writePid;
      if s.status != Stopped && s.status != Error then r == Err(InvalidState) && s' == AfterDeaths(s, env)
      else if !env.imageMatches then r == Err(AdoptRejected) && s' == AfterDeaths(s, env)
      else if !recorded then
        && r == Err(SpawnFailed) && s'.status == Error && s'.message == Some(WritePidNotice)
        && s'.child == s.child && s'.pidFile == s.pidFile && !s'.needsRestore
      else if env.probe == None then
        r == Ok && Serves(s', pid, paths) && s'.live == s.live - env.died + {pid}
      else
        && FailedWith(s', r, env.probe.value) && !s'.needsRestore
        && s'.child == (if env.secondStop then None else Some(pid))
        && s'.pidFile == (if env.secondStop && env.secondClear then None else Some(pid))
  {}

  /** A reload keeps the core, replaces it by one that serves on the new address,
      or fails and leaves a proxy restore pending. */
  lemma ReloadExactly(s: Core, paths: Paths, env: Env)
    requires Consistent(s)
    ensures var (s', r) := Step(s, Reload(paths), env);
      var hot := env.signal && env.hotHealth && env.sameProcess;
      if s.status != Running then r == Err(InvalidState) && s' == AfterDeaths(s, env)
      else if hot then r == HotReloaded && s' == AfterDeaths(s, env)
      else if !StopsCleanly(s, env) then
        FailedWith(s', r, if env.firstStop then ClearPidFailed else StopFailed) && s'.needsRestore
      else if ComesUp(env) then
        r == Restarted && Serves(s', env.spawned.value, paths) &&
        s'.live == OthersAlive(s, env) + {env.spawned.value}
      else FailedWith(s', r, SpawnFailure(env)) && s'.needsRestore
  {
    var s1 := KillChild(AfterDeaths(s, env), env.firstStop, env.firstClear).0;
    SpawnExactly(s1, env);
    SpawnKeepsFields(s1, env);
  }

  // ---- the other calls

  /** Announcing a start changes the status and the message, nothing else. */
  lemma BeginStartExactly(s: Core, env: Env)
    requires Consistent(s)
    ensures var (s', r) := Step(s, BeginStart, env);
      if s.status == Stopped || s.status == Error
      then r == Ok && s' == s.(status := Starting, message := None, live := s.live - env.died)
      else r == Err(InvalidState) && s' == AfterDeaths(s, env)
  {}

  /** Reaping lets go of a core that exited; only a running one is an error. */
  lemma ReapExactly(s: Core, env: Env)
    requires Consistent(s)
    ensures var (s', r) := Step(s, Reap, env);
      && r == Ok && s'.log == s.log && s'.needsRestore == s.needsRestore
      && (if s.child == None || !env.exited then s' == AfterDeaths(s, env)
          else
            && s'.child == None && s'.live == OthersAlive(s, env)
            && s'.pidFile == (if env.firstClear then None else s.pidFile)
            && (if s.status == Running
                then s'.status == Error && s'.message == Some(ExitedUnexpectedly) && s'.host == None && s'.port == None
                else s'.status == s.status && s'.message == s.message))
  {}

  /** Reclaiming ends a core left by an earlier session, unless it cannot be
      killed; the pid of an unrelated process is only forgotten. */
  lemma ReclaimExactly(s: Core, env: Env)
    requires Consistent(s)
    ensures var (s', r) := Step(s, Reclaim, env);
      var ours := env.orphanAlive && env.orphanMatches;
      if !env.pidReadable || (s.pidFile.Some? && ours && !env.orphanKilled)
      then r == Err(SpawnFailed) && s' == AfterDeaths(s, env)
      else if s.pidFile == None then r == Ok && s' == AfterDeaths(s, env)
      else
        && r == Ok && s'.status == Stopped && s'.child == None && s'.host == None && s'.port == None
        && s'.pidFile == (if env.firstClear then None else s.pidFile)
        && s'.live == (s.live - env.died) - (if ours then {s.pidFile.value} else {})
        && s'.message == s.message && s'.needsRestore == s.needsRestore && s'.log == s.log
  {}

  // ---- calls that undo each other

  /** Stop undoes start: the core is at rest again, what ran besides it still
      does, and only the log remembers. */
  lemma StartThenStop(s: Core, paths: Paths, up: Env, down: Env)
    requires Consistent(s) && StartAllowed(s.status) && s.child == None
    requires StartSucceeds(up) && up.spawned.value !in s.live - up.died
    requires down.died == {} && down.firstStop && down.firstClear
    ensures var s1 := Step(s, Start(paths), up).0;
      var (s2, r) := Step(s1, Stop, down);
      r == Ok && s2 == Core(Stopped, None, None, None, None, false, None, s.live - up.died, s1.log)
  {
    StartExactly(s, paths, up);
    var s1 := Step(s, Start(paths), up).0;
    StepConsistent(s, Start(paths), up);
    CleanStopRests(s1, down);
    assert s.live - up.died + {up.spawned.value} - {up.spawned.value} == s.live - up.died;
  }

  /** A core that crashed comes back with a reap and a start, alone. */
  lemma ReapThenStart(s: Core, paths: Paths, gone: Env, up: Env)
    requires Consistent(s) && s.status == Running && gone.exited
    requires StartSucceeds(up)
    ensures var s1 := Step(s, Reap, gone).0;
      var (s2, r) := Step(s1, Start(paths), up);
      r == Ok && Serves(s2, up.spawned.value, paths) &&
      s2.live == OthersAlive(s, gone) - up.died + {up.spawned.value}
  {
    ReapExactly(s, gone);
    StepConsistent(s, Reap, gone);
    StartExactly(Step(s, Reap, gone).0, paths, up);
  }
}
