/** The core controller, updating its fields and the pid file step by step.
    Each call is tied to `CoreSpec`, where the safety results are. */
module CoreController {
  import opened JsonValue
  import opened CoreSpec

  class Controller {
    var status: Status
    var message: Option<Notice>
    var inboundHost: Option<string>
    var inboundPort: Option<nat>
    var child: Option<Pid>
    var needsProxyRestore: bool
    var pidFile: Option<Pid>
    ghost var live: set<Pid>
    ghost var log: seq<Event>

    ghost function State(): Core
      reads this
    {
      Core(status, message, inboundHost, inboundPort, child, needsProxyRestore, pidFile, live, log)
    }

    constructor ()
      ensures State() == INITIAL
    {
      status, message, inboundHost, inboundPort := Stopped, None, None, None;
      child, needsProxyRestore, pidFile := None, false, None;
      live, log := {}, [];
    }

    /** The environment moves between calls: some cores exit. */
    ghost method Settle(env: Env)
      modifies this`live
      ensures State() == AfterDeaths(old(State()), env)
    {
      live := live - env.died;
    }

    method ClearInbound()
      modifies this`inboundHost, this`inboundPort
      ensures State() == CoreSpec.ClearInbound(old(State()))
    {
      inboundHost := None;
      inboundPort := None;
    }

    method Fail(m: Notice)
      modifies this`status, this`message, this`inboundHost, this`inboundPort
      ensures State() == CoreSpec.Fail(old(State()), m)
    {
      status := Error;
      message := Some(m);
      ClearInbound();
    }

    method KillChildAndClearPid(stop: bool, clear: bool) returns (failure: Option<Failure>)
      modifies this`child, this`pidFile, this`live
      ensures (State(), failure) == KillChild(old(State()), stop, clear)
    {
      if child.Some? {
        if !stop { return Some(StopFailed); }
        live := live - {child.value};
        child := None;
      }
      if !clear { return Some(ClearPidFailed); }
      pidFile := None;
      return None;
    }

    method WaitHealth(env: Env) returns (failure: Option<Failure>)
      modifies this`child, this`pidFile, this`live
      ensures (State(), failure) == Probe(old(State()), env)
    {
      if env.probe.Some? {
        var _ := KillChildAndClearPid(env.secondStop, env.secondClear);
      }
      return env.probe;
    }

    method SpawnAndProbe(env: Env) returns (failure: Option<Failure>)
      modifies this`child, this`pidFile, this`live, this`log
      ensures (State(), failure) == CoreSpec.SpawnAndProbe(old(State()), env)
    {
      if env.spawned == None { return Some(SpawnFailed); }
      var pid := env.spawned.value;
      log := log + [Spawned(pid, live)];
      live := live + {pid};
      if !PidWritten(pid, env.writePid) {
        if env.secondStop { live := live - {pid}; }
        if env.secondClear { pidFile := None; }
        return Some(SpawnFailed);
      }
      pidFile := Some(pid);
      child := Some(pid);
      failure := WaitHealth(env);
    }

    method EnterStarting()
      modifies this`status, this`message, this`inboundHost, this`inboundPort, this`needsProxyRestore
      ensures State() == CoreSpec.EnterStarting(old(State()))
    {
      status := Starting;
      message := None;
      ClearInbound();
      needsProxyRestore := false;
    }

    method EnterRunning(paths: Paths)
      modifies this`status, this`message, this`inboundHost, this`inboundPort
      ensures State() == CoreSpec.EnterRunning(old(State()), paths)
    {
      status := Running;
      message := None;
      inboundHost := Some(paths.host);
      inboundPort := Some(paths.port);
    }

    method BeginStart(env: Env) returns (r: Outcome)
      modifies this
      ensures (State(), r) == Step(old(State()), Op.BeginStart, env)
    {
      Settle(env);
      if !StartAllowed(status) { return Err(InvalidState); }
      status := Starting;
      message := None;
      return Ok;
    }

    method Start(paths: Paths, env: Env) returns (r: Outcome)
      modifies this
      ensures (State(), r) == Step(old(State()), Op.Start(paths), env)
    {
      Settle(env);
      if !StartAllowed(status) { return Err(InvalidState); }
      if !env.binaryPresent { return Err(NotFound); }
      if !env.portsFree { return Err(PortInUse); }
      EnterStarting();
      var failure := SpawnAndProbe(env);
      if failure.Some? {
        Fail(FromError(failure.value));
        return Err(failure.value);
      }
      EnterRunning(paths);
      return Ok;
    }

    method AdoptExternal(pid: Pid, paths: Paths, env: Env) returns (r: Outcome)
      modifies this
      ensures (State(), r) == Step(old(State()), Adopt(pid, paths), env)
    {
      Settle(env);
      if !StartAllowed(status) { return Err(InvalidState); }
      if !env.imageMatches { return Err(AdoptRejected); }
      EnterStarting();
      log := log + [Spawned(pid, live - {pid})];
      live := live + {pid};
      if !PidWritten(pid, env.writePid) {
        Fail(WritePidNotice);
        return Err(SpawnFailed);
      }
      pidFile := Some(pid);
      child := Some(pid);
      var failure := WaitHealth(env);
      if failure.Some? {
        Fail(FromError(failure.value));
        return Err(failure.value);
      }
      EnterRunning(paths);
      return Ok;
    }

    method Stop(env: Env) returns (r: Outcome)
      modifies this
      ensures (State(), r) == Step(old(State()), Op.Stop, env)
    {
      Settle(env);
      if status == Stopping { return Ok; }
      if status == Stopped && child == None {
        if env.firstClear { pidFile := None; }
        ClearInbound();
        return Ok;
      }
      status := Stopping;
      var failure := KillChildAndClearPid(env.firstStop, env.firstClear);
      if failure.Some? {
        Fail(StopFailedNotice);
        return Err(failure.value);
      }
      status := Stopped;
      message := None;
      ClearInbound();
      needsProxyRestore := false;
      return Ok;
    }

    method Reload(paths: Paths, env: Env) returns (r: Outcome)
      modifies this
      ensures (State(), r) == Step(old(State()), Op.Reload(paths), env)
    {
      Settle(env);
      if !ReloadAllowed(status) { return Err(InvalidState); }
      if child.Some? && env.signal {
        if env.hotHealth && env.sameProcess { return HotReloaded; }
      }
      r := RestartInPlace(paths, env);
    }

    method RestartInPlace(paths: Paths, env: Env) returns (r: Outcome)
      modifies this
      ensures (State(), r) == CoreSpec.RestartInPlace(old(State()), paths, env)
    {
      var failure := KillChildAndClearPid(env.firstStop, env.firstClear);
      if failure == None {
        failure := SpawnAndProbe(env);
        if failure == None {
          EnterRunning(paths);
          needsProxyRestore := false;
          return Restarted;
        }
      }
      Fail(FromError(failure.value));
      needsProxyRestore := true;
      return Err(failure.value);
    }

    method ReapExitedChild(env: Env) returns (reaped: bool)
      modifies this
      ensures State() == Step(old(State()), Reap, env).0
      ensures reaped == (old(child).Some? && env.exited)
    {
      Settle(env);
      if child == None || !env.exited { return false; }
      live := live - {child.value};
      child := None;
      if env.firstClear { pidFile := None; }
      if status == Running { Fail(ExitedUnexpectedly); }
      return true;
    }

    method ReclaimOrphanPid(env: Env) returns (r: Outcome)
      modifies this
      ensures (State(), r) == Step(old(State()), Reclaim, env)
    {
      Settle(env);
      if !env.pidReadable { return Err(SpawnFailed); }
      if pidFile == None { return Ok; }
      if env.orphanAlive && env.orphanMatches {
        if !env.orphanKilled { return Err(SpawnFailed); }
        live := live - {pidFile.value};
      }
      if env.firstClear { pidFile := None; }
      child := None;
      status := Stopped;
      ClearInbound();
      return Ok;
    }

    method ClearNeedsProxyRestore(env: Env)
      modifies this
      ensures State() == Step(old(State()), ClearRestore, env).0
    {
      Settle(env);
      needsProxyRestore := false;
    }
  }
}
