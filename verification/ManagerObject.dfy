/** The manager object itself (core/manager.go, core/manager_start.go, core/runtime_state.go): the
    code of every section, proved to compute the section of module CoreManager it implements, with
    every resource accounted for. */
module ManagerObject {
  import opened Runs
  import Splitting
  import opened Launch
  import opened CoreManager

  /** A process controller: the session it was created for and the handle it owns. */
  datatype Controller = Controller(session: nat, handle: Resource)

  /** How one start goes: the launch itself, the process id, whether the startup notification
      arrives, whether the endpoint can be hardened, and whether a traffic-monitor pipe comes up. */
  datatype StartEnv = StartEnv(process: ProcessEnv, pid: int, ready: bool, hardened: bool, pipe: bool)

  /** Exactly when a start of an idle manager works. */
  predicate Succeeds(env: StartEnv) {
    Launches(env.process) && env.ready && env.hardened
  }

  function WithPipe(kinds: seq<Kind>): seq<Kind>
    requires kinds != []
  {
    [kinds[0]] + ([TrafficPipe] + kinds[1..])
  }

  lemma PipeKinds(c: Resource, r: Resource, held: seq<Resource>)
    requires r.kind == TrafficPipe
    ensures Kinds([c] + ([r] + held)) == WithPipe(Kinds([c] + held))
  {
    KindsCons(c, held);
    KindsCons(r, held);
    KindsCons(c, [r] + held);
  }

  lemma KindsCons(r: Resource, rest: seq<Resource>)
    ensures Kinds([r] + rest) == [r.kind] + Kinds(rest)
  {
  }

  predicate Eligible(pid: int, oldPid: int, candidate: int -> bool) {
    pid > 0 && pid != oldPid && candidate(pid)
  }

  ghost predicate YoungestAt(pids: seq<int>, oldPid: int, candidate: int -> bool, created: int -> int, k: int) {
    && 0 <= k < |pids| && Eligible(pids[k], oldPid, candidate)
    && forall i :: 0 <= i < |pids| && Eligible(pids[i], oldPid, candidate) ==>
         created(pids[i]) <= created(pids[k]) && (i > k ==> created(pids[i]) < created(pids[k]))
  }

  /** findManagedCorePID: among the processes of the controller's group that look like the core,
      the youngest one, and of equally young ones the last listed. */
  method FindManagedCorePID(pids: seq<int>, oldPid: int, candidate: int -> bool, created: int -> int)
    returns (best: int, found: bool)
    ensures found <==> exists i :: 0 <= i < |pids| && Eligible(pids[i], oldPid, candidate)
    ensures found ==> exists k :: YoungestAt(pids, oldPid, candidate, created, k) && best == pids[k]
    ensures !found ==> best == 0
  {
    best := 0;
    var bestCreated := 0;
    ghost var k := 0;
    for n := 0 to |pids|
      invariant best == 0 ==> forall i :: 0 <= i < n ==> !Eligible(pids[i], oldPid, candidate)
      invariant best != 0 ==>
        && YoungestAt(pids[..n], oldPid, candidate, created, k) && best == pids[k] && bestCreated == created(best)
    {
      if pids[n] > 0 && pids[n] != oldPid && candidate(pids[n]) {
        if best == 0 || created(pids[n]) >= bestCreated {
          best, bestCreated := pids[n], created(pids[n]);
          k := n;
        }
      }
    }
    found := best != 0;
    assert pids[..|pids|] == pids;
  }

  class Manager {
    const ledger: Ledger
    var isRunning: bool
    var monitoring: bool
    var pid: int
    ghost var group: nat
    var controller: Option<Controller>
    var launch: LaunchSession?
    var stopChan: Option<nat>
    var cmd: Option<nat>
    var restartAttempts: nat
    var sessions: nat
    var closedChans: seq<nat>
    /** What the current session owns, in the order in which it will be released. */
    ghost var owned: seq<Resource>

    constructor ()
      ensures Valid() && Abs() == NewCore && fresh(ledger)
    {
      ledger := new Ledger();
      isRunning, monitoring, pid, group := false, false, 0, 0;
      controller, launch, stopChan, cmd := None, null, None, None;
      restartAttempts, sessions, closedChans, owned := 0, 0, [], [];
    }

    /** The state protected by the mutex, with objects replaced by their session numbers. */
    ghost function Abs(): Core
      reads this
    {
      Core(isRunning, monitoring, pid, group, if controller.Some? then Some(controller.value.session) else None,
           if launch == null then None else Some(launch.id), stopChan, cmd, restartAttempts, sessions, closedChans)
    }

    ghost function Objects(): set<object>
      reads this, launch
    {
      {this, ledger} + (if launch == null then {} else launch.Objects())
    }

    /** What the session's cleanup will release. */
    ghost function Held(): seq<Resource>
      reads this`launch, launch, if launch == null then null else launch.command
    {
      if launch == null then [] else launch.Held()
    }

    /** The ledger owes exactly what the session owns: nothing is leaked, shared or released early. */
    ghost predicate Accounted()
      reads this`launch, this`controller, this`owned, ledger, launch, if launch == null then null else launch.command
    {
      && ledger.OwesExactly(owned)
      && (launch != null ==> launch.Valid())
      && owned == (if controller.Some? then [controller.value.handle] else []) + Held()
    }

    ghost predicate Valid()
      reads this, ledger, launch, if launch == null then null else launch.command
    {
      Steady(Abs()) && Accounted()
    }

    method SignalStopLocked()
      modifies this`stopChan, this`closedChans
      ensures stopChan.None?
      ensures closedChans == old(closedChans) + if old(stopChan).Some? then [old(stopChan).value] else []
    {
      if stopChan.Some? {
        closedChans := closedChans + [stopChan.value];
        stopChan := None;
      }
    }

    /** Closes the controller, then runs the session's cleanup chain: every owned resource is
        released, once, in this order. */
    method CleanupLocked()
      requires Accounted()
      modifies Objects()
      ensures Accounted() && owned == []
      ensures ledger.released == old(ledger.released) + old(owned)
      ensures Abs() == old(Abs()).(running := false, pid := 0, group := 0, controller := None, launch := None, cmd := None)
    {
      CloseControllerLocked();
      CleanupLaunchLocked();
      cmd, pid, isRunning := None, 0, false;
      group := 0;
    }

    method CloseControllerLocked()
      requires Accounted()
      modifies this`controller, this`owned, ledger
      ensures Accounted() && controller.None?
      ensures ledger.released + owned == old(ledger.released) + old(owned)
    {
      if controller.Some? {
        var handle := controller.value.handle;
        ghost var held := Held();
        Splitting.Associate(ledger.released, [handle], held);
        ledger.ReleaseFirst(handle, held);
        controller, owned := None, held;
      }
    }

    method CleanupLaunchLocked()
      requires Accounted() && controller.None?
      modifies this`launch, this`owned, ledger, launch, if launch == null then null else launch.command
      ensures Accounted() && launch == null && owned == []
      ensures ledger.released == old(ledger.released) + old(owned)
    {
      if launch != null {
        assert owned == launch.Held();
        launch.CleanupNow(ledger);
        launch, owned := null, [];
      }
    }

    /** The three steps every teardown performs. */
    method TearDown()
      requires Accounted() && ChannelsClosedOnce(Abs())
      modifies Objects()
      ensures Valid() && Idle(Abs()) && Abs() == TornDown(old(Abs()))
      ensures ledger.released == old(ledger.released) + old(owned)
    {
      TearDownSteady(Abs());
      monitoring := false;
      SignalStopLocked();
      CleanupLocked();
    }

    method StopCoreLocked()
      requires Valid()
      modifies Objects()
      ensures Valid() && Idle(Abs()) && Abs() == Stop(old(Abs()))
      ensures ledger.released == old(ledger.released) + old(owned)
    {
      if pid == 0 && controller.None? && launch == null && !isRunning {
        return;
      }
      TearDown();
    }

    method FinishExpectedProcessExit(dead: nat)
      requires Valid()
      modifies Objects()
      ensures Valid() && Abs() == FinishExpectedExit(old(Abs()), dead)
      ensures old(cmd) == Some(dead) ==> Idle(Abs()) && ledger.released == old(ledger.released) + old(owned)
      ensures old(cmd) != Some(dead) ==> Abs() == old(Abs()) && ledger.released == old(ledger.released)
    {
      if cmd != Some(dead) {
        return;
      }
      TearDown();
    }

    /** The crash path: at most `MaxCrashRestarts` exits in the manager's life ask for a recovery. */
    method HandleProcessExit() returns (recover: bool)
      requires Valid()
      modifies Objects()
      ensures Valid() && Idle(Abs()) && Abs() == Exit(old(Abs()))
      ensures recover == SpawnsRecovery(old(Abs()))
      ensures ledger.released == old(ledger.released) + old(owned)
    {
      if pid == 0 && controller.None? && launch == null && !isRunning {
        return false;
      }
      restartAttempts := restartAttempts + 1;
      recover := restartAttempts <= MaxCrashRestarts;
      TearDown();
    }

    /** Installs a process found in the group of the controller seen before, if that controller is
        still the current one. */
    method CommitFoundProcess(seen: Controller, newPid: int) returns (taken: bool)
      requires Valid() && newPid > 0
      modifies this`cmd, this`pid, this`group
      ensures taken <==> old(monitoring && controller == Some(seen))
      ensures taken ==> Abs() == CommitTakeover(old(Abs()), seen.session, newPid) && Valid()
      ensures !taken ==> Abs() == old(Abs()) && Valid()
    {
      taken := monitoring && controller == Some(seen);
      if taken {
        cmd, pid := None, newPid;
        group := seen.session;
      }
    }

    method CommitNotifiedProcess(noticed: LaunchSession, seen: Option<Controller>, oldPid: int, newPid: int)
      requires Valid() && newPid > 0 && (seen.None? ==> newPid == oldPid)
      modifies this`cmd, this`pid, this`group
      ensures Valid()
      ensures old(monitoring) && launch == noticed && controller == seen && newPid != oldPid ==>
                seen.Some? && Abs() == CommitNotification(old(Abs()), noticed.id, Some(seen.value.session), oldPid, newPid)
      ensures !(old(monitoring) && launch == noticed && controller == seen && newPid != oldPid) ==> Abs() == old(Abs())
    {
      if !monitoring || launch != noticed || controller != seen {
        return;
      }
      if newPid != oldPid {
        cmd, pid := None, newPid;
        group := seen.value.session;
      }
    }

    lemma IdleOwnsNothing()
      requires Accounted() && controller.None? && launch == null
      ensures owned == [] && ledger.OwesExactly([])
    {
    }

    /** A residual process from an earlier service run becomes a session that owns its controller,
        unless the controller cannot be attached to it; a failed attach holds nothing. */
    method AdoptRuntimeRecord(recordPid: int, attaches: bool) returns (ok: bool)
      requires Valid() && Idle(Abs()) && recordPid > 0
      modifies this, ledger
      ensures Valid() && ok == attaches
      ensures Abs() == if ok then Adopt(old(Abs()), recordPid) else old(Abs())
      ensures !ok ==> ledger.open == old(ledger.open)
    {
      ok := attaches;
      if !ok {
        return;
      }
      AdoptSteady(Abs(), recordPid);
      AdoptController();
      AdoptProcess(recordPid);
    }

    method AdoptProcess(recordPid: int)
      requires Accounted()
      modifies this`cmd, this`pid, this`stopChan, this`group, this`isRunning, this`monitoring, this`sessions
      ensures Accounted()
      ensures Abs() == old(Abs()).(cmd := None, pid := recordPid, stopChan := Some(old(sessions)), group := old(sessions),
                                   running := true, monitoring := true, sessions := old(sessions) + 1)
    {
      cmd, pid, stopChan := None, recordPid, Some(sessions);
      group := sessions;
      isRunning, monitoring, sessions := true, true, sessions + 1;
    }

    method AdoptController()
      requires Accounted() && controller.None? && launch == null
      modifies this`controller, this`launch, this`owned, ledger
      ensures Accounted() && controller.Some? && controller.value.session == sessions
      ensures launch != null && fresh(launch) && launch.id == sessions && launch.command == null
    {
      IdleOwnsNothing();
      var handle := ledger.AcquireOnly(ProcessController);
      launch := new LaunchSession(sessions, []);
      controller, owned := Some(Controller(sessions, handle)), [handle] + [];
    }

    /** The launch itself: either a session with all its resources is installed, or nothing is. */
    method InstallProcess(env: ProcessEnv, newPid: int) returns (ok: bool)
      requires Accounted() && controller.None? && launch == null && stopChan.Some?
      modifies this`controller, this`launch, this`owned, this`cmd, this`pid, this`group, ledger
      ensures Accounted()
      ensures !ok ==> Abs() == old(Abs())
      ensures ok <==> Launches(env)
      ensures ok ==> Kinds(owned) == [ProcessController] + HeldKinds(RunsIn(env), OwnsEndpoint(env))
      ensures ok ==>
                && Abs() == old(Abs()).(cmd := stopChan, pid := newPid, group := stopChan.value,
                                        controller := stopChan, launch := stopChan)
                && launch != null && fresh(launch) && launch.command != null && fresh(launch.command)
    {
      IdleOwnsNothing();
      var handle, session := LaunchProcess(ledger, stopChan.value, env);
      ok := session != null;
      if ok {
        cmd, controller, launch, pid := stopChan, Some(Controller(stopChan.value, handle)), session, newPid;
        group := stopChan.value;
        owned := [handle] + session.Held();
        KindsCons(handle, session.Held());
      }
    }

    /** What a running session owns, in the order in which it will be released. */
    ghost predicate OwnsSession(env: StartEnv)
      reads this`owned
    {
      var held := HeldKinds(RunsIn(env.process), OwnsEndpoint(env.process));
      Kinds(owned) == [ProcessController] + if env.pipe then [TrafficPipe] + held else held
    }

    /** startCoreLocked with startProcessLocked: the only outcomes are a refusal because a core is
        already running, a fully running session, or an idle manager that has given everything back. */
    method StartCoreLocked(env: StartEnv) returns (ok: bool)
      requires Valid() && env.pid > 0
      modifies Objects()
      ensures Valid()
      ensures old(isRunning) ==> !ok && Abs() == old(Abs())
      ensures !old(isRunning) ==> Abs() == Start(old(Abs()), if ok then Some(env.pid) else None)
      ensures ok <==> !old(isRunning) && Succeeds(env)
      ensures ok ==> OwnsSession(env)
    {
      if isRunning {
        return false;
      }
      StartSteady(Abs(), Some(env.pid));
      BeginSession();
      var installed := InstallProcess(env.process, env.pid);
      if !installed || !env.ready || !env.hardened {
        TearDown();
        return false;
      }
      assert Kinds(owned)[1..] == HeldKinds(RunsIn(env.process), OwnsEndpoint(env.process));
      FinishStart(env.pipe);
      ok := true;
    }

    /** Claims the manager for a new session, with a new stop channel. */
    method BeginSession()
      requires Valid() && !isRunning
      modifies this`isRunning, this`stopChan, this`sessions
      ensures Accounted() && ChannelsClosedOnce(Abs())
      ensures Abs() == old(Abs()).(running := true, stopChan := Some(old(sessions)), sessions := old(sessions) + 1)
    {
      BegunChannels(Abs());
      isRunning := true;
      stopChan, sessions := Some(sessions), sessions + 1;
    }

    method FinishStart(pipe: bool)
      requires Accounted() && launch != null && controller.Some?
      modifies this`owned, this`monitoring, ledger, launch
      ensures Accounted() && Abs() == old(Abs()).(monitoring := true)
      ensures old(owned) != [] && Kinds(owned) == if pipe then WithPipe(old(Kinds(owned))) else old(Kinds(owned))
    {
      if pipe {
        AddTrafficPipe();
      }
      monitoring := true;
    }

    /** The traffic-monitor pipe joins the cleanup chain as its newest link. */
    method AddTrafficPipe()
      requires Accounted() && launch != null && controller.Some?
      modifies this`owned, ledger, launch
      ensures Accounted() && launch.command == old(launch.command)
      ensures exists r: Resource :: r.kind == TrafficPipe && owned == [controller.value.handle] + ([r] + old(launch.Held()))
      ensures old(owned) != [] && Kinds(owned) == WithPipe(old(Kinds(owned)))
    {
      ghost var held := launch.Held();
      var r := ledger.AcquireSecond(TrafficPipe, controller.value.handle, held);
      launch.AddRelease(r);
      PipeKinds(controller.value.handle, r, held);
      owned := [controller.value.handle] + ([r] + held);
    }

    method RestartCore(env: StartEnv) returns (ok: bool)
      requires Valid() && env.pid > 0
      modifies Objects()
      ensures Valid() && Abs() == Restart(old(Abs()), if ok then Some(env.pid) else None)
      ensures ok <==> Succeeds(env)
      ensures ok ==> OwnsSession(env)
    {
      StopCoreLocked();
      ok := StartCoreLocked(env);
    }
  }

  lemma BegunChannels(c: Core)
    requires Steady(c)
    ensures ChannelsClosedOnce(c.(running := true, stopChan := Some(c.sessions), sessions := c.sessions + 1))
  {
  }
}
