/** The core process manager (core/manager.go, core/manager_start.go, core/manager_takeover.go,
    core/runtime_state.go): start, stop, restart, crash recovery, takeover and adoption.

    `Core` is what the manager's mutex protects.  Every function below is one section of code that
    runs while the mutex is held; `System` adds the goroutines between such sections. */
module CoreManager {
  import opened Runs

  const MaxCrashRestarts := 3
  const RecoveryTries := 3

  /** Sessions are numbered; controller, launch record, stop channel and command of one session
      carry its number.  `group` is the controller in whose process group `pid` was found, and
      `closed` lists the stop channels closed so far. */
  datatype Core = Core(
    running: bool,
    monitoring: bool,
    pid: int,
    group: nat,
    controller: Option<nat>,
    launch: Option<nat>,
    stopChan: Option<nat>,
    cmd: Option<nat>,
    restartAttempts: nat,
    sessions: nat,
    closed: seq<nat>)

  const NewCore: Core := Core(false, false, 0, 0, None, None, None, None, 0, 0, [])

  // ---- sections of code under the mutex ---------------------------------------------------

  /** signalStopLocked and cleanupLocked after monitoring has been switched off. */
  function TornDown(c: Core): Core {
    c.(running := false, monitoring := false, pid := 0, group := 0, controller := None, launch := None, stopChan := None,
       cmd := None, closed := c.closed + if c.stopChan.Some? then [c.stopChan.value] else [])
  }

  /** startCoreLocked; `started` is the new process, or `None` when some step failed. */
  function Start(c: Core, started: Option<int>): Core {
    if c.running then c
    else if started.None? then TornDown(c.(stopChan := Some(c.sessions), sessions := c.sessions + 1))
    else c.(running := true, monitoring := true, pid := started.value, group := c.sessions,
            controller := Some(c.sessions), launch := Some(c.sessions), stopChan := Some(c.sessions),
            cmd := Some(c.sessions), sessions := c.sessions + 1)
  }

  predicate NothingToStop(c: Core) {
    c.pid == 0 && c.controller.None? && c.launch.None? && !c.running
  }

  function Stop(c: Core): Core {
    if NothingToStop(c) then c else TornDown(c)
  }

  function Restart(c: Core, started: Option<int>): Core {
    Start(Stop(c), started)
  }

  function FinishExpectedExit(c: Core, cmd: nat): Core {
    if c.cmd == Some(cmd) then TornDown(c) else c
  }

  /** The committing section of a takeover: the session seen earlier must still be the current one. */
  function CommitTakeover(c: Core, controller: nat, newPid: int): Core {
    if c.monitoring && c.controller == Some(controller)
    then c.(cmd := None, pid := newPid, group := controller)
    else c
  }

  function CommitNotification(c: Core, launch: nat, controller: Option<nat>, oldPid: int, newPid: int): Core {
    if c.monitoring && c.launch == Some(launch) && c.controller == controller && newPid != oldPid && controller.Some?
    then c.(cmd := None, pid := newPid, group := controller.value)
    else c
  }

  /** handleProcessExit after a takeover has failed. */
  function Exit(c: Core): Core {
    if NothingToStop(c) then c else TornDown(c.(restartAttempts := c.restartAttempts + 1))
  }

  predicate SpawnsRecovery(c: Core) {
    !NothingToStop(c) && c.restartAttempts + 1 <= MaxCrashRestarts
  }

  function Adopt(c: Core, pid: int): Core {
    c.(running := true, monitoring := true, pid := pid, group := c.sessions, controller := Some(c.sessions),
       launch := Some(c.sessions), stopChan := Some(c.sessions), cmd := None, sessions := c.sessions + 1)
  }

  // ---- what holds whenever the mutex is free ----------------------------------------------

  ghost predicate Idle(c: Core) {
    && !c.running && !c.monitoring && c.pid == 0
    && c.controller.None? && c.launch.None? && c.stopChan.None? && c.cmd.None?
  }

  /** Everything is present, belongs to one session, and the recorded process was found in the
      group of the installed controller. */
  ghost predicate FullyRunning(c: Core) {
    && c.running && c.monitoring && c.pid > 0
    && c.controller.Some? && c.launch == c.controller && c.stopChan == c.controller
    && (c.cmd.Some? ==> c.cmd == c.controller)
    && c.group == c.controller.value
  }

  /** Channels are closed at most once, and the current one is open. */
  ghost predicate ChannelsClosedOnce(c: Core) {
    && (forall i, j :: 0 <= i < j < |c.closed| ==> c.closed[i] != c.closed[j])
    && (forall ch :: ch in c.closed ==> ch < c.sessions)
    && (c.stopChan.Some? ==> c.stopChan.value < c.sessions && c.stopChan.value !in c.closed)
  }

  ghost predicate Steady(c: Core) {
    (Idle(c) || FullyRunning(c)) && ChannelsClosedOnce(c)
  }

  lemma TearDownSteady(c: Core)
    requires ChannelsClosedOnce(c)
    ensures Idle(TornDown(c)) && ChannelsClosedOnce(TornDown(c))
  {
  }

  /** Each section leads from a steady state to a steady state. */
  lemma SectionsKeepSteady(c: Core, started: Option<int>, cmd: nat, controller: nat, oldPid: int, newPid: int)
    requires Steady(c) && newPid > 0 && (started.Some? ==> started.value > 0)
    ensures Steady(Start(c, started)) && Steady(Stop(c)) && Idle(Stop(c)) && Steady(Restart(c, started))
    ensures Steady(FinishExpectedExit(c, cmd)) && Steady(Exit(c)) && Idle(Exit(c))
    ensures Steady(CommitTakeover(c, controller, newPid))
    ensures Steady(CommitNotification(c, cmd, Some(controller), oldPid, newPid))
    ensures Steady(CommitNotification(c, cmd, None, oldPid, newPid))
    ensures Idle(c) ==> Steady(Adopt(c, newPid))
  {
    StartSteady(c, started);
    StopSteady(c);
    TearDownSteady(c);
    TearDownSteady(c.(restartAttempts := c.restartAttempts + 1));
    StartSteady(Stop(c), started);
  }

  lemma StopSteady(c: Core)
    requires Steady(c)
    ensures Steady(Stop(c)) && Idle(Stop(c))
  {
    TearDownSteady(c);
  }

  lemma AdoptSteady(c: Core, pid: int)
    requires Idle(c) && ChannelsClosedOnce(c) && pid > 0
    ensures Steady(Adopt(c, pid))
  {
  }

  lemma StartSteady(c: Core, started: Option<int>)
    requires Steady(c) && (started.Some? ==> started.value > 0)
    ensures Steady(Start(c, started))
  {
    if !c.running && started.None? {
      TearDownSteady(c.(stopChan := Some(c.sessions), sessions := c.sessions + 1));
    }
  }

  // ---- goroutines -------------------------------------------------------------------------

  /** What a task does when no replacement process can be taken over: report a crash exit, or
      finish the expected exit of one command. */
  datatype Goal = Crash | Expected(cmd: nat)

  datatype Task =
    | Watched
    | Polling(goal: Goal)
    | Found(goal: Goal, controller: nat, newPid: int)
    | Leaving(goal: Goal)
    | Notified(launch: nat, seen: Option<nat>, oldPid: int)

  /** `recoveries[i]` is the number of start attempts the i-th recovery goroutine has left. */
  datatype System = System(core: Core, tasks: map<nat, Task>, recoveries: seq<nat>, autoStarts: nat)

  const Boot: System := System(NewCore, map[], [], 0)

  datatype Action =
    | UserStart(started: Option<int>)
    | UserStop
    | UserRestart(started: Option<int>)
    | AdoptRecord(pid: int)
    | ProcessDied(t: nat, cmd: nat, crashed: bool, takeover: bool)
    | PidRead(t: nat)
    | PidGone(t: nat)
    | StrayExit(t: nat)
    | Look(t: nat, found: Option<int>)
    | GiveUp(t: nat)
    | Commit(t: nat)
    | Leave(t: nat)
    | NotifyRead(t: nat, launch: nat)
    | NotifyCommit(t: nat, newPid: int)
    | RecoveryStart(i: nat, started: Option<int>)

  predicate RealPid(p: Option<int>) {
    p.Some? ==> p.value > 0
  }

  function UserStep(s: System, a: Action): Option<System> {
    match a
    case UserStart(started) =>
      if RealPid(started) then Some(s.(core := Start(s.core, started))) else None
    case UserStop => Some(s.(core := Stop(s.core)))
    case UserRestart(started) =>
      if RealPid(started) then Some(s.(core := Restart(s.core, started))) else None
    case AdoptRecord(pid) =>
      // Records are adopted before the service accepts requests.
      if pid > 0 && s == Boot then Some(s.(core := Adopt(s.core, pid))) else None
    case RecoveryStart(i, started) =>
      if i < |s.recoveries| && s.recoveries[i] > 0 && RealPid(started) then
        var succeeds := !s.core.running && started.Some?;
        Some(s.(core := Start(s.core, started),
                recoveries := s.recoveries[i := if succeeds then 0 else s.recoveries[i] - 1],
                autoStarts := s.autoStarts + 1))
      else None
    case _ => None
  }

  function TaskStep(s: System, a: Action): Option<System> {
    match a
    case ProcessDied(t, cmd, crashed, takeover) =>
      if t in s.tasks || s.core.cmd != Some(cmd) then None
      else
        var goal := if crashed then Crash else Expected(cmd);
        Some(s.(tasks := s.tasks[t := if crashed || takeover then Polling(goal) else Leaving(goal)]))
    case PidRead(t) =>
      if t !in s.tasks && s.core.monitoring && s.core.pid > 0 then Some(s.(tasks := s.tasks[t := Watched])) else None
    case PidGone(t) =>
      if t in s.tasks && s.tasks[t].Watched? && s.core.running
      then Some(s.(tasks := s.tasks[t := Polling(Crash)]))
      else None
    case StrayExit(t) =>
      // The polling loop reads without the mutex and may do so in the middle of a section.
      if t in s.tasks then None else Some(s.(tasks := s.tasks[t := Polling(Crash)]))
    case Look(t, found) =>
      if !(t in s.tasks && s.tasks[t].Polling? && RealPid(found)) then None
      else if !s.core.monitoring || !s.core.running || s.core.controller.None? || s.core.launch.None?
      then Some(s.(tasks := s.tasks[t := Leaving(s.tasks[t].goal)]))
      else if found.None? then Some(s)
      else Some(s.(tasks := s.tasks[t := Found(s.tasks[t].goal, s.core.controller.value, found.value)]))
    case GiveUp(t) =>
      if t in s.tasks && (s.tasks[t].Polling? || s.tasks[t].Found?)
      then Some(s.(tasks := s.tasks[t := Leaving(s.tasks[t].goal)]))
      else None
    case Commit(t) =>
      if !(t in s.tasks && s.tasks[t].Found?) then None
      else
        var task := s.tasks[t];
        var valid := s.core.monitoring && s.core.controller == Some(task.controller);
        Some(s.(core := CommitTakeover(s.core, task.controller, task.newPid),
                tasks := if valid then s.tasks - {t} else s.tasks[t := Leaving(task.goal)]))
    case Leave(t) =>
      if !(t in s.tasks && s.tasks[t].Leaving?) then None
      else if s.tasks[t].goal.Expected?
      then Some(s.(core := FinishExpectedExit(s.core, s.tasks[t].goal.cmd), tasks := s.tasks - {t}))
      else Some(s.(core := Exit(s.core), tasks := s.tasks - {t},
                   recoveries := s.recoveries + if SpawnsRecovery(s.core) then [RecoveryTries] else []))
    case NotifyRead(t, launch) =>
      if t in s.tasks then None
      else if !s.core.monitoring || !s.core.running || s.core.launch != Some(launch) then Some(s)
      else Some(s.(tasks := s.tasks[t := Notified(launch, s.core.controller, s.core.pid)]))
    case NotifyCommit(t, newPid) =>
      if t in s.tasks && s.tasks[t].Notified? && newPid > 0
      then Some(s.(core := CommitNotification(s.core, s.tasks[t].launch, s.tasks[t].seen, s.tasks[t].oldPid, newPid),
                   tasks := s.tasks - {t}))
      else None
    case _ => None
  }

  function Step(s: System, a: Action): Option<System> {
    if UserStep(s, a).Some? then UserStep(s, a) else TaskStep(s, a)
  }

  function Sum(xs: seq<nat>): nat {
    if xs == [] then 0 else Sum(xs[..|xs| - 1]) + xs[|xs| - 1]
  }

  lemma {:induction false} SumUpdate(xs: seq<nat>, i: nat, x: nat)
    requires i < |xs|
    ensures Sum(xs[i := x]) == Sum(xs) - xs[i] + x
  {
    if i == |xs| - 1 {
      assert xs[i := x][..i] == xs[..i];
    } else {
      SumUpdate(xs[..|xs| - 1], i, x);
      assert xs[i := x][..|xs| - 1] == xs[..|xs| - 1][i := x];
    }
  }

  ghost predicate TasksSane(s: System) {
    forall t :: t in s.tasks && s.tasks[t].Found? ==> s.tasks[t].newPid > 0
  }

  /** Recoveries are only spawned by the first exits, and every automatic start uses up a try. */
  ghost predicate Bounded(s: System) {
    && |s.recoveries| <= MaxCrashRestarts
    && |s.recoveries| <= s.core.restartAttempts
    && (s.core.restartAttempts <= MaxCrashRestarts ==> |s.recoveries| == s.core.restartAttempts)
    && s.autoStarts + Sum(s.recoveries) <= RecoveryTries * |s.recoveries|
  }

  ghost predicate Inv(s: System) {
    Steady(s.core) && TasksSane(s) && Bounded(s)
  }

  lemma UserStepKeepsInv(s: System, a: Action)
    requires Inv(s) && UserStep(s, a).Some?
    ensures Inv(UserStep(s, a).value)
  {
    match a
    case UserStart(started) => StartSteady(s.core, started);
    case UserStop => StopSteady(s.core);
    case UserRestart(started) =>
      StopSteady(s.core);
      StartSteady(Stop(s.core), started);
    case AdoptRecord(pid) => AdoptSteady(s.core, pid);
    case RecoveryStart(i, started) =>
      StartSteady(s.core, started);
      SumUpdate(s.recoveries, i, if !s.core.running && started.Some? then 0 else s.recoveries[i] - 1);
  }

  lemma LeaveKeepsInv(s: System, t: nat)
    requires Inv(s) && TaskStep(s, Leave(t)).Some?
    ensures Inv(TaskStep(s, Leave(t)).value)
  {
    TearDownSteady(s.core);
    TearDownSteady(s.core.(restartAttempts := s.core.restartAttempts + 1));
    assert (s.recoveries + [RecoveryTries])[..|s.recoveries|] == s.recoveries;
    assert s.recoveries + [] == s.recoveries;
  }

  lemma TaskStepKeepsInv(s: System, a: Action)
    requires Inv(s) && TaskStep(s, a).Some?
    ensures Inv(TaskStep(s, a).value)
  {
    match a
    case ProcessDied(_, _, _, _) =>
    case PidRead(_) =>
    case PidGone(_) =>
    case StrayExit(_) =>
    case Look(_, _) =>
    case GiveUp(_) =>
    case Commit(_) =>
    case Leave(t) => LeaveKeepsInv(s, t);
    case NotifyRead(_, _) =>
    case NotifyCommit(_, _) =>
  }

  /** Any interleaving of requests and goroutines. */
  const Lifecycle := Machine(Boot, Step)

  /** Main result for every run: whenever the mutex is free the manager is fully idle or fully
      running, no stop channel has been closed twice, at most three recoveries were ever spawned
      and at most nine automatic starts were made. */
  lemma AlwaysSteady(acts: seq<Action>, i: nat)
    requires Lifecycle.Reached(acts) && i <= |acts|
    ensures Steady(Lifecycle.At(acts, i).core)
    ensures |Lifecycle.At(acts, i).recoveries| <= 3 && Lifecycle.At(acts, i).autoStarts <= 9
    ensures Inv(Lifecycle.At(acts, i))
  {
    forall s, a | Inv(s) && Step(s, a).Some? ensures Inv(Step(s, a).value) {
      if UserStep(s, a).Some? { UserStepKeepsInv(s, a); } else { TaskStepKeepsInv(s, a); }
    }
    Lifecycle.Always(Inv, acts, i);
  }

  /** A crash exit beyond the limit leaves the manager idle and spawns nothing. */
  lemma ExhaustedExitStaysDown(acts: seq<Action>, i: nat, t: nat)
    requires Lifecycle.Reached(acts) && i < |acts| && acts[i] == Leave(t)
    requires t in Lifecycle.At(acts, i).tasks && Lifecycle.At(acts, i).tasks[t] == Leaving(Crash)
    requires Lifecycle.At(acts, i).core.restartAttempts >= MaxCrashRestarts
    ensures Idle(Lifecycle.At(acts, i + 1).core) && Lifecycle.At(acts, i + 1).recoveries == Lifecycle.At(acts, i).recoveries
  {
    AlwaysSteady(acts, i);
    Lifecycle.PrefixRuns(acts, i);
    SectionsKeepSteady(Lifecycle.At(acts, i).core, None, 0, 0, 0, 1);
  }

  // ---- what each action does, in every run ------------------------------------------------

  /** A new session, numbered after all earlier ones, is running process `p`. */
  ghost predicate Begun(before: Core, after: Core, p: int) {
    && FullyRunning(after) && after.pid == p
    && after.controller == Some(before.sessions) && after.sessions == before.sessions + 1
    && after.restartAttempts == before.restartAttempts
  }

  /** The stop channels closed so far, including the current one. */
  function AllClosed(c: Core): seq<nat> {
    c.closed + if c.stopChan.Some? then [c.stopChan.value] else []
  }

  /** A start refuses while a core is running, begins a session, or leaves the manager idle with the
      channel it made closed. */
  ghost predicate StartEffect(before: Core, after: Core, started: Option<int>) {
    if before.running then after == before
    else if started.Some? then Begun(before, after, started.value) && after.cmd == after.controller && after.closed == before.closed
    else
      && Idle(after) && after.sessions == before.sessions + 1 && after.closed == before.closed + [before.sessions]
      && after.restartAttempts == before.restartAttempts
  }

  ghost predicate StopEffect(before: Core, after: Core) {
    && Idle(after) && after.closed == AllClosed(before)
    && after.sessions == before.sessions && after.restartAttempts == before.restartAttempts
  }

  lemma RequestsTakeEffect(acts: seq<Action>, i: nat)
    requires Lifecycle.Reached(acts) && i < |acts|
    ensures var before, after := Lifecycle.At(acts, i).core, Lifecycle.At(acts, i + 1).core;
            && (acts[i].UserStart? ==> StartEffect(before, after, acts[i].started))
            && (acts[i].UserStop? ==> StopEffect(before, after))
            && (acts[i].UserRestart? && acts[i].started.Some? ==>
                  Begun(before, after, acts[i].started.value) && after.closed == AllClosed(before))
            && (acts[i].UserRestart? && acts[i].started.None? ==>
                  Idle(after) && after.closed == AllClosed(before) + [before.sessions] && after.sessions == before.sessions + 1)
            && (acts[i].AdoptRecord? ==> Begun(before, after, acts[i].pid) && after.cmd.None? && after.closed == before.closed)
  {
    AlwaysSteady(acts, i);
    AlwaysSteady(acts, i + 1);
    Lifecycle.PrefixRuns(acts, i);
  }

  /** A recovery makes at most three starts and stops at the first that works. */
  lemma RecoveryTakesEffect(acts: seq<Action>, i: nat, r: nat, started: Option<int>)
    requires Lifecycle.Reached(acts) && i < |acts| && acts[i] == RecoveryStart(r, started)
    ensures var before, after := Lifecycle.At(acts, i), Lifecycle.At(acts, i + 1);
            && r < |before.recoveries| && before.recoveries[r] > 0 && |after.recoveries| == |before.recoveries|
            && StartEffect(before.core, after.core, started)
            && (after.recoveries[r] == if Begun(before.core, after.core, after.core.pid) then 0 else before.recoveries[r] - 1)
            && (forall q :: 0 <= q < |before.recoveries| && q != r ==> after.recoveries[q] == before.recoveries[q])
            && after.autoStarts == before.autoStarts + 1
  {
    AlwaysSteady(acts, i);
    AlwaysSteady(acts, i + 1);
    Lifecycle.PrefixRuns(acts, i);
  }

  /** An expected exit ends the session of its own command, and nothing else. */
  lemma ExpectedExitEndsOwnSession(acts: seq<Action>, i: nat, t: nat, cmd: nat)
    requires Lifecycle.Reached(acts) && i < |acts| && acts[i] == Leave(t)
    requires t in Lifecycle.At(acts, i).tasks && Lifecycle.At(acts, i).tasks[t] == Leaving(Expected(cmd))
    ensures var before, after := Lifecycle.At(acts, i).core, Lifecycle.At(acts, i + 1).core;
            if before.cmd == Some(cmd)
            then before.controller == before.launch == Some(cmd) && StopEffect(before, after)
            else after == before
    ensures Lifecycle.At(acts, i + 1).recoveries == Lifecycle.At(acts, i).recoveries
  {
    AlwaysSteady(acts, i);
    Lifecycle.PrefixRuns(acts, i);
    TearDownSteady(Lifecycle.At(acts, i).core);
  }

  /** A crash exit of a manager that has something to stop ends the session, counts, and spawns one
      recovery with three tries while the count is within the limit. */
  lemma CrashExitTakesEffect(acts: seq<Action>, i: nat, t: nat)
    requires Lifecycle.Reached(acts) && i < |acts| && acts[i] == Leave(t)
    requires t in Lifecycle.At(acts, i).tasks && Lifecycle.At(acts, i).tasks[t] == Leaving(Crash)
    ensures var before, after := Lifecycle.At(acts, i), Lifecycle.At(acts, i + 1);
            if Idle(before.core) then after.core == before.core && after.recoveries == before.recoveries
            else
              && Idle(after.core) && after.core.closed == AllClosed(before.core)
              && after.core.restartAttempts == before.core.restartAttempts + 1
              && after.recoveries == before.recoveries + if after.core.restartAttempts <= 3 then [3] else []
  {
    AlwaysSteady(acts, i);
    Lifecycle.PrefixRuns(acts, i);
    TearDownSteady(Lifecycle.At(acts, i).core.(restartAttempts := Lifecycle.At(acts, i).core.restartAttempts + 1));
  }

  /** Who looks for a replacement process: after a crash always, after an expected exit only where
      takeover is tried; otherwise the exit is finished at once. */
  lemma DeathTakesEffect(acts: seq<Action>, i: nat)
    requires Lifecycle.Reached(acts) && i < |acts| && acts[i].ProcessDied?
    ensures var before, after, a := Lifecycle.At(acts, i), Lifecycle.At(acts, i + 1), acts[i];
            && after.core == before.core && before.core.cmd == Some(a.cmd) && a.t !in before.tasks && a.t in after.tasks
            && after.tasks[a.t] ==
               if a.crashed then Polling(Crash) else if a.takeover then Polling(Expected(a.cmd)) else Leaving(Expected(a.cmd))
  {
    Lifecycle.PrefixRuns(acts, i);
  }

  /** A search goes on while a session is there; it remembers the controller it found a process in. */
  lemma LookTakesEffect(acts: seq<Action>, i: nat, t: nat, found: Option<int>)
    requires Lifecycle.Reached(acts) && i < |acts| && acts[i] == Look(t, found)
    ensures var before, after := Lifecycle.At(acts, i), Lifecycle.At(acts, i + 1);
            && after.core == before.core && t in before.tasks && before.tasks[t].Polling? && t in after.tasks
            && after.tasks[t] ==
               if before.core.controller.None? then Leaving(before.tasks[t].goal)
               else if found.Some? then Found(before.tasks[t].goal, before.core.controller.value, found.value)
               else before.tasks[t]
  {
    AlwaysSteady(acts, i);
    Lifecycle.PrefixRuns(acts, i);
  }

  /** Taking over installs the process found if the session it was found in is still there, and
      otherwise changes nothing and leaves. */
  lemma TakeoverStaysInSession(acts: seq<Action>, i: nat, t: nat)
    requires Lifecycle.Reached(acts) && i < |acts| && acts[i] == Commit(t)
    ensures var before, after := Lifecycle.At(acts, i), Lifecycle.At(acts, i + 1);
            && t in before.tasks && before.tasks[t].Found?
            && var task := before.tasks[t];
               if before.core.controller == Some(task.controller)
               then FullyRunning(after.core) && after.core == before.core.(cmd := None, pid := task.newPid) && t !in after.tasks
               else after.core == before.core && t in after.tasks && after.tasks[t] == Leaving(task.goal)
  {
    AlwaysSteady(acts, i);
    AlwaysSteady(acts, i + 1);
    Lifecycle.PrefixRuns(acts, i);
  }

  /** A startup notification is followed up only for the running session's launch. */
  lemma NotificationIsRead(acts: seq<Action>, i: nat)
    requires Lifecycle.Reached(acts) && i < |acts| && acts[i].NotifyRead?
    ensures var before, after, a := Lifecycle.At(acts, i), Lifecycle.At(acts, i + 1), acts[i];
            after == if before.core.launch == Some(a.launch)
                     then before.(tasks := before.tasks[a.t := Notified(a.launch, before.core.controller, before.core.pid)])
                     else before
  {
    AlwaysSteady(acts, i);
    Lifecycle.PrefixRuns(acts, i);
  }

  /** It installs a different process only if launch and controller are still the same. */
  lemma NotificationTakesEffect(acts: seq<Action>, i: nat)
    requires Lifecycle.Reached(acts) && i < |acts| && acts[i].NotifyCommit?
    ensures var before, after, a := Lifecycle.At(acts, i), Lifecycle.At(acts, i + 1), acts[i];
            && a.t in before.tasks && before.tasks[a.t].Notified?
            && var task := before.tasks[a.t];
               after.core ==
               if before.core.launch == Some(task.launch) && before.core.controller == task.seen && a.newPid != task.oldPid
               then before.core.(cmd := None, pid := a.newPid)
               else before.core
  {
    AlwaysSteady(acts, i);
    Lifecycle.PrefixRuns(acts, i);
  }

  /** The current session is the newest one. */
  ghost predicate Newest(s: System) {
    Inv(s) && (s.core.controller.Some? ==> s.core.controller.value + 1 == s.core.sessions)
  }

  lemma StepKeepsNewest(s: System, a: Action)
    requires Newest(s) && Step(s, a).Some?
    ensures Newest(Step(s, a).value)
  {
    if UserStep(s, a).Some? { UserStepKeepsInv(s, a); } else { TaskStepKeepsInv(s, a); }
  }

  lemma AlwaysNewest(acts: seq<Action>, i: nat)
    requires Lifecycle.Reached(acts) && i <= |acts|
    ensures Newest(Lifecycle.At(acts, i))
  {
    forall s, a | Newest(s) && Step(s, a).Some? ensures Newest(Step(s, a).value) {
      StepKeepsNewest(s, a);
    }
    Lifecycle.Always(Newest, acts, i);
  }

  /** The action by which goroutine `t` learns of the death of the current session's process: its
      crash was waited for, or the polling loop has read its pid. */
  predicate LearnsOfDeath(a: Action, t: nat) {
    (a.ProcessDied? && a.t == t && a.crashed) || a == PidRead(t)
  }

  /** Exactly when a crash exit is harmless to others, whoever noticed it: it ends the session whose
      process died or changes nothing if and only if the manager is idle by then or no session was
      begun since. */
  lemma CrashExitScope(acts: seq<Action>, i: nat, j: nat, t: nat)
    requires Lifecycle.Reached(acts) && i < j < |acts| && LearnsOfDeath(acts[i], t) && acts[j] == Leave(t)
    requires t in Lifecycle.At(acts, j).tasks && Lifecycle.At(acts, j).tasks[t] == Leaving(Crash)
    ensures var died, before, after := Lifecycle.At(acts, i).core, Lifecycle.At(acts, j).core, Lifecycle.At(acts, j + 1).core;
            && died.controller.Some? && (acts[i].ProcessDied? ==> died.controller == Some(acts[i].cmd))
            && (after == before || before.controller == died.controller <==> Idle(before) || before.sessions == died.sessions)
  {
    AlwaysNewest(acts, i);
    AlwaysNewest(acts, j);
    Lifecycle.PrefixRuns(acts, i);
    Lifecycle.PrefixRuns(acts, j);
  }

  /** The limit: a crash exit carries no session identity, so the exit of one session's process
      can tear down the session that replaced it. */
  lemma CrashExitCanEndNewSession() returns (acts: seq<Action>, dead: nat)
    ensures Lifecycle.Reached(acts) && |acts| == 5 && acts[1] == ProcessDied(0, dead, true, true) && acts[4] == Leave(0)
    ensures FullyRunning(Lifecycle.At(acts, 4).core) && Lifecycle.At(acts, 4).core.controller != Some(dead)
    ensures Idle(Lifecycle.At(acts, 5).core)
  {
    var s: System;
    dead := 0;
    acts, s := Lifecycle.Extended([], Boot, UserStart(Some(100)));
    acts, s := Lifecycle.Extended(acts, s, ProcessDied(0, 0, true, true));
    acts, s := Lifecycle.Extended(acts, s, UserRestart(Some(200)));
    acts, s := Lifecycle.Extended(acts, s, GiveUp(0));
    var before := acts;
    assert s.core.controller == Some(1) && FullyRunning(s.core);
    acts, s := Lifecycle.Extended(acts, s, Leave(0));
    assert acts[..4] == before && acts[..5] == acts;
  }

  /** The first session is running process 100. */
  lemma FirstSession() returns (acts: seq<Action>, s: System)
    ensures Lifecycle.Exec(acts) == Some(s) && acts == [UserStart(Some(100))]
    ensures s == System(Core(true, true, 100, 0, Some(0), Some(0), Some(0), Some(0), 0, 1, []), map[], [], 0)
  {
    FirstStep();
    acts, s := Lifecycle.Extended([], Boot, UserStart(Some(100)));
    assert [] + [UserStart(Some(100))] == [UserStart(Some(100))];
  }

  lemma FirstStep()
    ensures Step(Boot, UserStart(Some(100))) ==
            Some(System(Core(true, true, 100, 0, Some(0), Some(0), Some(0), Some(0), 0, 1, []), map[], [], 0))
  {
  }

  /** A process that restarted itself is taken over: the session goes on with the new process. */
  lemma TakeoverHappens() returns (acts: seq<Action>)
    ensures Lifecycle.Reached(acts) && |acts| == 4 && acts[1] == ProcessDied(0, 0, false, true) && acts[3] == Commit(0)
    ensures FullyRunning(Lifecycle.At(acts, 4).core) && Lifecycle.At(acts, 4).core.pid == 200
    ensures Lifecycle.At(acts, 4).core.controller == Some(0)
  {
    var s: System;
    acts, s := FirstSession();
    acts, s := Lifecycle.Extended(acts, s, ProcessDied(0, 0, false, true));
    assert s.tasks == map[0 := Polling(Expected(0))];
    acts, s := Lifecycle.Extended(acts, s, Look(0, Some(200)));
    assert s.tasks == map[0 := Found(Expected(0), 0, 200)];
    acts, s := Lifecycle.Extended(acts, s, Commit(0));
    assert acts[..4] == acts;
  }

  /** An exit noticed by polling ends the session and asks for a recovery. */
  lemma PolledExitIsHandled() returns (acts: seq<Action>)
    ensures Lifecycle.Reached(acts) && |acts| == 5 && acts[1] == PidRead(0) && acts[4] == Leave(0)
    ensures Idle(Lifecycle.At(acts, 5).core) && Lifecycle.At(acts, 5).recoveries == [3]
  {
    var s: System;
    acts, s := FirstSession();
    acts, s := Lifecycle.Extended(acts, s, PidRead(0));
    assert s.tasks == map[0 := Watched];
    acts, s := Lifecycle.Extended(acts, s, PidGone(0));
    assert s.tasks == map[0 := Polling(Crash)];
    acts, s := Lifecycle.Extended(acts, s, GiveUp(0));
    assert s.tasks == map[0 := Leaving(Crash)];
    acts, s := Lifecycle.Extended(acts, s, Leave(0));
    assert acts[..5] == acts;
  }
}
