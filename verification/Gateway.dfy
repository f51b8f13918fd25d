/** The LAN gateway manager (route/lanternapi/lantern.go): starting, reconfiguring and stopping the
    gateway while a stack of recorded forwarding changes grows and unwinds. */
module Gateway {
  import opened Runs
  import opened Forwarding

  // ---- the stack discipline, for every run ------------------------------------------------

  /** The answers of the environment to one `prepareForwarding` call. */
  datatype PrepareEnv = PrepareEnv(
    iface: string, ipv6: bool, glob: seq<string>, denied: set<Sysctl>, writes: WriteEnv)

  ghost predicate Present(w: World, env: PrepareEnv) {
    env.iface != "all" && Lists(w, env.glob) && AllPresent(w, env.iface, env.ipv6, env.glob)
  }

  ghost function PlanFor(w: World, env: PrepareEnv): seq<Setting>
    requires AllPresent(w, env.iface, env.ipv6, env.glob)
  {
    Planned(w, env.iface, env.ipv6, env.glob)
  }

  /** No failing write strikes while an interface entry is endangered. */
  ghost predicate Safely(w: World, env: PrepareEnv) {
    PreparesSafely(w, env.iface, env.ipv6, env.glob, env.writes)
  }

  /** Two things a caller can look at beforehand, each of which makes a prepare safe: every file can
      be read again after a failure, or all other interfaces forward already. */
  ghost predicate Harmless(w: World, env: PrepareEnv) {
    env.writes.unread == {} || OthersForward(w, env.iface, env.ipv6, env.glob)
  }

  lemma HarmlessIsSafe(w: World, env: PrepareEnv)
    requires env.iface != "all" && Harmless(w, env)
    ensures Safely(w, env)
  {
    if env.writes.unread != {} {
      SafeIfOthersForward(w, env.iface, env.ipv6, env.glob, env.writes);
    }
  }

  /** The sysctl table, the recorded changes, oldest first, and whether all prepares were safe. */
  datatype Tracked = Tracked(world: World, stack: seq<seq<Setting>>, safe: bool)

  datatype Change = Prepared(env: PrepareEnv) | Undone

  /** The table and record that writing a list leaves. */
  ghost function Written(w: World, ss: seq<Setting>, env: WriteEnv): (r: (World, seq<Setting>))
    ensures Outcome(w, ss, env, r.0, r.1)
  {
    if !Fails(env, ss) then (PutAll(w, ValueWrites(ss)), ss)
    else
      var now := Partly(w, ss, env.failAt.value);
      var again := Reread(now, ss, env.unread);
      if forall s :: s in again ==> s.key !in now || s.key !in env.blocked then (Restored(now, again), []) else (now, again)
  }

  /** A prepare, complete or failed, pushes the record it leaves; only the youngest record is ever
      undone. */
  ghost function Step(t: Tracked, c: Change): Option<Tracked> {
    match c
    case Prepared(env) =>
      if Present(t.world, env) then
        var (world, left) := Written(t.world, PlanFor(t.world, env), env.writes);
        Some(Tracked(world, t.stack + [left], t.safe && Safely(t.world, env)))
      else None
    case Undone =>
      if t.stack == [] then None
      else Some(t.(world := Restored(t.world, t.stack[|t.stack| - 1]), stack := t.stack[..|t.stack| - 1]))
  }

  /** Undoing all recorded changes, youngest first. */
  ghost function Unwind(w: World, stack: seq<seq<Setting>>): World
    decreases |stack|
  {
    if stack == [] then w
    else Unwind(Restored(w, stack[|stack| - 1]), stack[..|stack| - 1])
  }

  lemma UnwindPush(w: World, w': World, stack: seq<seq<Setting>>, ss: seq<Setting>)
    requires Restored(w', ss) == w
    ensures Unwind(w', stack + [ss]) == Unwind(w, stack)
  {
    assert (stack + [ss])[..|stack|] == stack;
  }

  lemma PlanUndone(w: World, env: PrepareEnv, after: World, left: seq<Setting>)
    requires Present(w, env) && Outcome(w, PlanFor(w, env), env.writes, after, left)
    ensures after.Keys == w.Keys
    ensures Restored(after, left) == w <==> Safely(w, env)
    ensures Fails(env.writes, PlanFor(w, env)) && RollsBack(env) ==> after == w && left == []
  {
    PlanIsRecord(w, env.iface, env.ipv6, env.glob);
    PlanIsShaped(w, env.iface, env.ipv6, env.glob);
    OutcomeUndone(w, PlanFor(w, env), env.writes, after, left);
  }

  /** Every safe change keeps the table that a full unwinding would give. */
  lemma StepKeepsOrigin(t: Tracked, c: Change)
    requires Step(t, c).Some?
    ensures Step(t, c).value.safe ==>
              t.safe && Unwind(Step(t, c).value.world, Step(t, c).value.stack) == Unwind(t.world, t.stack)
  {
    match c
    case Prepared(env) =>
      var (world, left) := Written(t.world, PlanFor(t.world, env), env.writes);
      PlanUndone(t.world, env, world, left);
      if Safely(t.world, env) {
        UnwindPush(t.world, world, t.stack, left);
      }
    case Undone =>
  }

  /** Any nesting of changes from a given table on. */
  ghost function Nested(origin: World): Machine<Tracked, Change> {
    Machine(Tracked(origin, [], true), Step)
  }

  /** In any run of nested changes whose writes were safe, the table is back at its first value
      whenever the stack is empty, and one unwinding away from it at every other moment. */
  lemma NestedChangesUnwind(origin: World, changes: seq<Change>)
    requires Nested(origin).Reached(changes)
    ensures var t := Nested(origin).Exec(changes).value;
            t.safe ==> Unwind(t.world, t.stack) == origin && (t.stack == [] ==> t.world == origin)
  {
    var kept := (t: Tracked) => t.safe ==> Unwind(t.world, t.stack) == origin;
    forall t, c | kept(t) && Step(t, c).Some? ensures kept(Step(t, c).value) { StepKeepsOrigin(t, c); }
    Nested(origin).Always(kept, changes, |changes|);
    assert changes[..|changes|] == changes;
  }

  // ---- the manager ------------------------------------------------------------------------

  /** What the foreign controller reports for a stop request. */
  datatype StopOutcome = Stopped | FailedButDone | StillRunning

  /** A failing write is rolled back with every file readable. */
  predicate RollsBack(env: PrepareEnv) {
    env.writes.unread == {} && env.writes.blocked == {}
  }

  /** All wanted values are in force on top of `w`. */
  ghost predicate Established(w: World, now: World, env: PrepareEnv) {
    && AllPresent(w, env.iface, env.ipv6, env.glob)
    && now == PutAll(w, ValueWrites(Planned(w, env.iface, env.ipv6, env.glob)))
  }

  /** What that means for each file. */
  lemma EstablishedMeans(w: World, now: World, env: PrepareEnv, k: Sysctl)
    requires Present(w, env) && Established(w, now, env) && k in w
    ensures now.Keys == w.Keys && now[k] == Wanted(w, env.iface, env.ipv6, k)
  {
    PrepareMeaning(w, env.iface, env.ipv6, env.glob, k);
  }

  /** Exactly when a prepare succeeds. */
  ghost predicate WillPrepare(w: World, env: PrepareEnv) {
    && env.iface !in {"", ".", ".."} && '/' !in env.iface && '\\' !in env.iface
    && (forall c :: c in Candidates(env.iface, env.ipv6, env.glob) ==> c.key in w && c.key !in env.denied)
    && !Fails(env.writes, PlanFor(w, env))
  }

  /** What a prepare leaves can be undone if and only if it wrote safely, and it did whenever that
      could be seen beforehand. */
  method Prepare(sys: SysctlTable, env: PrepareEnv) returns (f: ForwardingState?, ok: bool)
    requires env.iface != "all" && Lists(sys.values, env.glob)
    modifies sys
    ensures sys.values.Keys == old(sys.values).Keys
    ensures f == null ==> !ok && sys.values == old(sys.values)
    ensures f != null ==> fresh(f) && (Restored(sys.values, f.settings) == old(sys.values) <==> Safely(old(sys.values), env))
    ensures !ok && RollsBack(env) ==> sys.values == old(sys.values)
    ensures ok || Harmless(old(sys.values), env) ==> Safely(old(sys.values), env)
    ensures ok <==> WillPrepare(old(sys.values), env)
    ensures ok ==> f != null && Established(old(sys.values), sys.values, env) && f.settings == PlanFor(old(sys.values), env)
  {
    ghost var w := sys.values;
    f, ok := PrepareForwarding(sys, env.iface, env.ipv6, env.glob, env.denied, env.writes);
    if f != null {
      PlanUndone(w, env, sys.values, f.settings);
    }
    if Harmless(w, env) {
      HarmlessIsSafe(w, env);
    }
  }

  /** The controller, if there is one, reports no error and is down afterwards. */
  predicate StopSucceeds(hasController: bool, alive: bool, outcome: StopOutcome) {
    hasController ==> !outcome.FailedButDone? && (alive ==> outcome.Stopped?)
  }

  class Manager {
    const sys: SysctlTable
    ghost const origin: World
    var hasController: bool
    var alive: bool
    var gatewayMode: Option<bool>
    var closed: bool
    var probing: bool
    var forwarding: ForwardingState?
    var forwardingUpdates: seq<ForwardingState>
    ghost var stack: seq<seq<Setting>>
    /** Every prepare so far wrote safely. */
    ghost var safe: bool

    constructor (sys: SysctlTable)
      ensures Valid() && fresh(this) && this.sys == sys && origin == sys.values
      ensures forwarding == null && forwardingUpdates == [] && !alive && safe
    {
      this.sys := sys;
      this.origin := sys.values;
      hasController, alive, gatewayMode, closed, probing := false, false, None, false, false;
      forwarding, forwardingUpdates, stack, safe := null, [], [], true;
    }

    ghost function Owned(): set<object>
      reads this
    {
      {this, sys} + (set u | u in forwardingUpdates) + (if forwarding == null then {} else {forwarding})
    }

    /** Non-empty updates imply a base record, the records are separate objects, a live gateway
        has a base record, and unwinding them all leads back to the table before the first start. */
    ghost predicate Valid()
      reads this, sys, forwarding, forwardingUpdates
    {
      && (forwardingUpdates != [] ==> forwarding != null)
      && (forall i, j :: 0 <= i < j < |forwardingUpdates| ==> forwardingUpdates[i] != forwardingUpdates[j])
      && forwarding !in forwardingUpdates
      && (alive ==> hasController && gatewayMode.Some? && (gatewayMode.value ==> forwarding != null))
      && (forwarding == null ==> stack == [])
      && (forwarding != null ==>
            && |stack| == 1 + |forwardingUpdates|
            && stack[0] == forwarding.settings
            && forall i :: 0 <= i < |forwardingUpdates| ==> stack[i + 1] == forwardingUpdates[i].settings)
      && sys.values.Keys == origin.Keys
      && (safe ==> Unwind(sys.values, stack) == origin)
    }

    predicate Running()
      reads this
    {
      hasController && alive
    }

    /** The controller may end on its own at any time. */
    method ControllerExits()
      requires Valid()
      modifies this`alive
      ensures Valid() && !alive
    {
      alive := false;
    }

    /** `denied` are files that cannot be read during this call.  When none is and the controller
        is down, a stop gives the sysctl table back exactly as it was before the gateway started. */
    method StopLocked(outcome: StopOutcome, denied: set<Sysctl>) returns (ok: bool)
      requires Valid()
      modifies Owned()
      ensures Valid()
      ensures old(Running()) && outcome.StillRunning? ==>
                !ok && sys.values == old(sys.values) && forwarding == old(forwarding) &&
                forwardingUpdates == old(forwardingUpdates) && alive
      ensures !(old(Running()) && outcome.StillRunning?) ==> !alive
      ensures !(old(Running()) && outcome.StillRunning?) && denied == {} ==>
                forwarding == null && forwardingUpdates == [] && (safe ==> sys.values == origin)
      ensures ok ==> !alive && forwarding == null && forwardingUpdates == [] && (safe ==> sys.values == origin)
      ensures denied == {} ==> (ok <==> StopSucceeds(old(hasController), old(alive), outcome))
      ensures Owned() <= old(Owned()) && safe == old(safe)
      ensures closed == old(closed) && probing == old(probing) && hasController == old(hasController)
      ensures gatewayMode == old(gatewayMode)
    {
      ok := true;
      if hasController {
        if alive && outcome.StillRunning? {
          ok := false;
          return;
        }
        alive := false;
        if outcome.FailedButDone? {
          ok := false;
        }
      }
      if forwarding != null {
        var restored := RestoreAll(denied);
        if !restored {
          return false;
        }
      }
    }

    /** Undo the nested updates and then the base record. */
    method RestoreAll(denied: set<Sysctl>) returns (restored: bool)
      requires Valid() && !alive && forwarding != null
      modifies this`forwarding, this`forwardingUpdates, this`stack, sys, forwarding, forwardingUpdates
      ensures Valid() && Owned() <= old(Owned())
      ensures restored ==> forwarding == null && forwardingUpdates == [] && (safe ==> sys.values == origin)
      ensures denied == {} ==> restored
    {
      restored := RestoreUpdates(denied);
      if !restored {
        return;
      }
      PutAllKeys(sys.values, RestoreWrites(sys.values, forwarding.settings));
      restored := forwarding.Restore(sys, denied);
      if restored {
        forwarding, stack := null, [];
      }
    }

    /** Undo the nested updates, youngest first. */
    method RestoreUpdates(denied: set<Sysctl>) returns (restored: bool)
      requires Valid() && !alive && forwarding != null
      modifies this`forwardingUpdates, this`stack, sys, forwardingUpdates
      ensures Valid() && |forwardingUpdates| <= |old(forwardingUpdates)|
      ensures forwardingUpdates == old(forwardingUpdates)[..|forwardingUpdates|]
      ensures restored ==> forwardingUpdates == []
      ensures denied == {} ==> restored
    {
      while |forwardingUpdates| > 0
        invariant Valid() && |forwardingUpdates| <= |old(forwardingUpdates)|
        invariant forwardingUpdates == old(forwardingUpdates)[..|forwardingUpdates|]
        decreases |forwardingUpdates|
      {
        restored := RestoreYoungest(denied);
        if !restored {
          return;
        }
      }
      restored := true;
    }

    /** Undo the youngest nested update and pop it. */
    method RestoreYoungest(denied: set<Sysctl>) returns (restored: bool)
      requires Valid() && forwardingUpdates != [] && !alive
      modifies this`forwardingUpdates, this`stack, sys, forwardingUpdates[|forwardingUpdates| - 1]
      ensures Valid()
      ensures restored ==> forwardingUpdates == old(forwardingUpdates)[..|old(forwardingUpdates)| - 1]
      ensures !restored ==> forwardingUpdates == old(forwardingUpdates) && sys.values == old(sys.values)
      ensures denied == {} ==> restored
    {
      var i := |forwardingUpdates| - 1;
      PutAllKeys(sys.values, RestoreWrites(sys.values, forwardingUpdates[i].settings));
      restored := forwardingUpdates[i].Restore(sys, denied);
      if restored {
        forwardingUpdates := forwardingUpdates[..i];
        stack := stack[..i + 1];
      }
    }

    /** Record a prepared change on top of the stack. */
    method Push(f: ForwardingState, ghost w: World)
      requires PendingOn(f, w)
      modifies this`forwardingUpdates, this`stack
      ensures Valid() && forwardingUpdates == old(forwardingUpdates) + [f]
    {
      if safe {
        UnwindPush(w, sys.values, stack, f.settings);
      }
      forwardingUpdates := forwardingUpdates + [f];
      stack := stack + [f.settings];
    }

    /** `f` undoes the step from `w` to the current table, and everything below it is in order. */
    ghost predicate PendingOn(f: ForwardingState, w: World)
      reads this, sys, forwarding, forwardingUpdates, f
    {
      && forwarding != null && f != forwarding && f !in forwardingUpdates
      && (forall i, j :: 0 <= i < j < |forwardingUpdates| ==> forwardingUpdates[i] != forwardingUpdates[j])
      && forwarding !in forwardingUpdates
      && (alive ==> hasController && gatewayMode.Some?)
      && |stack| == 1 + |forwardingUpdates|
      && stack[0] == forwarding.settings
      && (forall i :: 0 <= i < |forwardingUpdates| ==> stack[i + 1] == forwardingUpdates[i].settings)
      && sys.values.Keys == origin.Keys
      && (safe ==> Restored(sys.values, f.settings) == w && Unwind(w, stack) == origin)
    }

    /** The first change of a gateway session becomes the base record, even if it failed and its
        rollback is still to be done. */
    method PrepareBase(env: PrepareEnv) returns (ok: bool)
      requires Valid() && env.iface != "all" && Lists(sys.values, env.glob)
      requires forwarding == null && !alive
      modifies this`forwarding, this`stack, this`safe, sys
      ensures Valid() && forwardingUpdates == old(forwardingUpdates)
      ensures forwarding != null ==> fresh(forwarding)
      ensures safe == (old(safe) && (forwarding == null || Safely(old(sys.values), env)))
      ensures ok || Harmless(old(sys.values), env) ==> safe == old(safe)
      ensures !ok && (forwarding == null || RollsBack(env)) ==> sys.values == old(sys.values)
      ensures ok <==> WillPrepare(old(sys.values), env)
      ensures ok ==>
                && forwarding != null && forwarding.settings == PlanFor(old(sys.values), env)
                && Established(old(sys.values), sys.values, env)
    {
      ghost var w := sys.values;
      var f;
      f, ok := Prepare(sys, env);
      if f != null {
        RecordBase(f, w, Safely(w, env));
      }
    }

    method RecordBase(f: ForwardingState, ghost w: World, ghost safely: bool)
      requires !alive && forwarding == null && forwardingUpdates == [] && sys.values.Keys == origin.Keys
      requires (safe ==> w == origin) && (safely ==> Restored(sys.values, f.settings) == w)
      modifies this`forwarding, this`stack, this`safe
      ensures Valid() && forwarding == f && safe == (old(safe) && safely)
    {
      if safe && safely {
        UnwindPush(w, sys.values, [], f.settings);
      }
      forwarding, stack, safe := f, [f.settings], safe && safely;
    }

    /** A later change is prepared, but not yet on the stack. */
    method PrepareUpdate(env: PrepareEnv) returns (f: ForwardingState?, ok: bool)
      requires Valid() && env.iface != "all" && Lists(sys.values, env.glob) && forwarding != null
      modifies sys, this`safe
      ensures f == null ==> !ok && Valid() && safe == old(safe) && sys.values == old(sys.values)
      ensures f != null ==> fresh(f) && PendingOn(f, old(sys.values)) && safe == (old(safe) && Safely(old(sys.values), env))
      ensures Harmless(old(sys.values), env) ==> safe == old(safe)
      ensures !ok && RollsBack(env) ==> sys.values == old(sys.values)
      ensures ok <==> WillPrepare(old(sys.values), env)
      ensures ok ==>
                && f != null && f.settings == PlanFor(old(sys.values), env) && Safely(old(sys.values), env)
                && Established(old(sys.values), sys.values, env)
    {
      ghost var w := sys.values;
      f, ok := Prepare(sys, env);
      if f != null {
        safe := safe && Safely(w, env);
      }
    }

    predicate Admits(gateway: bool)
      reads this
    {
      !closed && !probing && !(Running() && gatewayMode == Some(true) && gateway)
    }

    /** `checks` stands for everything decided before the old controller is stopped: request
        decoding, interface selection, DHCP probe, normalisation and controller construction.
        `cleanup` is the outcome of the stop that follows an incomplete start. */
    method Start(gateway: bool, checks: bool, stop: StopOutcome, unreadable: set<Sysctl>,
                 env: PrepareEnv, starts: bool, complete: bool, cleanup: StopOutcome)
      returns (ok: bool)
      requires Valid() && env.iface != "all" && Lists(sys.values, env.glob)
      modifies Owned()
      ensures Valid()
      // A request is refused while the service ends, a probe is running, or a gateway is running and
      // another one is asked for; then nothing changes.
      ensures old(closed || probing || (Running() && gatewayMode == Some(true) && gateway)) || !checks ==>
                !ok && sys.values == old(sys.values) && alive == old(alive) && forwarding == old(forwarding) &&
                forwardingUpdates == old(forwardingUpdates) && gatewayMode == old(gatewayMode)
      // Exactly when a start works, with all files readable for the stop before it.
      ensures old(safe) && unreadable == {} ==>
                (ok <==>
                 && !old(closed || probing || (Running() && gatewayMode == Some(true) && gateway)) && checks
                 && StopSucceeds(old(hasController), old(alive), stop)
                 && (gateway ==> WillPrepare(origin, env) && complete) && starts)
      ensures ok ==> alive && gatewayMode == Some(gateway)
      ensures ok && !gateway ==> forwarding == null && (safe ==> sys.values == origin)
      ensures ok && gateway ==> forwarding != null && forwardingUpdates == [] && (safe ==> Established(origin, sys.values, env))
      ensures ok ==> safe == old(safe)
      // Nothing unsafe happens unless some other interface does not forward and a failing write meets
      // files that cannot be read again.
      ensures old(safe) && Harmless(origin, env) ==> safe
      // With all files readable, a failed start has changed nothing, or is back at the origin, or
      // has left a controller running that refused to stop.
      ensures !ok && safe && unreadable == {} && RollsBack(env) ==>
                sys.values == old(sys.values) || sys.values == origin || alive
      ensures closed == old(closed) && probing == old(probing)
    {
      ok := false;
      if !Admits(gateway) {
        return;
      }
      if !checks {
        return;
      }
      var stopped := StopLocked(stop, unreadable);
      if !stopped {
        return;
      }
      ok := StartController(gateway, unreadable, env, starts, complete, cleanup);
    }

    /** The part of a start that follows the stop. */
    method StartController(gateway: bool, unreadable: set<Sysctl>, env: PrepareEnv, starts: bool, complete: bool, cleanup: StopOutcome)
      returns (ok: bool)
      requires Valid() && env.iface != "all" && Lists(sys.values, env.glob)
      requires !alive && forwarding == null && forwardingUpdates == [] && (safe ==> sys.values == origin)
      modifies this, sys
      ensures Valid() && closed == old(closed) && probing == old(probing)
      ensures ok <==> (gateway ==> WillPrepare(old(sys.values), env) && complete) && starts
      ensures ok ==> alive && gatewayMode == Some(gateway) && safe == old(safe)
      ensures ok && !gateway ==> forwarding == null && (safe ==> sys.values == origin)
      ensures ok && gateway ==> forwarding != null && forwardingUpdates == [] && (safe ==> Established(origin, sys.values, env))
      ensures old(safe) && Harmless(origin, env) ==> safe
      ensures !ok && safe && unreadable == {} && RollsBack(env) ==> sys.values == origin || alive
    {
      ok := false;
      if gateway {
        var prepared := PrepareBase(env);
        if !prepared {
          return;
        }
      }
      ok := RunController(gateway, unreadable, starts, complete, cleanup);
    }

    /** Starts the controller; an incomplete start is stopped again. */
    method RunController(gateway: bool, unreadable: set<Sysctl>, starts: bool, complete: bool, cleanup: StopOutcome)
      returns (ok: bool)
      requires Valid() && !alive && (gateway ==> forwarding != null) && forwardingUpdates == []
      modifies Owned()
      ensures Valid() && closed == old(closed) && probing == old(probing) && safe == old(safe)
      ensures ok <==> starts && (gateway ==> complete)
      ensures ok ==>
                && alive && gatewayMode == Some(gateway)
                && sys.values == old(sys.values) && forwarding == old(forwarding) && forwardingUpdates == []
      ensures !ok && safe && unreadable == {} ==> sys.values == origin || alive
    {
      ok := false;
      if !starts {
        var cleaned := StopLocked(cleanup, unreadable);
        return;
      }
      hasController, alive, gatewayMode := true, true, Some(gateway);
      if gateway && !complete {
        var cleaned := StopLocked(cleanup, unreadable);
        return;
      }
      ok := true;
    }

    /** `ready` means the kernel already forwards for the chosen interface; `applies` is the
        outcome of handing the options to the controller. */
    method Configure(checks: bool, ready: bool, env: PrepareEnv, applies: bool, unreadable: set<Sysctl>)
      returns (ok: bool)
      requires Valid() && env.iface != "all" && Lists(sys.values, env.glob)
      modifies Owned()
      ensures Valid()
      ensures forwarding == old(forwarding) && alive == old(alive) && gatewayMode == old(gatewayMode)
      ensures old(forwardingUpdates) <= forwardingUpdates && |forwardingUpdates| <= |old(forwardingUpdates)| + 1
      ensures ok && ready ==> sys.values == old(sys.values) && forwardingUpdates == old(forwardingUpdates)
      // Success leaves every wanted value in force and the plan on top of the stack.
      ensures ok && !ready ==>
                && |forwardingUpdates| == |old(forwardingUpdates)| + 1
                && Established(old(sys.values), sys.values, env)
                && forwardingUpdates[|forwardingUpdates| - 1].settings == PlanFor(old(sys.values), env)
      ensures ok <==>
                && old(!closed && !probing && Running() && gatewayMode == Some(true))
                && checks && applies && (ready || WillPrepare(old(sys.values), env))
      ensures !old(!closed && !probing && Running() && gatewayMode == Some(true)) || !checks ==>
                sys.values == old(sys.values) && forwardingUpdates == old(forwardingUpdates)
      ensures ok ==> safe == old(safe)
      ensures old(safe) && Harmless(old(sys.values), env) ==> safe
      ensures !ok && safe && unreadable == {} && RollsBack(env) ==> sys.values == old(sys.values)
    {
      ok := false;
      if !Configurable() || !checks {
        return;
      }
      ghost var w := sys.values;
      if ready {
        return applies;
      }
      var f, prepared := PrepareUpdate(env);
      if !prepared {
        if f != null {
          Push(f, w);
        }
        return;
      }
      ok := applies;
      FinishUpdate(f, w, applies, unreadable);
    }

    predicate Configurable()
      reads this
    {
      !closed && !probing && Running() && gatewayMode == Some(true)
    }

    /** The change goes on the stack if the options were applied, or if it cannot be undone now. */
    method FinishUpdate(f: ForwardingState, ghost w: World, applies: bool, unreadable: set<Sysctl>)
      requires PendingOn(f, w)
      modifies this`forwardingUpdates, this`stack, sys, f
      ensures Valid()
      ensures applies ==> sys.values == old(sys.values) && f.settings == old(f.settings)
      ensures applies ==> forwardingUpdates == old(forwardingUpdates) + [f]
      ensures forwardingUpdates == old(forwardingUpdates) || forwardingUpdates == old(forwardingUpdates) + [f]
      ensures !applies && safe && unreadable == {} ==> sys.values == w && forwardingUpdates == old(forwardingUpdates)
    {
      if applies {
        Push(f, w);
        return;
      }
      PutAllKeys(sys.values, RestoreWrites(sys.values, f.settings));
      var restored := f.Restore(sys, unreadable);
      if !restored {
        Push(f, w);
      }
    }

    /** Service shutdown closes the manager for good and stops the gateway. */
    method Shutdown(outcome: StopOutcome, unreadable: set<Sysctl>) returns (ok: bool)
      requires Valid()
      modifies Owned()
      ensures Valid() && closed && safe == old(safe)
      ensures !(old(Running()) && outcome.StillRunning?) ==> !alive
      ensures !(old(Running()) && outcome.StillRunning?) && unreadable == {} ==>
                forwarding == null && forwardingUpdates == [] && (safe ==> sys.values == origin)
      ensures unreadable == {} ==> (ok <==> StopSucceeds(old(hasController), old(alive), outcome))
      ensures ok ==> (safe ==> sys.values == origin) && forwarding == null && forwardingUpdates == []
    {
      closed := true;
      ok := StopLocked(outcome, unreadable);
    }
  }
}
