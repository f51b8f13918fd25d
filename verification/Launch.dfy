/** Launch resources of the core process (core/launch.go, core/launcher.go, core/manager.go,
    core/manager_start.go): startup hook, controller endpoint, sandbox, log writer, log watcher and
    process controller, their composed cleanups, and the one-shot fallback from a sandboxed to a
    direct start. */
module Launch {
  import opened Runs
  import Splitting

  datatype Kind = Hook | Endpoint | Sandbox | Reexec | LogWriter | LogWatcher | ProcessController | TrafficPipe

  /** `serial` numbers acquisitions, so no two acquired resources are equal. */
  datatype Resource = Resource(kind: Kind, serial: nat)

  ghost predicate Distinct(rs: seq<Resource>) {
    forall i, j :: 0 <= i < j < |rs| ==> rs[i] != rs[j]
  }

  /** Everything ever acquired and everything ever released, in order, and what is open now. */
  class Ledger {
    var acquired: seq<Resource>
    var released: seq<Resource>
    var open: set<Resource>

    constructor ()
      ensures acquired == [] && released == [] && open == {} && Valid()
    {
      acquired, released, open := [], [], {};
    }

    /** Acquisitions are numbered, only what was acquired is released, at most once, and the open
        resources are those acquired and not yet released. */
    ghost predicate Valid()
      reads this
    {
      && (forall i :: 0 <= i < |acquired| ==> acquired[i].serial == i)
      && (forall r :: r in released ==> r in acquired)
      && Distinct(released)
      && (forall r :: r in open <==> r in acquired && r !in released)
    }

    method Acquire(kind: Kind) returns (r: Resource)
      requires Valid()
      modifies this
      ensures Valid() && released == old(released) && acquired == old(acquired) + [r] && r.kind == kind
      ensures open == old(open) + {r} && r !in old(open)
    {
      r := Resource(kind, |acquired|);
      acquired, open := acquired + [r], open + {r};
    }

    method Release(r: Resource)
      requires Valid() && r in open
      modifies this
      ensures Valid() && acquired == old(acquired) && released == old(released) + [r]
      ensures open == old(open) - {r}
    {
      released, open := released + [r], open - {r};
    }

    /** The given resources are outstanding, each listed once. */
    ghost predicate Owes(rs: seq<Resource>)
      reads this
    {
      Distinct(rs) && forall r :: r in rs ==> r in open
    }

    /** The account is in order and exactly the given resources are outstanding. */
    ghost predicate OwesExactly(rs: seq<Resource>)
      reads this
    {
      Valid() && Owes(rs) && open == Elems(rs)
    }

    method ReleaseFirst(r: Resource, ghost rest: seq<Resource>)
      requires OwesExactly([r] + rest)
      modifies this
      ensures OwesExactly(rest) && acquired == old(acquired) && released == old(released) + [r]
    {
      SplitDistinct([r], rest);
      assert r in [r];
      Release(r);
    }

    method AcquireOnly(kind: Kind) returns (r: Resource)
      requires OwesExactly([])
      modifies this
      ensures OwesExactly([r] + []) && released == old(released) && r.kind == kind
    {
      r := Acquire(kind);
      assert [r] + [] == [r];
    }

    method AcquireSecond(kind: Kind, ghost first: Resource, ghost rest: seq<Resource>) returns (r: Resource)
      requires OwesExactly([first] + rest)
      modifies this
      ensures OwesExactly([first] + ([r] + rest)) && released == old(released) && r.kind == kind
    {
      assert first in [first] + rest;
      r := Acquire(kind);
      SplitDistinct([first], rest);
      DistinctInsert(first, r, rest);
    }
  }

  lemma DistinctInsert(c: Resource, r: Resource, held: seq<Resource>)
    requires Distinct([c] + held) && r != c && r !in held
    ensures Distinct([c] + ([r] + held))
  {
    var before, after := [c] + held, [c] + ([r] + held);
    forall i, j | 0 <= i < j < |after| ensures after[i] != after[j] {
      assert j >= 2 ==> after[j] == before[j - 1] && after[j] == held[j - 2];
      assert i == 0 ==> after[i] == before[0];
      assert i >= 2 ==> after[i] == before[i - 1];
    }
  }

  /** A registered cleanup either releases one resource or asks the command object to clean up,
      which releases whatever the command holds at that moment. */
  datatype Cleanup = Releases(r: Resource) | CleansCommand

  function AsSeq(r: Option<Resource>): seq<Resource> {
    if r.Some? then [r.value] else []
  }

  /** The resources a cleanup chain releases, in the order in which it does. */
  function Chain(cleanups: seq<Cleanup>, command: Option<Resource>): seq<Resource> {
    if cleanups == [] then []
    else (if cleanups[0].Releases? then [cleanups[0].r] else AsSeq(command)) + Chain(cleanups[1..], command)
  }

  lemma {:induction false} ChainWithoutCommand(cleanups: seq<Cleanup>, c: Option<Resource>, c': Option<Resource>)
    requires CleansCommand !in cleanups
    ensures Chain(cleanups, c) == Chain(cleanups, c')
  {
    if cleanups != [] {
      ChainWithoutCommand(cleanups[1..], c, c');
    }
  }

  /** The chain after registering `rs` one by one. */
  function Registered(rs: seq<Resource>): seq<Cleanup> {
    if rs == [] then [] else [Releases(rs[|rs| - 1])] + Registered(rs[..|rs| - 1])
  }

  /** Registrations are undone in reverse order, each once. */
  lemma {:induction false} ReverseOfRegistration(rs: seq<Resource>, command: Option<Resource>, i: nat)
    requires i < |rs|
    ensures |Chain(Registered(rs), command)| == |rs|
    ensures Chain(Registered(rs), command)[i] == rs[|rs| - 1 - i]
  {
    var front := rs[..|rs| - 1];
    assert Registered(rs)[1..] == Registered(front);
    if front != [] {
      ReverseOfRegistration(front, command, if i == 0 then 0 else i - 1);
    }
  }

  ghost function Elems(rs: seq<Resource>): set<Resource> {
    set r | r in rs
  }

  lemma SplitDistinct(a: seq<Resource>, rest: seq<Resource>)
    requires Distinct(a + rest)
    ensures Distinct(a) && Distinct(rest)
    ensures forall r :: r in a ==> r in a + rest
    ensures forall r :: r in rest ==> r in a + rest && r !in a
  {
    var all := a + rest;
    assert forall i :: 0 <= i < |a| ==> a[i] == all[i];
    assert forall i :: 0 <= i < |rest| ==> rest[i] == all[i + |a|];
  }

  /** A command holds at most one resource: the sandbox or the re-exec helper it runs in. */
  class CoreCommand {
    var cleanup: Option<Resource>
    var hasFallback: bool

    constructor (cleanup: Option<Resource>, hasFallback: bool)
      ensures this.cleanup == cleanup && this.hasFallback == hasFallback
    {
      this.cleanup, this.hasFallback := cleanup, hasFallback;
    }

    method CleanupNow(l: Ledger)
      requires l.Valid() && l.Owes(AsSeq(cleanup))
      modifies this`cleanup, l
      ensures l.Valid() && cleanup.None? && l.acquired == old(l.acquired)
      ensures l.released == old(l.released) + old(AsSeq(cleanup))
      ensures l.open == old(l.open) - Elems(old(AsSeq(cleanup)))
    {
      if cleanup.Some? {
        assert cleanup.value in AsSeq(cleanup);
        l.Release(cleanup.value);
        cleanup := None;
      }
    }

    /** `first` and `second` are the outcomes of the start attempts, `direct` how the fallback
        command is prepared.  What the first command held is released before a direct start is
        tried, and a failed start holds nothing. */
    method Start(l: Ledger, first: bool, direct: DirectEnv, second: bool) returns (ok: bool, attempts: nat)
      requires l.Valid() && l.Owes(AsSeq(cleanup))
      modifies this, l
      ensures l.Valid() && l.Owes(AsSeq(cleanup))
      ensures l.open == old(l.open) - Elems(old(AsSeq(cleanup))) + Elems(AsSeq(cleanup))
      ensures !first ==> old(l.open) !! Elems(AsSeq(cleanup))
      ensures ok <==> first || (old(hasFallback) && DirectPrepares(direct) && second)
      ensures !ok ==> cleanup.None?
      ensures ok && !first ==> cleanup.Some? == direct.affinity && (cleanup.Some? ==> cleanup.value.kind == Reexec)
      ensures first ==> cleanup == old(cleanup) && attempts == 1 && l.released == old(l.released)
      ensures !first ==> old(l.released) + old(AsSeq(cleanup)) <= l.released
      ensures attempts == if !first && old(hasFallback) && DirectPrepares(direct) then 2 else 1
      ensures hasFallback == (old(hasFallback) && first)
    {
      attempts := 1;
      if first {
        return true, attempts;
      }
      CleanupNow(l);
      if !hasFallback {
        return false, attempts;
      }
      hasFallback := false;
      var fallback := DirectCommand(l, direct);
      if fallback == null {
        return false, attempts;
      }
      cleanup := fallback.cleanup;
      attempts := 2;
      if second {
        return true, attempts;
      }
      CleanupNow(l);
      ok := false;
    }
  }

  // ---- launchers --------------------------------------------------------------------------

  /** With a CPU affinity the direct launcher starts through a re-exec helper, which may fail. */
  datatype DirectEnv = DirectEnv(affinity: bool, helper: bool)

  predicate DirectPrepares(env: DirectEnv) {
    env.affinity ==> env.helper
  }

  method DirectCommand(l: Ledger, env: DirectEnv) returns (command: CoreCommand?)
    requires l.Valid()
    modifies l
    ensures l.Valid() && l.released == old(l.released)
    ensures command != null <==> DirectPrepares(env)
    ensures command == null ==> l.open == old(l.open)
    ensures command != null ==>
              && fresh(command) && !command.hasFallback && command.cleanup.Some? == env.affinity
              && (command.cleanup.Some? ==> command.cleanup.value.kind == Reexec)
              && l.Owes(AsSeq(command.cleanup)) && old(l.open) !! Elems(AsSeq(command.cleanup))
              && l.open == old(l.open) + Elems(AsSeq(command.cleanup))
  {
    if !env.affinity {
      command := new CoreCommand(None, false);
    } else if !env.helper {
      command := null;
    } else {
      var helper := l.Acquire(Reexec);
      command := new CoreCommand(Some(helper), false);
    }
  }

  /** `config` marks a trusted path that cannot be mapped, found before the root is created. */
  datatype SandboxEnv = NoRoot(config: bool) | NoHelper | Prepared

  /** The sandbox root is created first and removed again when the helper cannot be set up. */
  method SandboxCommand(l: Ledger, env: SandboxEnv) returns (command: CoreCommand?)
    requires l.Valid()
    modifies l
    ensures l.Valid()
    ensures command != null <==> env.Prepared?
    ensures command == null ==> l.open == old(l.open)
    ensures command != null ==>
              && fresh(command) && !command.hasFallback && command.cleanup.Some?
              && command.cleanup.value.kind == Sandbox
              && l.Owes(AsSeq(command.cleanup)) && old(l.open) !! Elems(AsSeq(command.cleanup))
              && l.open == old(l.open) + Elems(AsSeq(command.cleanup))
  {
    command := null;
    if !env.NoRoot? {
      var root := l.Acquire(Sandbox);
      if env.NoHelper? {
        l.Release(root);
      } else {
        command := new CoreCommand(Some(root), false);
      }
    }
  }

  datatype Mode = Direct | ForcedSandbox | Auto(probe: bool)

  /** newCoreLauncher: the environment can switch the sandbox off, and any mode but the two named ones
      is automatic. */
  function LauncherFor(disabled: bool, mode: string, probe: bool): Mode {
    if disabled || mode == "direct" then Direct else if mode == "sandbox" then ForcedSandbox else Auto(probe)
  }

  function KindOf(r: Option<Resource>): Option<Kind> {
    if r.Some? then Some(r.value.kind) else None
  }

  /** The helper a direct start goes through. */
  function DirectKind(env: DirectEnv): Option<Kind> {
    if env.affinity then Some(Reexec) else None
  }

  /** A sandbox is used when forced, or in automatic mode if it can be probed and prepared. */
  predicate UsesSandbox(mode: Mode, sandbox: SandboxEnv) {
    sandbox.Prepared? && (mode.ForcedSandbox? || mode == Auto(true))
  }

  /** A direct start is used when asked for, or in automatic mode as the way out of a sandbox that
      is not available, but never to get around a configuration error. */
  predicate UsesDirect(mode: Mode, sandbox: SandboxEnv) {
    mode.Direct? || mode == Auto(false) || (mode == Auto(true) && !sandbox.Prepared? && sandbox != NoRoot(true))
  }

  /** Automatic mode tries the sandbox and turns to a direct start unless the configuration itself
      is at fault; only a sandbox chosen automatically carries a fallback. */
  method NewCommand(l: Ledger, mode: Mode, sandbox: SandboxEnv, direct: DirectEnv) returns (command: CoreCommand?)
    requires l.Valid()
    modifies l
    ensures l.Valid()
    ensures command == null ==> l.open == old(l.open)
    ensures command != null ==>
              && fresh(command)
              && l.Owes(AsSeq(command.cleanup)) && old(l.open) !! Elems(AsSeq(command.cleanup))
              && l.open == old(l.open) + Elems(AsSeq(command.cleanup))
              && (command.hasFallback <==> mode.Auto? && mode.probe && sandbox.Prepared?)
    ensures command != null <==> UsesSandbox(mode, sandbox) || (UsesDirect(mode, sandbox) && DirectPrepares(direct))
    ensures command != null ==> KindOf(command.cleanup) == if UsesSandbox(mode, sandbox) then Some(Sandbox) else DirectKind(direct)
  {
    match mode
    case Direct =>
      command := DirectCommand(l, direct);
    case ForcedSandbox =>
      command := SandboxCommand(l, sandbox);
    case Auto(probe) =>
      if !probe {
        command := DirectCommand(l, direct);
        return;
      }
      command := SandboxCommand(l, sandbox);
      if command == null {
        if sandbox.NoRoot? && sandbox.config {
          return;
        }
        command := DirectCommand(l, direct);
        return;
      }
      command.hasFallback := true;
  }

  // ---- launch sessions --------------------------------------------------------------------

  class LaunchSession {
    const id: nat
    var cleanups: seq<Cleanup>
    var command: CoreCommand?

    constructor (id: nat, cleanups: seq<Cleanup>)
      ensures this.id == id && this.cleanups == cleanups && command == null
    {
      this.id, this.cleanups, command := id, cleanups, null;
    }

    ghost function Objects(): set<object>
      reads this
    {
      {this} + (if command == null then {} else {command})
    }

    /** What the session still holds, in the order in which its cleanup will release it. */
    ghost function Held(): seq<Resource>
      reads this, command
    {
      Chain(cleanups, if command == null then None else command.cleanup)
    }

    ghost predicate Valid()
      reads this
    {
      && (command == null ==> CleansCommand !in cleanups)
      && (forall i, j :: 0 <= i < j < |cleanups| ==> !(cleanups[i].CleansCommand? && cleanups[j].CleansCommand?))
    }

    /** The newest registration runs first. */
    method AddRelease(r: Resource)
      requires Valid()
      modifies this`cleanups
      ensures Valid() && Held() == [r] + old(Held()) && cleanups == [Releases(r)] + old(cleanups)
    {
      cleanups := [Releases(r)] + cleanups;
      assert cleanups[1..] == old(cleanups);
    }

    method AttachCommand(c: CoreCommand)
      requires Valid() && command == null
      modifies this
      ensures Valid() && command == c && Held() == AsSeq(c.cleanup) + old(Held())
      ensures cleanups == [CleansCommand] + old(cleanups)
    {
      ChainWithoutCommand(cleanups, None, c.cleanup);
      cleanups, command := [CleansCommand] + cleanups, c;
      assert cleanups[1..] == old(cleanups);
    }

    /** Runs the whole chain once: every held resource is released, in reverse registration order. */
    method CleanupNow(l: Ledger)
      requires Valid() && l.Valid() && l.Owes(Held())
      modifies this, command, l
      ensures Valid() && l.Valid() && cleanups == [] && l.acquired == old(l.acquired) && command == old(command)
      ensures l.released == old(l.released) + old(Held())
      ensures l.open == old(l.open) - Elems(old(Held()))
    {
      while cleanups != []
        invariant Valid() && l.Valid() && l.acquired == old(l.acquired) && command == old(command)
        invariant l.released + Held() == old(l.released) + old(Held())
        invariant l.Owes(Held())
        decreases |cleanups|
      {
        RunFirst(l);
      }
    }

    /** Runs the first cleanup of the chain. */
    method RunFirst(l: Ledger)
      requires Valid() && l.Valid() && cleanups != [] && l.Owes(Held())
      modifies this`cleanups, command, l
      ensures Valid() && l.Valid() && l.acquired == old(l.acquired) && cleanups == old(cleanups)[1..]
      ensures l.released + Held() == old(l.released) + old(Held())
      ensures l.Owes(Held())
    {
      var first := cleanups[0];
      ghost var held := Held();
      ghost var rest := Chain(cleanups[1..], if command == null then None else command.cleanup);
      cleanups := cleanups[1..];
      if first.Releases? {
        assert held == [first.r] + rest;
        SplitDistinct([first.r], rest);
        assert first.r in [first.r];
        l.Release(first.r);
      } else {
        assert held == AsSeq(command.cleanup) + rest;
        SplitDistinct(AsSeq(command.cleanup), rest);
        ChainWithoutCommand(cleanups, command.cleanup, None);
        command.CleanupNow(l);
      }
      assert Held() == rest;
      Splitting.Associate(old(l.released), if first.Releases? then [first.r] else old(AsSeq(command.cleanup)), rest);
    }
  }

  // ---- starting a process -----------------------------------------------------------------

  /** `owned` tells whether the endpoint comes with a cleanup of its own. */
  datatype EndpointEnv = EndpointFails | Unsupported(owned: bool) | Created(owned: bool)

  /** Which of the steps of prepareLaunchSession succeed. */
  datatype SessionEnv = SessionEnv(profile: bool, hook: bool, endpoint: EndpointEnv, affinity: bool, workingDir: bool)

  /** The endpoint is released before the hook. */
  function BaseCleanups(endpoint: Option<Resource>, hook: Resource): seq<Cleanup> {
    (if endpoint.Some? then [Releases(endpoint.value)] else []) + [Releases(hook)]
  }

  /** Every failure path gives back what was acquired so far. */
  method PrepareLaunchSession(l: Ledger, id: nat, env: SessionEnv)
    returns (session: LaunchSession?, ghost endpoint: Option<Resource>, ghost hook: Resource)
    requires l.Valid()
    modifies l
    ensures l.Valid()
    ensures session == null ==> l.open == old(l.open)
    ensures session != null <==> SessionPrepares(env)
    ensures session == null ==>
              l.released == old(l.released) +
              if !env.profile || !env.hook then [] else if env.endpoint.Created? then [hook] + AsSeq(endpoint) else AsSeq(endpoint) + [hook]
    ensures session != null ==> l.released == old(l.released)
    ensures !env.profile || !env.hook ==> l.acquired == old(l.acquired)
    ensures session != null ==>
              && fresh(session) && session.id == id && session.command == null
              && session.cleanups == BaseCleanups(endpoint, hook)
              && hook.kind == Hook && (endpoint.Some? ==> endpoint.value.kind == Endpoint)
              && endpoint.Some? == env.endpoint.owned
              && hook !in old(l.open) && (endpoint.Some? ==> endpoint.value !in old(l.open))
              && l.open == old(l.open) + {hook} + Elems(AsSeq(endpoint))
  {
    session, endpoint, hook := null, None, Resource(Hook, 0);
    if !env.profile || !env.hook {
      return;
    }
    var h := l.Acquire(Hook);
    var e: Option<Resource> := None;
    if !env.endpoint.EndpointFails? && env.endpoint.owned {
      var r := l.Acquire(Endpoint);
      e := Some(r);
    }
    hook, endpoint := h, e;
    if !env.endpoint.Created? {
      // An endpoint of an unsupported kind is given back where it was made.
      if e.Some? {
        l.Release(e.value);
      }
      l.Release(h);
      return;
    }
    if !env.affinity || !env.workingDir {
      l.Release(h);
      if e.Some? {
        l.Release(e.value);
      }
      return;
    }
    session := new LaunchSession(id, BaseCleanups(e, h));
  }

  datatype ProcessEnv = ProcessEnv(
    session: SessionEnv, mode: Mode, sandbox: SandboxEnv, direct: DirectEnv,
    first: bool, fallback: DirectEnv, second: bool, attach: bool)

  /** What a session holds once its command has been attached: newest registration first. */
  function Holding(watcher: Resource, log: Resource, command: Option<Resource>, endpoint: Option<Resource>, hook: Resource): seq<Resource> {
    [watcher, log] + AsSeq(command) + AsSeq(endpoint) + [hook]
  }

  function Kinds(rs: seq<Resource>): seq<Kind> {
    seq(|rs|, i requires 0 <= i < |rs| => rs[i].kind)
  }

  function KindSeq(k: Option<Kind>): seq<Kind> {
    if k.Some? then [k.value] else []
  }

  /** The kinds of what a session holds, in the order of release. */
  function HeldKinds(command: Option<Kind>, endpoint: bool): seq<Kind> {
    [LogWatcher, LogWriter] + KindSeq(command) + (if endpoint then [Endpoint] else []) + [Hook]
  }

  lemma HoldingKinds(watcher: Resource, log: Resource, command: Option<Resource>, endpoint: Option<Resource>, hook: Resource)
    requires watcher.kind == LogWatcher && log.kind == LogWriter && hook.kind == Hook
    requires endpoint.Some? ==> endpoint.value.kind == Endpoint
    ensures Kinds(Holding(watcher, log, command, endpoint, hook)) == HeldKinds(KindOf(command), endpoint.Some?)
  {
  }

  /** The start succeeds at once, or by the fallback. */
  predicate Starts(hasFallback: bool, env: ProcessEnv) {
    env.first || (hasFallback && DirectPrepares(env.fallback) && env.second)
  }

  predicate SessionPrepares(env: SessionEnv) {
    env.profile && env.hook && env.endpoint.Created? && env.affinity && env.workingDir
  }

  /** Exactly when a process is launched. */
  predicate Launches(env: ProcessEnv) {
    && SessionPrepares(env.session)
    && (UsesSandbox(env.mode, env.sandbox) || (UsesDirect(env.mode, env.sandbox) && DirectPrepares(env.direct)))
    && Starts(env.mode == Auto(true) && env.sandbox.Prepared?, env)
    && env.attach
  }

  /** What the launched process runs in: the sandbox only if the first start worked in it. */
  function RunsIn(env: ProcessEnv): Option<Kind> {
    if !env.first then DirectKind(env.fallback)
    else if UsesSandbox(env.mode, env.sandbox) then Some(Sandbox)
    else DirectKind(env.direct)
  }

  predicate OwnsEndpoint(env: ProcessEnv) {
    env.session.endpoint.Created? && env.session.endpoint.owned
  }

  /** Where a launched process runs, by the profile's mode: a forced sandbox is never left unless the
      environment switched it off; a direct start never uses one; automatic mode uses one exactly if
      it could be probed and prepared and the first start worked. */
  lemma ModesConfine(env: ProcessEnv, disabled: bool, mode: string, probe: bool)
    requires Launches(env) && env.mode == LauncherFor(disabled, mode, probe)
    ensures mode == "sandbox" && !disabled ==> RunsIn(env) == Some(Sandbox)
    ensures mode == "direct" || disabled ==> RunsIn(env) != Some(Sandbox)
    ensures mode == "auto" && !disabled ==> (RunsIn(env) == Some(Sandbox) <==> probe && env.sandbox.Prepared? && env.first)
  {
  }

  lemma BaseChain(command: Option<Resource>, endpoint: Option<Resource>, hook: Resource)
    ensures Chain(BaseCleanups(endpoint, hook), command) == AsSeq(endpoint) + [hook]
  {
    var base := BaseCleanups(endpoint, hook);
    assert [Releases(hook)][1..] == [];
    assert Chain([Releases(hook)], command) == [hook];
    if endpoint.Some? {
      assert base == [Releases(endpoint.value)] + [Releases(hook)] && base[1..] == [Releases(hook)];
    }
  }

  lemma HoldingIsChain(watcher: Resource, log: Resource, command: Option<Resource>, endpoint: Option<Resource>, hook: Resource)
    ensures Chain([Releases(watcher)] + ([Releases(log)] + ([CleansCommand] + BaseCleanups(endpoint, hook))), command)
         == Holding(watcher, log, command, endpoint, hook)
  {
    var base := BaseCleanups(endpoint, hook);
    var attached := [CleansCommand] + base;
    var logged := [Releases(log)] + attached;
    var all := [Releases(watcher)] + logged;
    assert all[1..] == logged && logged[1..] == attached && attached[1..] == base;
    BaseChain(command, endpoint, hook);
    assert Chain(attached, command) == AsSeq(command) + Chain(base, command);
  }

  /** Resources of pairwise different kinds are pairwise different. */
  lemma HoldingDistinct(controller: Resource, watcher: Resource, log: Resource, command: Option<Resource>, endpoint: Option<Resource>, hook: Resource)
    requires controller.kind == ProcessController && watcher.kind == LogWatcher && log.kind == LogWriter && hook.kind == Hook
    requires command.Some? ==> command.value.kind == Sandbox || command.value.kind == Reexec
    requires endpoint.Some? ==> endpoint.value.kind == Endpoint
    ensures Distinct([controller] + Holding(watcher, log, command, endpoint, hook))
    ensures Distinct(Holding(watcher, log, command, endpoint, hook))
  {
    var held := Holding(watcher, log, command, endpoint, hook);
    assert |held| <= 5;
    SplitDistinct([controller], held);
  }

  /** Everything up to the moment the process runs and is attached to its controller.  A failure
      on any path leaves nothing outstanding; a success leaves exactly the controller and what the
      session will release. */
  method LaunchProcess(l: Ledger, id: nat, env: ProcessEnv)
    returns (controller: Resource, session: LaunchSession?)
    requires l.Valid()
    modifies l
    ensures l.Valid()
    ensures session == null ==> l.open == old(l.open)
    ensures session != null <==> Launches(env)
    ensures session != null ==> Kinds(session.Held()) == HeldKinds(RunsIn(env), OwnsEndpoint(env))
    ensures session != null ==>
              && fresh(session) && session.Valid() && session.id == id
              && session.command != null && fresh(session.command)
              && controller.kind == ProcessController
              && l.Owes([controller] + session.Held())
              && (forall r :: r in session.Held() ==> r.kind != ProcessController && r.kind != TrafficPipe)
              && l.open == old(l.open) + Elems([controller] + session.Held())
              && old(l.open) !! Elems([controller] + session.Held())
              && (old(l.open) == {} ==> l.OwesExactly([controller] + session.Held()))
  {
    ghost var before := l.open;
    ghost var endpoint, hook;
    controller := Resource(ProcessController, 0);
    session, endpoint, hook := PrepareLaunchSession(l, id, env.session);
    if session == null {
      return;
    }
    var log := l.Acquire(LogWriter);
    controller := l.Acquire(ProcessController);
    var command := NewCommand(l, env.mode, env.sandbox, env.direct);
    if command == null {
      Abandon(l, session, log, controller, before, endpoint, hook);
      session := null;
      return;
    }
    var running := RunCommand(l, session, command, log, controller, env, before, endpoint, hook);
    if !running {
      session := null;
    }
  }

  /** Swapping the command's resource keeps the account exact. */
  lemma AccountAfterStart(before: set<Resource>, now: set<Resource>, controller: Resource, watcher: Resource, log: Resource,
                          c0: Option<Resource>, c1: Option<Resource>, endpoint: Option<Resource>, hook: Resource)
    requires controller.kind == ProcessController && watcher.kind == LogWatcher && log.kind == LogWriter && hook.kind == Hook
    requires c0.Some? ==> c0.value.kind == Sandbox || c0.value.kind == Reexec
    requires c1.Some? ==> c1.value.kind == Sandbox || c1.value.kind == Reexec
    requires endpoint.Some? ==> endpoint.value.kind == Endpoint
    requires before !! ({log, controller, hook, watcher} + Elems(AsSeq(endpoint)) + Elems(AsSeq(c0)))
    requires c1 == c0 || before !! Elems(AsSeq(c1))
    requires now == before + ({log, controller, hook, watcher} + Elems(AsSeq(endpoint)) + Elems(AsSeq(c0))) - Elems(AsSeq(c0)) + Elems(AsSeq(c1))
    ensures now == before + Elems([controller] + Holding(watcher, log, c1, endpoint, hook))
    ensures before !! Elems([controller] + Holding(watcher, log, c1, endpoint, hook))
    ensures forall r :: r in Holding(watcher, log, c1, endpoint, hook) ==> r.kind != ProcessController && r.kind != TrafficPipe
  {
    var held := Holding(watcher, log, c1, endpoint, hook);
    assert Elems([controller] + held) == {controller, watcher, log, hook} + Elems(AsSeq(c1)) + Elems(AsSeq(endpoint));
  }

  /** The command could not even be built. */
  method Abandon(l: Ledger, session: LaunchSession, log: Resource, controller: Resource,
                 ghost before: set<Resource>, ghost endpoint: Option<Resource>, ghost hook: Resource)
    requires l.Valid() && session.Valid() && session.command == null
    requires session.cleanups == BaseCleanups(endpoint, hook)
    requires log.kind == LogWriter && controller.kind == ProcessController && hook.kind == Hook
    requires endpoint.Some? ==> endpoint.value.kind == Endpoint
    requires l.open == before + ({log, controller, hook} + Elems(AsSeq(endpoint)))
    requires before !! ({log, controller, hook} + Elems(AsSeq(endpoint)))
    modifies l, session
    ensures l.Valid() && l.open == before
    ensures l.released == old(l.released) + [log, controller] + (AsSeq(endpoint) + [hook])
  {
    l.Release(log);
    l.Release(controller);
    BaseChain(None, endpoint, hook);
    assert Distinct(session.Held());
    session.CleanupNow(l);
  }

  /** Second half: register the cleanups, start the command and attach the process. */
  method RunCommand(l: Ledger, session: LaunchSession, command: CoreCommand, log: Resource, controller: Resource,
                    env: ProcessEnv, ghost before: set<Resource>, ghost endpoint: Option<Resource>, ghost hook: Resource)
    returns (ok: bool)
    requires l.Valid() && session.Valid() && session.command == null
    requires session.cleanups == BaseCleanups(endpoint, hook)
    requires log.kind == LogWriter && controller.kind == ProcessController && hook.kind == Hook
    requires endpoint.Some? ==> endpoint.value.kind == Endpoint
    requires command.cleanup.Some? ==> command.cleanup.value.kind == Sandbox || command.cleanup.value.kind == Reexec
    requires l.open == before + ({log, controller, hook} + Elems(AsSeq(endpoint)) + Elems(AsSeq(command.cleanup)))
    requires before !! ({log, controller, hook} + Elems(AsSeq(endpoint)) + Elems(AsSeq(command.cleanup)))
    modifies l, session, command
    ensures l.Valid() && session.Valid() && session.command == command
    ensures !ok ==> l.open == before
    ensures ok <==> Starts(old(command.hasFallback), env) && env.attach
    ensures ok ==>
              Kinds(session.Held()) ==
              HeldKinds(if env.first then old(KindOf(command.cleanup)) else DirectKind(env.fallback), endpoint.Some?)
    ensures ok ==>
              && l.Owes([controller] + session.Held())
              && (forall r :: r in session.Held() ==> r.kind != ProcessController && r.kind != TrafficPipe)
              && l.open == before + Elems([controller] + session.Held())
              && before !! Elems([controller] + session.Held())
  {
    var started := StartRegistered(l, session, command, log, controller, env, before, endpoint, hook);
    ok := started && env.attach;
    if !ok {
      Discard(l, session, controller);
    }
  }

  /** Registers and starts; whether it works or not, the account is exact. */
  method StartRegistered(l: Ledger, session: LaunchSession, command: CoreCommand, log: Resource, controller: Resource,
                         env: ProcessEnv, ghost before: set<Resource>, ghost endpoint: Option<Resource>, ghost hook: Resource)
    returns (started: bool)
    requires l.Valid() && session.Valid() && session.command == null
    requires session.cleanups == BaseCleanups(endpoint, hook)
    requires log.kind == LogWriter && controller.kind == ProcessController && hook.kind == Hook
    requires endpoint.Some? ==> endpoint.value.kind == Endpoint
    requires command.cleanup.Some? ==> command.cleanup.value.kind == Sandbox || command.cleanup.value.kind == Reexec
    requires l.open == before + ({log, controller, hook} + Elems(AsSeq(endpoint)) + Elems(AsSeq(command.cleanup)))
    requires before !! ({log, controller, hook} + Elems(AsSeq(endpoint)) + Elems(AsSeq(command.cleanup)))
    modifies l, session, command
    ensures l.Valid() && session.Valid() && session.command == command
    ensures started <==> Starts(old(command.hasFallback), env)
    ensures started ==>
              Kinds(session.Held()) ==
              HeldKinds(if env.first then old(KindOf(command.cleanup)) else DirectKind(env.fallback), endpoint.Some?)
    ensures l.Owes([controller] + session.Held())
    ensures forall r :: r in session.Held() ==> r.kind != ProcessController && r.kind != TrafficPipe
    ensures l.open == before + Elems([controller] + session.Held()) && before !! Elems([controller] + session.Held())
  {
    ghost var c0 := command.cleanup;
    var watcher := Register(l, session, command, log);
    assert forall r :: r in AsSeq(c0) ==> r in l.open;
    var attempts;
    started, attempts := command.Start(l, env.first, env.fallback, env.second);
    HoldingIsChain(watcher, log, command.cleanup, endpoint, hook);
    assert session.Held() == Holding(watcher, log, command.cleanup, endpoint, hook);
    StartedAccount(before, l.open, controller, watcher, log, c0, command.cleanup, endpoint, hook);
  }

  /** What is outstanding once the command was started, or given up. */
  lemma StartedAccount(before: set<Resource>, now: set<Resource>, controller: Resource, watcher: Resource, log: Resource,
                       c0: Option<Resource>, c1: Option<Resource>, endpoint: Option<Resource>, hook: Resource)
    requires controller.kind == ProcessController && watcher.kind == LogWatcher && log.kind == LogWriter && hook.kind == Hook
    requires c0.Some? ==> c0.value.kind == Sandbox || c0.value.kind == Reexec
    requires c1.Some? ==> c1.value.kind == Sandbox || c1.value.kind == Reexec
    requires endpoint.Some? ==> endpoint.value.kind == Endpoint
    requires before !! ({log, controller, hook, watcher} + Elems(AsSeq(endpoint)) + Elems(AsSeq(c0)))
    requires c1 == c0 || before !! Elems(AsSeq(c1))
    requires now == before + ({log, controller, hook, watcher} + Elems(AsSeq(endpoint)) + Elems(AsSeq(c0))) - Elems(AsSeq(c0)) + Elems(AsSeq(c1))
    ensures var held := Holding(watcher, log, c1, endpoint, hook);
            && Distinct([controller] + held) && now == before + Elems([controller] + held) && before !! Elems([controller] + held)
            && (forall r :: r in held ==> r.kind != ProcessController && r.kind != TrafficPipe)
            && Kinds(held) == HeldKinds(KindOf(c1), endpoint.Some?)
  {
    HoldingDistinct(controller, watcher, log, c1, endpoint, hook);
    HoldingKinds(watcher, log, c1, endpoint, hook);
    AccountAfterStart(before, now, controller, watcher, log, c0, c1, endpoint, hook);
  }

  /** Cleanups registered for a command: log watcher first, then log writer, then the command. */
  method Register(l: Ledger, session: LaunchSession, command: CoreCommand, log: Resource) returns (watcher: Resource)
    requires l.Valid() && session.Valid() && session.command == null
    modifies l, session
    ensures l.Valid() && session.Valid() && session.command == command && watcher.kind == LogWatcher
    ensures l.open == old(l.open) + {watcher} && watcher !in old(l.open)
    ensures l.released == old(l.released)
    ensures session.cleanups == [Releases(watcher)] + ([Releases(log)] + ([CleansCommand] + old(session.cleanups)))
  {
    session.AttachCommand(command);
    session.AddRelease(log);
    watcher := l.Acquire(LogWatcher);
    session.AddRelease(watcher);
  }

  /** A process that will not run: close its controller and run the session's cleanup. */
  method Discard(l: Ledger, session: LaunchSession, controller: Resource)
    requires l.Valid() && session.Valid() && l.Owes([controller] + session.Held())
    modifies l, session, session.command
    ensures l.Valid() && session.Valid() && session.command == old(session.command) && session.Held() == []
    ensures l.released == old(l.released) + [controller] + old(session.Held())
    ensures l.open == old(l.open) - Elems(old([controller] + session.Held()))
  {
    SplitDistinct([controller], session.Held());
    assert controller in [controller];
    l.Release(controller);
    session.CleanupNow(l);
  }
}