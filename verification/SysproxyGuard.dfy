/** The system-proxy guard protocol (route/sysproxyapi).

    HTTP handlers and background guard loops share the operating system's proxy settings.  A handler
    first stops the guard (generation bump, then cancel), takes the mutation lock, writes the
    settings, may start a new guard, and unlocks.  A guard loop that sees foreign settings takes the
    same lock, checks that its generation is still current, re-applies its own settings and unlocks.
    The generation has its own mutex, so a bump may fall between a guard's check and its write.

    Every lock acquisition, generation bump, cancel call, check and settings write is one atomic
    action; a run is any interleaving of them. */
module SysproxyGuard {
  import opened Runs

  type Gen = nat

  /** `pac` and `proxy` requests carry a guard flag, `disable` has none, and service shutdown
      only stops the guard. */
  datatype Kind = SetsProxy(guard: bool) | Disables | Shutdown

  datatype HandlerPc = Entering | Stopped | Locked | Wrote | Unlocking | Finished

  /** `pending` is the cancel function taken out of the shared state and not yet called. */
  datatype Handler = Handler(kind: Kind, pc: HandlerPc, stopGen: Gen, pending: Option<Gen>)

  datatype GuardPc = Watching | Mismatched | Checking | Applying | Releasing | Exited

  datatype Owner = ByHandler(h: nat) | ByGuard(g: Gen)

  /** A guard loop is named by the generation it was started with. */
  datatype State = State(
    generation: Gen,
    cancel: Option<Gen>,
    cancelled: set<Gen>,
    lock: Option<Owner>,
    handlers: map<nat, Handler>,
    guards: map<Gen, GuardPc>)

  datatype Action =
    | Arrive(h: nat, kind: Kind)
    | Stop(h: nat)
    | Cancel(h: nat)
    | Lock(h: nat)
    | Write(h: nat, ok: bool)
    | Configure(h: nat, captured: bool)
    | Unlock(h: nat)
    | Observe(g: Gen)
    | Exit(g: Gen)
    | GuardLock(g: Gen)
    | Check(g: Gen)
    | Apply(g: Gen)
    | GuardUnlock(g: Gen)

  const Init: State := State(0, None, {}, None, map[], map[])

  function SetHandler(s: State, h: nat, handler: Handler): State {
    s.(handlers := s.handlers[h := handler])
  }

  function SetGuard(s: State, g: Gen, pc: GuardPc): State {
    s.(guards := s.guards[g := pc])
  }

  predicate HandlerAt(s: State, h: nat, pc: HandlerPc) {
    h in s.handlers && s.handlers[h].pc == pc && s.handlers[h].pending.None?
  }

  predicate GuardAt(s: State, g: Gen, pc: GuardPc) {
    g in s.guards && s.guards[g] == pc
  }

  /** `stop` and `start` both bump the generation and take over the stored cancel function;
      `start` leaves its own there and launches a loop for the new generation. */
  function Bump(s: State, h: nat, next: HandlerPc, start: bool): State
    requires h in s.handlers
  {
    var g := s.generation + 1;
    var handler := s.handlers[h].(pc := next, pending := s.cancel);
    var s' := s.(generation := g, cancel := if start then Some(g) else None,
                 handlers := s.handlers[h := if next == Stopped then handler.(stopGen := g) else handler]);
    if start then SetGuard(s', g, Watching) else s'
  }

  predicate Reconfigures(kind: Kind, captured: bool) {
    kind.SetsProxy? && (kind.guard ==> captured)
  }

  function HandlerStep(s: State, a: Action): Option<State> {
    match a
    case Arrive(h, kind) =>
      if h in s.handlers then None else Some(SetHandler(s, h, Handler(kind, Entering, 0, None)))
    case Stop(h) =>
      if HandlerAt(s, h, Entering) then Some(Bump(s, h, Stopped, false)) else None
    case Cancel(h) =>
      if h in s.handlers && s.handlers[h].pending.Some?
      then Some(SetHandler(s.(cancelled := s.cancelled + {s.handlers[h].pending.value}), h,
                           s.handlers[h].(pending := None)))
      else None
    case Lock(h) =>
      if HandlerAt(s, h, Stopped) && !s.handlers[h].kind.Shutdown? && s.lock.None?
      then Some(SetHandler(s.(lock := Some(ByHandler(h))), h, s.handlers[h].(pc := Locked)))
      else None
    case Write(h, ok) =>
      if HandlerAt(s, h, Locked)
      then Some(SetHandler(s, h, s.handlers[h].(pc := if ok && s.handlers[h].kind.SetsProxy? then Wrote else Unlocking)))
      else None
    case Configure(h, captured) =>
      if !HandlerAt(s, h, Wrote) then None
      else if Reconfigures(s.handlers[h].kind, captured)
      then Some(Bump(s, h, Unlocking, s.handlers[h].kind.guard))
      else Some(SetHandler(s, h, s.handlers[h].(pc := Unlocking)))
    case Unlock(h) =>
      if HandlerAt(s, h, Unlocking)
      then Some(SetHandler(s.(lock := None), h, s.handlers[h].(pc := Finished)))
      else None
    case _ => None
  }

  function GuardStep(s: State, a: Action): Option<State> {
    match a
    case Observe(g) =>
      if GuardAt(s, g, Watching) then Some(SetGuard(s, g, Mismatched)) else None
    case Exit(g) =>
      if GuardAt(s, g, Watching) && g in s.cancelled then Some(SetGuard(s, g, Exited)) else None
    case GuardLock(g) =>
      if GuardAt(s, g, Mismatched) && s.lock.None?
      then Some(SetGuard(s.(lock := Some(ByGuard(g))), g, Checking))
      else None
    case Check(g) =>
      if GuardAt(s, g, Checking)
      then Some(SetGuard(s, g, if s.generation == g then Applying else Releasing))
      else None
    case Apply(g) =>
      if GuardAt(s, g, Applying) then Some(SetGuard(s, g, Releasing)) else None
    case GuardUnlock(g) =>
      if GuardAt(s, g, Releasing) then Some(SetGuard(s.(lock := None), g, Watching)) else None
    case _ => None
  }

  function Step(s: State, a: Action): Option<State> {
    if HandlerStep(s, a).Some? then HandlerStep(s, a) else GuardStep(s, a)
  }

  predicate HandlerHoldsLock(pc: HandlerPc) { pc == Locked || pc == Wrote || pc == Unlocking }

  predicate GuardHoldsLock(pc: GuardPc) { pc == Checking || pc == Applying || pc == Releasing }

  ghost predicate MutualExclusion(s: State) {
    && (forall h :: h in s.handlers ==>
          (HandlerHoldsLock(s.handlers[h].pc) <==> s.lock == Some(ByHandler(h))))
    && (forall g :: g in s.guards ==>
          (GuardHoldsLock(s.guards[g]) <==> s.lock == Some(ByGuard(g))))
    && (s.lock.Some? && s.lock.value.ByHandler? ==> s.lock.value.h in s.handlers)
    && (s.lock.Some? && s.lock.value.ByGuard? ==> s.lock.value.g in s.guards)
  }

  ghost predicate GenerationsBounded(s: State) {
    && (forall h :: h in s.handlers ==> s.handlers[h].stopGen <= s.generation)
    && (forall g :: g in s.guards ==> g <= s.generation)
    && (s.cancel.Some? ==> s.cancel.value == s.generation)
  }

  /** Someone still holds the duty to cancel guard `g`. */
  ghost predicate CancelOwed(s: State, g: Gen) {
    exists h :: h in s.handlers && s.handlers[h].pending == Some(g)
  }

  /** A guard loop is cancelled, or is the one whose cancel function is stored, or a handler has
      taken its cancel function out and is about to call it. */
  ghost predicate NoGuardForgotten(s: State) {
    forall g :: g in s.guards ==> g in s.cancelled || s.cancel == Some(g) || CancelOwed(s, g)
  }

  ghost predicate Inv(s: State) {
    MutualExclusion(s) && GenerationsBounded(s) && NoGuardForgotten(s)
  }

  /** No guard older than `limit` is past its check, and none can pass it any more. */
  ghost predicate Barred(s: State, limit: Gen) {
    && limit <= s.generation
    && (forall g :: g in s.guards && g < limit ==> s.guards[g] != Applying)
  }

  lemma StepKeepsForgotten(s: State, a: Action)
    requires Inv(s) && Step(s, a).Some?
    ensures NoGuardForgotten(Step(s, a).value)
  {
    var s' := Step(s, a).value;
    forall g | g in s'.guards ensures g in s'.cancelled || s'.cancel == Some(g) || CancelOwed(s', g) {
      if g in s.guards && CancelOwed(s, g) {
        var h :| h in s.handlers && s.handlers[h].pending == Some(g);
        if a == Cancel(h) {
          assert g in s'.cancelled;
        } else {
          assert s'.handlers[h].pending == Some(g);
        }
      } else if g in s.guards && s.cancel == Some(g) && s'.cancel != Some(g) {
        assert a.Stop? || a.Configure?;
        assert s'.handlers[a.h].pending == Some(g);
      }
    }
  }

  lemma BumpExcludes(s: State, h: nat, next: HandlerPc, start: bool)
    requires MutualExclusion(s) && GenerationsBounded(s) && h in s.handlers
    requires HandlerHoldsLock(s.handlers[h].pc) == HandlerHoldsLock(next)
    ensures MutualExclusion(Bump(s, h, next, start))
  {
  }

  lemma HandlerStepExcludes(s: State, a: Action)
    requires MutualExclusion(s) && GenerationsBounded(s) && HandlerStep(s, a).Some?
    ensures MutualExclusion(HandlerStep(s, a).value)
  {
    match a
    case Arrive(_, _) =>
    case Stop(h) => BumpExcludes(s, h, Stopped, false);
    case Cancel(_) =>
    case Lock(_) =>
    case Write(_, _) =>
    case Configure(h, captured) =>
      if Reconfigures(s.handlers[h].kind, captured) {
        BumpExcludes(s, h, Unlocking, s.handlers[h].kind.guard);
      }
    case Unlock(_) =>
  }

  lemma GuardStepExcludes(s: State, a: Action)
    requires MutualExclusion(s) && GuardStep(s, a).Some?
    ensures MutualExclusion(GuardStep(s, a).value)
  {
    match a
    case Observe(_) =>
    case Exit(_) =>
    case GuardLock(_) =>
    case Check(_) =>
    case Apply(_) =>
    case GuardUnlock(_) =>
  }

  lemma StepKeepsBounds(s: State, a: Action)
    requires GenerationsBounded(s) && Step(s, a).Some?
    ensures GenerationsBounded(Step(s, a).value)
  {
  }

  lemma StepKeepsInv(s: State, a: Action)
    requires Inv(s) && Step(s, a).Some?
    ensures Inv(Step(s, a).value)
  {
    StepKeepsBounds(s, a);
    StepKeepsForgotten(s, a);
    if HandlerStep(s, a).Some? { HandlerStepExcludes(s, a); } else { GuardStepExcludes(s, a); }
  }

  lemma StepKeepsBarred(s: State, a: Action, limit: Gen)
    requires Barred(s, limit) && Step(s, a).Some?
    ensures Barred(Step(s, a).value, limit)
  {
  }

  /** Any interleaving of handlers and guard loops. */
  const Guarding := Machine(Init, Step)

  lemma RunKeepsInv(acts: seq<Action>, i: nat)
    requires Guarding.Reached(acts) && i <= |acts|
    ensures Inv(Guarding.At(acts, i))
  {
    forall s, a | Inv(s) && Step(s, a).Some? ensures Inv(Step(s, a).value) { StepKeepsInv(s, a); }
    Guarding.Always(Inv, acts, i);
  }

  lemma RunKeepsBarred(acts: seq<Action>, i: nat, j: nat, limit: Gen)
    requires Guarding.Reached(acts) && i <= j <= |acts|
    requires Barred(Guarding.At(acts, i), limit)
    ensures Barred(Guarding.At(acts, j), limit)
  {
    Guarding.PrefixRuns(acts, i);
    var barred := (s: State) => Barred(s, limit);
    forall s, a | barred(s) && Step(s, a).Some? ensures barred(Step(s, a).value) { StepKeepsBarred(s, a, limit); }
    Guarding.KeptBetween(barred, acts, i, j);
  }

  ghost predicate StoppedWith(s: State, h: nat, limit: Gen) {
    h in s.handlers && s.handlers[h].pc != Entering && s.handlers[h].stopGen == limit
  }

  lemma StepKeepsStopped(s: State, a: Action, h: nat, limit: Gen)
    requires StoppedWith(s, h, limit) && Step(s, a).Some?
    ensures StoppedWith(Step(s, a).value, h, limit)
  {
  }

  /** From its stop on, a handler keeps the generation it produced. */
  lemma StopGenKept(acts: seq<Action>, h: nat, b: nat, c: nat)
    requires Guarding.Reached(acts) && b < c <= |acts| && acts[b] == Stop(h)
    ensures h in Guarding.At(acts, c).handlers
    ensures Guarding.At(acts, c).handlers[h].stopGen == Guarding.At(acts, b).generation + 1
    ensures Guarding.At(acts, c).handlers[h].pc != Entering
  {
    Guarding.PrefixRuns(acts, b);
    var limit := Guarding.At(acts, b).generation + 1;
    var kept := (s: State) => StoppedWith(s, h, limit);
    forall s, a | kept(s) && Step(s, a).Some? ensures kept(Step(s, a).value) { StepKeepsStopped(s, a, h, limit); }
    Guarding.KeptBetween(kept, acts, b + 1, c);
  }

  /** Main safety result.  A guard that existed when a handler stopped the guard never writes the
      settings after that handler's own write - even if it had already passed its generation check
      when the stop happened. */
  lemma NoStaleRestore(acts: seq<Action>, h: nat, ok: bool, g: Gen, b: nat, c: nat, d: nat)
    requires Guarding.Reached(acts) && b < c < d < |acts|
    requires acts[b] == Stop(h) && acts[c] == Write(h, ok)
    requires g in Guarding.At(acts, b).guards
    ensures acts[d] != Apply(g)
  {
    RunKeepsInv(acts, b);
    RunKeepsInv(acts, c);
    StopGenKept(acts, h, b, c);
    var limit := Guarding.At(acts, b).generation + 1;
    Guarding.PrefixRuns(acts, c);
    assert Barred(Guarding.At(acts, c), limit);
    RunKeepsBarred(acts, c, d, limit);
    Guarding.PrefixRuns(acts, d);
  }

  /** A `pac` or `proxy` handler that reconfigures the guard does so while it holds the mutation
      lock, which closes the gap for every guard started before that point. */
  lemma ReconfigurationIsFinal(acts: seq<Action>, h: nat, captured: bool, g: Gen, c: nat, d: nat)
    requires Guarding.Reached(acts) && c < d < |acts|
    requires acts[c] == Configure(h, captured)
    requires h in Guarding.At(acts, c).handlers && Reconfigures(Guarding.At(acts, c).handlers[h].kind, captured)
    requires g in Guarding.At(acts, c).guards
    ensures acts[d] != Apply(g)
  {
    RunKeepsInv(acts, c);
    Guarding.PrefixRuns(acts, c);
    var limit := Guarding.At(acts, c).generation + 1;
    assert Barred(Guarding.At(acts, c + 1), limit);
    RunKeepsBarred(acts, c + 1, d, limit);
    Guarding.PrefixRuns(acts, d);
  }

  // ---- where guards come from -------------------------------------------------------------

  /** The action by which a request that asked for a guard starts one. */
  predicate StartsGuard(s: State, a: Action) {
    a.Configure? && a.captured && a.h in s.handlers && s.handlers[a.h].kind == SetsProxy(true)
  }

  /** A guard appears in one way only, and is named by the generation it was started with. */
  lemma StepStartsGuard(s: State, a: Action, g: Gen)
    requires Step(s, a).Some? && g in Step(s, a).value.guards && g !in s.guards
    ensures StartsGuard(s, a) && g == s.generation + 1
  {
  }

  /** A guard present after `j` actions but not after `i` was started in between by a request with
      the guard flag. */
  lemma {:induction false} StartedBetween(acts: seq<Action>, i: nat, j: nat, g: Gen)
    requires Guarding.Reached(acts) && i <= j <= |acts|
    requires g !in Guarding.At(acts, i).guards && g in Guarding.At(acts, j).guards
    ensures exists k :: i <= k < j && StartsGuard(Guarding.At(acts, k), acts[k]) && g == Guarding.At(acts, k).generation + 1
    decreases j - i
  {
    Guarding.PrefixRuns(acts, i);
    if g in Guarding.At(acts, i + 1).guards {
      StepStartsGuard(Guarding.At(acts, i), acts[i], g);
    } else {
      StartedBetween(acts, i + 1, j, g);
    }
  }

  /** Every guard of every run was started by a request that asked for one. */
  lemma GuardsAreAskedFor(acts: seq<Action>, i: nat, g: Gen)
    requires Guarding.Reached(acts) && i <= |acts| && g in Guarding.At(acts, i).guards
    ensures exists k :: 0 <= k < i && StartsGuard(Guarding.At(acts, k), acts[k]) && g == Guarding.At(acts, k).generation + 1
  {
    StartedBetween(acts, 0, i, g);
  }

  /** Such a request's configuration does start one, which is then the current guard. */
  lemma GuardIsStarted(acts: seq<Action>, i: nat)
    requires Guarding.Reached(acts) && i < |acts| && StartsGuard(Guarding.At(acts, i), acts[i])
    ensures var before, after := Guarding.At(acts, i), Guarding.At(acts, i + 1);
            after.generation == before.generation + 1 && GuardAt(after, after.generation, Watching) && after.cancel == Some(after.generation)
  {
    Guarding.PrefixRuns(acts, i);
  }

  /** A request without the guard flag leaves no guard behind: none is stored, none is current, and no
      guard writes until a later request with the flag has started one. */
  lemma UnguardedRequestEndsGuarding(acts: seq<Action>, h: nat, captured: bool, c: nat, g: Gen, d: nat)
    requires Guarding.Reached(acts) && c < d < |acts| && acts[c] == Configure(h, captured) && acts[d] == Apply(g)
    requires h in Guarding.At(acts, c).handlers && Guarding.At(acts, c).handlers[h].kind == SetsProxy(false)
    ensures exists k :: c < k < d && StartsGuard(Guarding.At(acts, k), acts[k]) && g == Guarding.At(acts, k).generation + 1
  {
    if g in Guarding.At(acts, c).guards {
      ReconfigurationIsFinal(acts, h, captured, g, c, d);
      assert false;
    }
    UnguardedRequestStops(acts, h, captured, c);
    Guarding.PrefixRuns(acts, d);
    assert g in Guarding.At(acts, d).guards;
    StartedBetween(acts, c + 1, d, g);
  }

  lemma UnguardedRequestStops(acts: seq<Action>, h: nat, captured: bool, c: nat)
    requires Guarding.Reached(acts) && c < |acts| && acts[c] == Configure(h, captured)
    requires h in Guarding.At(acts, c).handlers && Guarding.At(acts, c).handlers[h].kind == SetsProxy(false)
    ensures var before, after := Guarding.At(acts, c), Guarding.At(acts, c + 1);
            after.guards == before.guards && after.cancel.None? && after.generation !in after.guards
  {
    RunKeepsInv(acts, c);
    Guarding.PrefixRuns(acts, c);
  }

  // ---- who writes, and that everyone can go on --------------------------------------------

  /** Settings are written by requests only, never by a shutdown, and inside the lock; afterwards a
      request that set a proxy successfully turns to the guard, any other one unlocks. */
  lemma WritersAreRequests(acts: seq<Action>, i: nat, h: nat, ok: bool)
    requires Guarding.Reached(acts) && i < |acts| && acts[i] == Write(h, ok)
    ensures var before, after := Guarding.At(acts, i), Guarding.At(acts, i + 1);
            && h in before.handlers && h in after.handlers && !before.handlers[h].kind.Shutdown?
            && before.lock == after.lock == Some(ByHandler(h))
            && after.handlers[h].pc == (if ok && before.handlers[h].kind.SetsProxy? then Wrote else Unlocking)
  {
    RunKeepsInv(acts, i);
    RunKeepsRoles(acts, i);
    Guarding.PrefixRuns(acts, i);
  }

  /** A shutdown gets no further than its stop. */
  ghost predicate Roles(s: State) {
    forall h :: h in s.handlers && s.handlers[h].kind.Shutdown? ==> s.handlers[h].pc == Entering || s.handlers[h].pc == Stopped
  }

  lemma StepKeepsRoles(s: State, a: Action)
    requires Roles(s) && Step(s, a).Some?
    ensures Roles(Step(s, a).value)
  {
  }

  lemma RunKeepsRoles(acts: seq<Action>, i: nat)
    requires Guarding.Reached(acts) && i <= |acts|
    ensures Roles(Guarding.At(acts, i))
  {
    forall s, a | Roles(s) && Step(s, a).Some? ensures Roles(Step(s, a).value) { StepKeepsRoles(s, a); }
    Guarding.Always(Roles, acts, i);
  }

  /** A guard loop ends only after it was cancelled, and a cancelled one that is watching can end. */
  lemma CancelledGuardsEnd(acts: seq<Action>, i: nat, g: Gen)
    requires Guarding.Reached(acts) && i <= |acts|
    ensures i < |acts| && acts[i] == Exit(g) ==> g in Guarding.At(acts, i).cancelled
    ensures var s := Guarding.At(acts, i); GuardAt(s, g, Watching) && g in s.cancelled ==>
              Step(s, Exit(g)).Some? && GuardAt(Step(s, Exit(g)).value, g, Exited)
  {
    Guarding.PrefixRuns(acts, i);
  }

  /** A guard writes once per check: after a write it can only unlock, and writes again only after it
      has checked again. */
  lemma GuardUnlocksAfterWrite(acts: seq<Action>, i: nat, g: Gen)
    requires Guarding.Reached(acts) && i < |acts| && acts[i] == Apply(g)
    ensures var s := Guarding.At(acts, i + 1); GuardAt(s, g, Releasing) && Step(s, GuardUnlock(g)).Some?
  {
    Guarding.PrefixRuns(acts, i);
  }

  lemma {:induction false} CheckBeforeWrite(acts: seq<Action>, i: nat, j: nat, g: Gen)
    requires Guarding.Reached(acts) && i <= j < |acts| && acts[j] == Apply(g) && !GuardAt(Guarding.At(acts, i), g, Applying)
    ensures exists k :: i <= k < j && acts[k] == Check(g)
    decreases j - i
  {
    Guarding.PrefixRuns(acts, i);
    if !GuardAt(Guarding.At(acts, i + 1), g, Applying) {
      CheckBeforeWrite(acts, i + 1, j, g);
    } else {
      assert acts[i] == Check(g);
    }
  }

  predicate Unfinished(handler: Handler) {
    handler.pending.Some? || (handler.pc != Finished && !(handler.kind.Shutdown? && handler.pc == Stopped))
  }

  /** Someone under way can take a step: not the arrival of a request, nor a guard noticing a change. */
  ghost predicate CanGoOn(s: State, a: Action) {
    !a.Arrive? && !a.Observe? && Step(s, a).Some?
  }

  function NextOf(h: nat, handler: Handler): Action {
    if handler.pending.Some? then Cancel(h)
    else match handler.pc
         case Entering => Stop(h)
         case Stopped => Lock(h)
         case Locked => Write(h, true)
         case Wrote => Configure(h, false)
         case _ => Unlock(h)
  }

  function NextOfGuard(g: Gen, pc: GuardPc): Action {
    match pc
    case Checking => Check(g)
    case Applying => Apply(g)
    case _ => GuardUnlock(g)
  }

  lemma LockHolderGoesOn(s: State)
    requires MutualExclusion(s) && s.lock.Some?
    ensures exists a :: CanGoOn(s, a)
  {
    match s.lock.value
    case ByHandler(h) => assert CanGoOn(s, NextOf(h, s.handlers[h]));
    case ByGuard(g) => assert CanGoOn(s, NextOfGuard(g, s.guards[g]));
  }

  /** No deadlock: while a request is unfinished, some request or guard can go on. */
  lemma NeverStuck(acts: seq<Action>, i: nat, h: nat)
    requires Guarding.Reached(acts) && i <= |acts|
    requires h in Guarding.At(acts, i).handlers && Unfinished(Guarding.At(acts, i).handlers[h])
    ensures exists a :: CanGoOn(Guarding.At(acts, i), a)
  {
    RunKeepsInv(acts, i);
    RunKeepsRoles(acts, i);
    var s := Guarding.At(acts, i);
    if s.lock.Some? && s.handlers[h].pc == Stopped && s.handlers[h].pending.None? {
      LockHolderGoesOn(s);
    } else {
      assert CanGoOn(s, NextOf(h, s.handlers[h]));
    }
  }

  /** No two settings writers are ever inside the mutation lock, and once no cancel call is
      outstanding at most one guard loop is left uncancelled: the one of the current generation. */
  lemma LiveGuardsAreCurrent(acts: seq<Action>, i: nat, g: Gen)
    requires Guarding.Reached(acts) && i <= |acts|
    requires g in Guarding.At(acts, i).guards && g !in Guarding.At(acts, i).cancelled && !CancelOwed(Guarding.At(acts, i), g)
    ensures g == Guarding.At(acts, i).generation && Guarding.At(acts, i).cancel == Some(g)
  {
    RunKeepsInv(acts, i);
  }

  lemma OneWriterInside(acts: seq<Action>, i: nat, g: Gen, h: nat)
    requires Guarding.Reached(acts) && i <= |acts|
    requires GuardAt(Guarding.At(acts, i), g, Applying)
    ensures forall g' :: g' != g ==> !GuardAt(Guarding.At(acts, i), g', Applying)
    ensures h in Guarding.At(acts, i).handlers ==> !HandlerHoldsLock(Guarding.At(acts, i).handlers[h].pc)
  {
    RunKeepsInv(acts, i);
  }

  /** A `proxy` request has written its settings and still holds the lock. */
  lemma ProxyWrites() returns (acts: seq<Action>, s: State)
    ensures Guarding.Exec(acts) == Some(s) && |acts| == 4
    ensures s == State(1, None, {}, Some(ByHandler(1)), map[1 := Handler(SetsProxy(true), Wrote, 1, None)], map[])
  {
    acts, s := Guarding.Extended([], Init, Arrive(1, SetsProxy(true)));
    assert s.handlers == map[1 := Handler(SetsProxy(true), Entering, 0, None)];
    acts, s := Guarding.Extended(acts, s, Stop(1));
    assert s.handlers == map[1 := Handler(SetsProxy(true), Stopped, 1, None)];
    acts, s := Guarding.Extended(acts, s, Lock(1));
    assert s.handlers == map[1 := Handler(SetsProxy(true), Locked, 1, None)];
    acts, s := Guarding.Extended(acts, s, Write(1, true));
    assert s.handlers == map[1 := Handler(SetsProxy(true), Wrote, 1, None)];
  }

  /** Meanwhile a request of any kind stops the guard. */
  lemma StopComesTooEarly(kind: Kind) returns (acts: seq<Action>, s: State)
    ensures Guarding.Exec(acts) == Some(s) && |acts| == 6 && acts[5] == Stop(2)
    ensures Guarding.At(acts, 5).guards == map[]
    ensures s == State(2, None, {}, Some(ByHandler(1)),
                       map[1 := Handler(SetsProxy(true), Wrote, 1, None), 2 := Handler(kind, Stopped, 2, None)], map[])
  {
    acts, s := ProxyWrites();
    acts, s := Guarding.Extended(acts, s, Arrive(2, kind));
    var before := acts;
    acts, s := Guarding.Extended(acts, s, Stop(2));
    assert acts[..5] == before;
    assert s.handlers == map[1 := Handler(SetsProxy(true), Wrote, 1, None), 2 := Handler(kind, Stopped, 2, None)];
  }

  /** The `proxy` request then starts its guard, and only now the other request gets the lock. */
  lemma GuardStartsBetween(kind: Kind) returns (acts: seq<Action>, s: State)
    requires !kind.Shutdown?
    ensures Guarding.Exec(acts) == Some(s) && |acts| == 9 && acts[5] == Stop(2)
    ensures 3 !in Guarding.At(acts, 5).guards
    ensures s.handlers.Keys == {1, 2} && s.handlers[2] == Handler(kind, Locked, 2, None)
    ensures s.lock == Some(ByHandler(2)) && s.generation == 3 && s.guards == map[3 := Watching]
  {
    acts, s := StopComesTooEarly(kind);
    var early := acts;
    acts, s := Guarding.Extended(acts, s, Configure(1, true));
    acts, s := Guarding.Extended(acts, s, Unlock(1));
    acts, s := Guarding.Extended(acts, s, Lock(2));
    assert acts[..5] == early[..5];
  }

  lemma MismatchedGuardCanRestore(acts: seq<Action>, s: State, g: Gen) returns (next: seq<Action>)
    requires Guarding.Exec(acts) == Some(s) && GuardAt(s, g, Mismatched) && s.generation == g && s.lock.None?
    ensures Guarding.Reached(next) && next == acts + [GuardLock(g), Check(g), Apply(g)]
  {
    var s' := s;
    next, s' := Guarding.Extended(acts, s', GuardLock(g));
    next, s' := Guarding.Extended(next, s', Check(g));
    next, s' := Guarding.Extended(next, s', Apply(g));
  }

  /** Whenever the mutation lock is free, the current guard can take it and re-apply its settings. */
  lemma CurrentGuardCanRestore(acts: seq<Action>, s: State, g: Gen) returns (next: seq<Action>)
    requires Guarding.Exec(acts) == Some(s) && GuardAt(s, g, Watching) && s.generation == g && s.lock.None?
    ensures Guarding.Reached(next) && next == acts + [Observe(g), GuardLock(g), Check(g), Apply(g)]
  {
    var seen, s' := Guarding.Extended(acts, s, Observe(g));
    next := MismatchedGuardCanRestore(seen, s', g);
  }

  /** The limit of the guarantee: a guard started between a `disable` handler's stop and its lock
      does overwrite the disabled settings, because `disable` bumps the generation only once. */
  lemma DisableCanBeUndone() returns (acts: seq<Action>, g: Gen)
    ensures Guarding.Reached(acts) && |acts| == 15
    ensures acts[5] == Stop(2) && acts[9] == Write(2, true) && acts[14] == Apply(g)
    ensures HandlerAt(Guarding.At(acts, 9), 2, Locked) && Guarding.At(acts, 9).handlers[2].kind == Disables
    ensures g !in Guarding.At(acts, 5).guards
  {
    var s: State;
    acts, s := GuardStartsBetween(Disables);
    var locked := acts;
    assert HandlerAt(s, 2, Locked);
    g := 3;
    acts, s := Guarding.Extended(acts, s, Write(2, true));
    acts, s := Guarding.Extended(acts, s, Unlock(2));
    acts := CurrentGuardCanRestore(acts, s, g);
    assert acts[..9] == locked && acts[..5] == locked[..5];
  }

  /** The same happens to a `pac` or `proxy` request that asks for a guard of its own and fails to
      set it up: its settings are written, the generation is not bumped again. */
  lemma FailedGuardCanBeOverwritten() returns (acts: seq<Action>, g: Gen)
    ensures Guarding.Reached(acts) && |acts| == 16
    ensures acts[5] == Stop(2) && acts[9] == Write(2, true) && acts[10] == Configure(2, false) && acts[15] == Apply(g)
    ensures HandlerAt(Guarding.At(acts, 9), 2, Locked) && Guarding.At(acts, 9).handlers[2].kind == SetsProxy(true)
    ensures g !in Guarding.At(acts, 5).guards
  {
    var s: State;
    acts, s := GuardStartsBetween(SetsProxy(true));
    var locked := acts;
    assert HandlerAt(s, 2, Locked);
    g := 3;
    acts, s := Guarding.Extended(acts, s, Write(2, true));
    acts, s := Guarding.Extended(acts, s, Configure(2, false));
    acts, s := Guarding.Extended(acts, s, Unlock(2));
    acts := CurrentGuardCanRestore(acts, s, g);
    assert acts[..9] == locked && acts[..5] == locked[..5];
  }
}
