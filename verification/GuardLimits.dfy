/** Exactly when the settings written under the system-proxy guard protocol stay in force
    (route/sysproxyapi/sysproxy_guard.go, route/sysproxyapi/sysproxy.go). */
module GuardLimits {
  import opened Runs
  import opened SysproxyGuard

  /** No request arrives at its stop and no handler reconfigures the guard. */
  predicate Undisturbed(a: Action) {
    !a.Stop? && !a.Configure?
  }

  /** Whatever was cancelled or is about to be is older than the current generation, and only
      cancelled loops have ended. */
  ghost predicate OldOnly(s: State) {
    && (forall g :: g in s.cancelled ==> g < s.generation)
    && (forall h :: h in s.handlers && s.handlers[h].pending.Some? ==> s.handlers[h].pending.value < s.generation)
    && (forall g :: g in s.guards && s.guards[g] == Exited ==> g in s.cancelled)
  }

  ghost predicate OldCancelled(s: State) {
    Inv(s) && OldOnly(s)
  }

  lemma HandlerKeepsOldOnly(s: State, a: Action)
    requires GenerationsBounded(s) && OldOnly(s) && HandlerStep(s, a).Some?
    ensures OldOnly(HandlerStep(s, a).value)
  {
  }

  lemma GuardKeepsOldOnly(s: State, a: Action)
    requires OldOnly(s) && GuardStep(s, a).Some?
    ensures OldOnly(GuardStep(s, a).value)
  {
  }

  lemma StepKeepsOldCancelled(s: State, a: Action)
    requires OldCancelled(s) && Step(s, a).Some?
    ensures OldCancelled(Step(s, a).value)
  {
    StepKeepsInv(s, a);
    if HandlerStep(s, a).Some? { HandlerKeepsOldOnly(s, a); } else { GuardKeepsOldOnly(s, a); }
  }

  lemma RunKeepsOldCancelled(acts: seq<Action>, i: nat)
    requires Guarding.Reached(acts) && i <= |acts|
    ensures OldCancelled(Guarding.At(acts, i))
  {
    forall s, a | OldCancelled(s) && Step(s, a).Some? ensures OldCancelled(Step(s, a).value) { StepKeepsOldCancelled(s, a); }
    Guarding.Always(OldCancelled, acts, i);
  }

  /** No loop belongs to the current generation and none is past its check. */
  ghost predicate Guardless(s: State) {
    s.generation !in s.guards && forall g :: g in s.guards ==> s.guards[g] != Applying
  }

  lemma StepKeepsGuardless(s: State, a: Action)
    requires Guardless(s) && Undisturbed(a) && Step(s, a).Some?
    ensures Guardless(Step(s, a).value)
  {
  }

  lemma {:induction false} GuardlessStays(acts: seq<Action>, i: nat, j: nat)
    requires Guarding.Reached(acts) && i <= j <= |acts| && Guardless(Guarding.At(acts, i))
    requires forall k :: i <= k < j ==> Undisturbed(acts[k])
    ensures Guardless(Guarding.At(acts, j))
    decreases j - i
  {
    if i < j {
      Guarding.PrefixRuns(acts, i);
      StepKeepsGuardless(Guarding.At(acts, i), acts[i]);
      GuardlessStays(acts, i + 1, j);
    }
  }

  /** `later` continues the run undisturbed and lets some guard write. */
  ghost predicate Overwrites(acts: seq<Action>, later: seq<Action>) {
    && Guarding.Reached(acts + later)
    && (forall k :: 0 <= k < |later| ==> Undisturbed(later[k]))
    && exists k :: 0 <= k < |later| && later[k].Apply?
  }

  /** With this action the handler is done with the settings and has not reconfigured the guard: a
      `disable` write, a write that failed, or a guard that could not be set up. */
  predicate LeavesGuardAlone(s: State, a: Action, h: nat) {
    && h in s.handlers
    && ((a.Write? && a.h == h && !(a.ok && s.handlers[h].kind.SetsProxy?))
        || (a.Configure? && a.h == h && !Reconfigures(s.handlers[h].kind, a.captured)))
  }

  /** Exactly when a handler that leaves the guard alone can be overwritten before anyone
      reconfigures: if and only if the current generation belongs to a guard by then. */
  lemma OverwrittenExactlyIf(acts: seq<Action>, h: nat)
    requires Guarding.Reached(acts) && acts != []
    requires LeavesGuardAlone(Guarding.At(acts, |acts| - 1), acts[|acts| - 1], h)
    ensures (exists later :: Overwrites(acts, later)) <==>
            Guarding.At(acts, |acts|).generation in Guarding.At(acts, |acts|).guards
  {
    var n := |acts|;
    RunKeepsOldCancelled(acts, n);
    Guarding.PrefixRuns(acts, n - 1);
    assert acts[..n] == acts;
    var s := Guarding.At(acts, n);
    assert HandlerAt(s, h, Unlocking);
    assert s.lock == Some(ByHandler(h));
    if s.generation in s.guards {
      var later := GuardTakesOver(acts, s, h);
    } else {
      forall later: seq<Action> | Guarding.Reached(acts + later) && forall k :: 0 <= k < |later| ==> Undisturbed(later[k])
        ensures forall k :: 0 <= k < |later| ==> !later[k].Apply?
      {
        NobodyApplies(acts, later);
      }
    }
  }

  predicate Inside(s: State, h: nat) {
    h in s.handlers && (s.handlers[h].pc == Locked || s.handlers[h].pc == Wrote)
  }

  predicate Leaving(s: State, h: nat) {
    h in s.handlers && (s.handlers[h].pc == Unlocking || s.handlers[h].pc == Finished)
  }

  lemma StepKeepsLeaving(s: State, a: Action, h: nat)
    requires Leaving(s, h) && Step(s, a).Some?
    ensures Leaving(Step(s, a).value, h)
  {
  }

  /** While a handler is inside the lock no guard is started, and it stays inside or leaves. */
  lemma StepInside(s: State, a: Action, h: nat)
    requires MutualExclusion(s) && Inside(s, h) && Step(s, a).Some?
    ensures Inside(Step(s, a).value, h) || Leaving(Step(s, a).value, h)
    ensures a.Configure? ==> a.h == h
    ensures !a.Configure? ==> Step(s, a).value.guards.Keys == s.guards.Keys
  {
    assert s.lock == Some(ByHandler(h));
  }

  lemma {:induction false} NoneStartedInside(acts: seq<Action>, i: nat, j: nat, h: nat)
    requires Guarding.Reached(acts) && i <= j <= |acts|
    requires Inside(Guarding.At(acts, i), h) && Inside(Guarding.At(acts, j), h)
    ensures Guarding.At(acts, j).guards.Keys == Guarding.At(acts, i).guards.Keys
    decreases j - i
  {
    if i < j {
      RunKeepsInv(acts, i);
      Guarding.PrefixRuns(acts, i);
      var s, s' := Guarding.At(acts, i), Guarding.At(acts, i + 1);
      StepInside(s, acts[i], h);
      if Leaving(s', h) {
        var gone := (s: State) => Leaving(s, h);
        forall s, a | gone(s) && Step(s, a).Some? ensures gone(Step(s, a).value) { StepKeepsLeaving(s, a, h); }
        Guarding.KeptBetween(gone, acts, i + 1, j);
        assert false;
      }
      assert !acts[i].Configure?;
      NoneStartedInside(acts, i + 1, j, h);
    }
  }

  /** The guard that can overwrite a handler was started after the handler's stop and before it got
      the lock. */
  lemma OverwriterStartedBetween(acts: seq<Action>, h: nat, b: nat, l: nat)
    requires Guarding.Reached(acts) && b < |acts| && l < |acts| - 1 && acts[b] == Stop(h) && acts[l] == Lock(h)
    requires LeavesGuardAlone(Guarding.At(acts, |acts| - 1), acts[|acts| - 1], h)
    requires Guarding.At(acts, |acts|).generation in Guarding.At(acts, |acts|).guards
    ensures Guarding.At(acts, |acts|).generation !in Guarding.At(acts, b + 1).guards
    ensures Guarding.At(acts, |acts|).generation in Guarding.At(acts, l).guards
  {
    StartedAfterStop(acts, h, b);
    InsideAfterLock(acts, l, h);
    InsideBeforeLast(acts, h);
    NoneStartedInside(acts, l + 1, |acts| - 1, h);
  }

  lemma InsideAfterLock(acts: seq<Action>, l: nat, h: nat)
    requires Guarding.Reached(acts) && l < |acts| && acts[l] == Lock(h)
    ensures Inside(Guarding.At(acts, l + 1), h)
    ensures Guarding.At(acts, l + 1).guards == Guarding.At(acts, l).guards
  {
    Guarding.PrefixRuns(acts, l);
    LockStep(Guarding.At(acts, l), h);
  }

  lemma InsideBeforeLast(acts: seq<Action>, h: nat)
    requires Guarding.Reached(acts) && acts != [] && LeavesGuardAlone(Guarding.At(acts, |acts| - 1), acts[|acts| - 1], h)
    ensures Inside(Guarding.At(acts, |acts| - 1), h)
    ensures Guarding.At(acts, |acts|).guards == Guarding.At(acts, |acts| - 1).guards
  {
    Guarding.PrefixRuns(acts, |acts| - 1);
    LastStep(Guarding.At(acts, |acts| - 1), acts[|acts| - 1], h);
  }

  lemma LockStep(s: State, h: nat)
    requires Step(s, Lock(h)).Some?
    ensures Inside(Step(s, Lock(h)).value, h) && Step(s, Lock(h)).value.guards == s.guards
  {
  }

  lemma LastStep(s: State, a: Action, h: nat)
    requires LeavesGuardAlone(s, a, h) && Step(s, a).Some?
    ensures Inside(s, h) && Step(s, a).value.guards == s.guards
  {
  }

  lemma StartedAfterStop(acts: seq<Action>, h: nat, b: nat)
    requires Guarding.Reached(acts) && b < |acts| && acts[b] == Stop(h)
    requires Guarding.At(acts, |acts|).generation in Guarding.At(acts, |acts|).guards
    ensures Guarding.At(acts, |acts|).generation !in Guarding.At(acts, b + 1).guards
  {
    var bump := Guarding.At(acts, b).generation + 1;
    RunKeepsInv(acts, b);
    Guarding.PrefixRuns(acts, b);
    assert Guarding.At(acts, b + 1).generation == bump && bump !in Guarding.At(acts, b + 1).guards;
    var later := (s: State) => Unguarded(s, bump);
    forall s, a | later(s) && Step(s, a).Some? ensures later(Step(s, a).value) { StepKeepsUnguarded(s, a, bump); }
    Guarding.KeptBetween(later, acts, b + 1, |acts|);
    RunKeepsInv(acts, b + 1);
  }

  /** A generation made by a stop never gets a guard. */
  ghost predicate Unguarded(s: State, bump: Gen) {
    bump <= s.generation && bump !in s.guards
  }

  lemma StepKeepsUnguarded(s: State, a: Action, bump: Gen)
    requires Unguarded(s, bump) && Step(s, a).Some?
    ensures Unguarded(Step(s, a).value, bump)
  {
  }

  lemma NobodyApplies(acts: seq<Action>, later: seq<Action>)
    requires Guarding.Reached(acts) && Guardless(Guarding.At(acts, |acts|)) && Guarding.Reached(acts + later)
    requires forall k :: 0 <= k < |later| ==> Undisturbed(later[k])
    ensures forall k :: 0 <= k < |later| ==> !later[k].Apply?
  {
    var all := acts + later;
    assert all[..|acts|] == acts && acts[..|acts|] == acts;
    assert forall k :: |acts| <= k < |all| ==> all[k] == later[k - |acts|];
    forall k | 0 <= k < |later| ensures !later[k].Apply? {
      GuardlessApplies(all, |acts|, |acts| + k);
      assert all[|acts| + k] == later[k];
    }
  }

  lemma GuardlessApplies(acts: seq<Action>, i: nat, j: nat)
    requires Guarding.Reached(acts) && i <= j < |acts| && Guardless(Guarding.At(acts, i))
    requires forall k :: i <= k < |acts| ==> Undisturbed(acts[k])
    ensures !acts[j].Apply?
  {
    GuardlessStays(acts, i, j);
    Guarding.PrefixRuns(acts, j);
  }

  /** The handler unlocks, then the current guard restores its own settings. */
  lemma GuardTakesOver(acts: seq<Action>, s: State, h: nat) returns (later: seq<Action>)
    requires Guarding.Exec(acts) == Some(s) && OldCancelled(s) && HandlerAt(s, h, Unlocking) && s.lock == Some(ByHandler(h))
    requires s.generation in s.guards
    ensures Overwrites(acts, later)
  {
    var g := s.generation;
    assert s.guards[g] == Watching || s.guards[g] == Mismatched;
    var next, s' := Guarding.Extended(acts, s, Unlock(h));
    var rest: seq<Action>;
    if s.guards[g] == Watching {
      next := CurrentGuardCanRestore(next, s', g);
      rest := [Observe(g), GuardLock(g), Check(g), Apply(g)];
    } else {
      next := MismatchedGuardCanRestore(next, s', g);
      rest := [GuardLock(g), Check(g), Apply(g)];
    }
    later := [Unlock(h)] + rest;
    assert next == acts + later;
    assert later[|later| - 1].Apply?;
  }
}
