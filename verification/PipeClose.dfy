/** Closing a named pipe under concurrent reads and writes (listen/namedpipe/file.go).

    An operation takes the read lock, checks `closing`, adds itself to the wait group and unlocks;
    it may then use the handle until it is done.  A closer takes the write lock, swaps `closing`
    and unlocks; the first one cancels pending I/O, waits for the group to drain and closes the
    handle.  Each of these is one atomic action. */
module PipeClose {
  import opened Runs

  datatype Pc =
    // an operation
    | ReadLocked | Admitted | Counted | Refused | InFlight
    // a closer: holding the lock, then the first one's remaining steps
    | Locked | Won | Lost | Cancelling | Waiting | Drained | Clearing | Closed
    | Finished

  datatype State = State(
    writer: Option<nat>, readers: set<nat>,
    closing: bool, group: nat,
    handleOpen: bool, closes: nat,
    threads: map<nat, Pc>)

  /** `Begin` and `BeginClose` are the calls together with the lock they wait for first. */
  datatype Action =
    | Begin(t: nat) | Check(t: nat) | Add(t: nat) | RUnlock(t: nat) | Use(t: nat) | Done(t: nat)
    | BeginClose(t: nat) | Swap(t: nat) | Unlock(t: nat) | CancelIo(t: nat) | Wait(t: nat)
    | CloseHandle(t: nat) | Clear(t: nat)

  const Init: State := State(None, {}, false, 0, true, 0, map[])

  predicate AtPc(s: State, t: nat, pc: Pc) {
    t in s.threads && s.threads[t] == pc
  }

  function Goto(s: State, t: nat, pc: Pc): State {
    s.(threads := s.threads[t := pc])
  }

  function OperationStep(s: State, a: Action): Option<State> {
    match a
    case Begin(t) =>
      if t !in s.threads && s.writer.None?
      then Some(Goto(s.(readers := s.readers + {t}), t, ReadLocked)) else None
    case Check(t) =>
      if AtPc(s, t, ReadLocked) then Some(Goto(s, t, if s.closing then Refused else Admitted)) else None
    case Add(t) =>
      if AtPc(s, t, Admitted) then Some(Goto(s.(group := s.group + 1), t, Counted)) else None
    case RUnlock(t) =>
      if AtPc(s, t, Counted) then Some(Goto(s.(readers := s.readers - {t}), t, InFlight))
      else if AtPc(s, t, Refused) then Some(Goto(s.(readers := s.readers - {t}), t, Finished))
      else None
    case Use(t) => if AtPc(s, t, InFlight) then Some(s) else None
    case Done(t) =>
      if AtPc(s, t, InFlight) && s.group > 0 then Some(Goto(s.(group := s.group - 1), t, Finished)) else None
    case _ => None
  }

  function CloserStep(s: State, a: Action): Option<State> {
    match a
    case BeginClose(t) =>
      if t !in s.threads && s.writer.None? && s.readers == {}
      then Some(Goto(s.(writer := Some(t)), t, Locked)) else None
    case Swap(t) =>
      if AtPc(s, t, Locked) then Some(Goto(s.(closing := true), t, if s.closing then Lost else Won)) else None
    case Unlock(t) =>
      if AtPc(s, t, Won) then Some(Goto(s.(writer := None), t, Cancelling))
      else if AtPc(s, t, Lost) then Some(Goto(s.(writer := None), t, Finished))
      else None
    case CancelIo(t) => if AtPc(s, t, Cancelling) then Some(Goto(s, t, Waiting)) else None
    case Wait(t) => if AtPc(s, t, Waiting) && s.group == 0 then Some(Goto(s, t, Drained)) else None
    case CloseHandle(t) =>
      if AtPc(s, t, Drained)
      then Some(Goto(s.(handleOpen := false, closes := s.closes + 1), t, Clearing)) else None
    case Clear(t) => if AtPc(s, t, Clearing) then Some(Goto(s, t, Closed)) else None
    case _ => None
  }

  function Step(s: State, a: Action): Option<State> {
    if OperationStep(s, a).Some? then OperationStep(s, a) else CloserStep(s, a)
  }

  // ---- invariant --------------------------------------------------------------------------

  predicate HoldsRead(pc: Pc) {
    pc.ReadLocked? || pc.Admitted? || pc.Counted? || pc.Refused?
  }

  predicate HoldsWrite(pc: Pc) {
    pc.Locked? || pc.Won? || pc.Lost?
  }

  predicate InGroup(pc: Pc) {
    pc.Counted? || pc.InFlight?
  }

  /** The closer that found the pipe open, from its swap on. */
  predicate IsWinner(pc: Pc) {
    pc.Won? || pc.Cancelling? || pc.Waiting? || PastWait(pc)
  }

  predicate PastWait(pc: Pc) {
    pc.Drained? || pc.Clearing? || pc.Closed?
  }

  function Group(s: State): set<nat> {
    set t | t in s.threads && InGroup(s.threads[t])
  }

  ghost predicate LocksHeld(s: State) {
    && (forall t :: t in s.readers <==> t in s.threads && HoldsRead(s.threads[t]))
    && (forall t :: t in s.threads && HoldsWrite(s.threads[t]) ==> s.writer == Some(t))
    && (s.writer.Some? ==> s.readers == {})
  }

  ghost predicate OneWinner(s: State) {
    && (s.closing <==> exists t :: t in s.threads && IsWinner(s.threads[t]))
    && forall t, u :: t in s.threads && u in s.threads && IsWinner(s.threads[t]) && IsWinner(s.threads[u]) ==> t == u
  }

  ghost predicate Admission(s: State) {
    && (forall t :: t in s.threads && (s.threads[t].Admitted? || s.threads[t].Counted?) ==> !s.closing)
    && (forall t :: t in s.threads && PastWait(s.threads[t]) ==> s.group == 0)
  }

  ghost predicate HandleOk(s: State) {
    && (s.handleOpen <==> forall t :: t in s.threads ==> !s.threads[t].Clearing? && !s.threads[t].Closed?)
    && s.closes == if s.handleOpen then 0 else 1
  }

  ghost predicate Inv(s: State) {
    LocksHeld(s) && OneWinner(s) && Admission(s) && HandleOk(s) && s.group == |Group(s)|
  }

  function Weight(threads: map<nat, Pc>, t: nat): nat {
    if t in threads && InGroup(threads[t]) then 1 else 0
  }

  lemma GroupAfter(s: State, s': State, t: nat, pc: Pc)
    requires s'.threads == s.threads[t := pc]
    ensures |Group(s')| + Weight(s.threads, t) == |Group(s)| + Weight(s'.threads, t)
  {
    var others := Group(s) - {t};
    assert Group(s') == if InGroup(pc) then others + {t} else others;
    assert Weight(s.threads, t) == 1 ==> Group(s) == others + {t};
    assert Weight(s.threads, t) == 0 ==> Group(s) == others;
  }

  /** One thread moves from one pc to another. */
  lemma StepMoves(s: State, a: Action)
    requires Step(s, a).Some?
    ensures var s' := Step(s, a).value;
            a.t in s'.threads && s'.threads == s.threads[a.t := s'.threads[a.t]]
  {
  }

  lemma OperationKeepsLocks(s: State, a: Action)
    requires LocksHeld(s) && OperationStep(s, a).Some?
    ensures LocksHeld(OperationStep(s, a).value)
  {
  }

  lemma CloserKeepsLocks(s: State, a: Action)
    requires LocksHeld(s) && CloserStep(s, a).Some?
    ensures LocksHeld(CloserStep(s, a).value)
  {
  }

  lemma StepKeepsGroup(s: State, a: Action)
    requires s.group == |Group(s)| && Step(s, a).Some?
    ensures Step(s, a).value.group == |Group(Step(s, a).value)|
  {
    StepMoves(s, a);
    GroupAfter(s, Step(s, a).value, a.t, Step(s, a).value.threads[a.t]);
  }

  lemma OperationKeepsAdmission(s: State, a: Action)
    requires OneWinner(s) && Admission(s) && OperationStep(s, a).Some?
    ensures Admission(OperationStep(s, a).value)
  {
    var s' := OperationStep(s, a).value;
    if a.Add? {
      assert !s.closing;
      assert forall u :: u in s'.threads ==> !PastWait(s'.threads[u]) || IsWinner(s.threads[u]);
    }
  }

  lemma CloserKeepsAdmission(s: State, a: Action)
    requires LocksHeld(s) && Admission(s) && CloserStep(s, a).Some?
    ensures Admission(CloserStep(s, a).value)
  {
    if a.Swap? {
      assert forall u :: u in s.threads ==> u !in s.readers;
    }
  }

  lemma OperationKeepsHandle(s: State, a: Action)
    requires HandleOk(s) && OperationStep(s, a).Some?
    ensures HandleOk(OperationStep(s, a).value)
  {
    var s' := OperationStep(s, a).value;
    StepMoves(s, a);
    assert a.t in s.threads ==> !s.threads[a.t].Clearing? && !s.threads[a.t].Closed?;
    assert forall u :: u in s.threads && u != a.t ==> u in s'.threads && s'.threads[u] == s.threads[u];
    assert forall u :: u in s'.threads && u != a.t ==> u in s.threads;
  }

  lemma CloserKeepsHandle(s: State, a: Action)
    requires OneWinner(s) && HandleOk(s) && CloserStep(s, a).Some?
    ensures HandleOk(CloserStep(s, a).value)
  {
    var s' := CloserStep(s, a).value;
    StepMoves(s, a);
    assert forall u :: u in s.threads && u != a.t ==> u in s'.threads && s'.threads[u] == s.threads[u];
    assert forall u :: u in s'.threads && u != a.t ==> u in s.threads;
    if a.CloseHandle? {
      forall u | u in s.threads ensures !s.threads[u].Clearing? && !s.threads[u].Closed? {
        assert IsWinner(s.threads[a.t]);
      }
    }
  }

  lemma OperationKeepsInv(s: State, a: Action)
    requires Inv(s) && OperationStep(s, a).Some?
    ensures Inv(OperationStep(s, a).value)
  {
    OperationKeepsLocks(s, a);
    StepKeepsGroup(s, a);
    OperationKeepsAdmission(s, a);
    OperationKeepsHandle(s, a);
    OperationKeepsWinner(s, a);
  }

  lemma WinnerStays(s: State, s': State, t: nat)
    requires OneWinner(s) && t in s'.threads && s'.threads == s.threads[t := s'.threads[t]] && s'.closing == s.closing
    requires !IsWinner(s'.threads[t]) && (t in s.threads ==> !IsWinner(s.threads[t]))
    ensures OneWinner(s')
  {
    if s.closing {
      var u :| u in s.threads && IsWinner(s.threads[u]);
      assert u in s'.threads && IsWinner(s'.threads[u]);
    }
  }

  lemma OperationKeepsWinner(s: State, a: Action)
    requires OneWinner(s) && OperationStep(s, a).Some?
    ensures OneWinner(OperationStep(s, a).value)
  {
    StepMoves(s, a);
    WinnerStays(s, OperationStep(s, a).value, a.t);
  }

  lemma CloserKeepsInv(s: State, a: Action)
    requires Inv(s) && CloserStep(s, a).Some?
    ensures Inv(CloserStep(s, a).value)
  {
    CloserKeepsLocks(s, a);
    StepKeepsGroup(s, a);
    CloserKeepsAdmission(s, a);
    CloserKeepsHandle(s, a);
    CloserKeepsWinner(s, a);
  }

  lemma CloserKeepsWinner(s: State, a: Action)
    requires Inv(s) && CloserStep(s, a).Some?
    ensures OneWinner(CloserStep(s, a).value)
  {
    var s' := CloserStep(s, a).value;
    var t := a.t;
    if t in s.threads && IsWinner(s.threads[t]) {
      assert s.closing && IsWinner(s'.threads[t]);
    } else if IsWinner(s'.threads[t]) {
      assert !s.closing;
    } else {
      assert s'.closing == s.closing;
      WinnerStays(s, s', t);
    }
  }

  /** Every interleaving. */
  const Pipe := Machine(Init, Step)

  lemma AlwaysInv(acts: seq<Action>, i: nat)
    requires Pipe.Reached(acts) && i <= |acts|
    ensures Inv(Pipe.At(acts, i))
  {
    forall s, a | Inv(s) && Step(s, a).Some? ensures Inv(Step(s, a).value) {
      if OperationStep(s, a).Some? { OperationKeepsInv(s, a); } else { CloserKeepsInv(s, a); }
    }
    Pipe.Always(Inv, acts, i);
  }

  // ---- what every run promises ------------------------------------------------------------

  /** Main result: in every interleaving the handle is open whenever it is used, for I/O or for
      cancelling I/O, and it is closed at most once. */
  lemma NeverUsesClosedHandle(acts: seq<Action>, i: nat)
    requires Pipe.Reached(acts) && i <= |acts|
    ensures Pipe.At(acts, i).closes <= 1
    ensures i < |acts| && (acts[i].Use? || acts[i].CancelIo? || acts[i].CloseHandle?) ==> Pipe.At(acts, i).handleOpen
  {
    AlwaysInv(acts, i);
    if i < |acts| && (acts[i].Use? || acts[i].CancelIo? || acts[i].CloseHandle?) {
      Pipe.PrefixRuns(acts, i);
      var s, t := Pipe.At(acts, i), acts[i].t;
      forall u | u in s.threads ensures !s.threads[u].Clearing? && !s.threads[u].Closed? {
        if acts[i].Use? {
          assert t in Group(s);
        } else {
          assert IsWinner(s.threads[t]);
        }
      }
    }
  }

  /** From the swap on no operation joins the group, so the wait cannot be overtaken, and a
      Close call that returned as the first one has closed the handle with nothing in flight. */
  lemma ClosedMeansQuiet(acts: seq<Action>, i: nat)
    requires Pipe.Reached(acts) && i <= |acts|
    ensures var s := Pipe.At(acts, i);
            && (i < |acts| && acts[i].Add? ==> !s.closing)
            && (!s.handleOpen ==> s.closing && Group(s) == {})
            && (forall t :: AtPc(s, t, Closed) ==> !s.handleOpen)
  {
    AlwaysInv(acts, i);
    var s := Pipe.At(acts, i);
    if i < |acts| && acts[i].Add? {
      Pipe.PrefixRuns(acts, i);
      assert AtPc(s, acts[i].t, Admitted);
    }
    if !s.handleOpen {
      var t :| t in s.threads && (s.threads[t].Clearing? || s.threads[t].Closed?);
      assert IsWinner(s.threads[t]) && PastWait(s.threads[t]);
    }
  }

  /** An operation is refused only once someone has begun to close: in a run without a closer every
      operation that checked was admitted and the handle stays open. */
  lemma {:induction false} OpenPipeAdmits(acts: seq<Action>, i: nat, t: nat)
    requires Pipe.Reached(acts) && i <= |acts| && forall k :: 0 <= k < i ==> !acts[k].BeginClose?
    ensures var s := Pipe.At(acts, i);
            && !s.closing && s.handleOpen && s.writer.None?
            && (t in s.threads ==> s.threads[t] in {ReadLocked, Admitted, Counted, InFlight, Finished})
  {
    if i > 0 {
      OpenPipeAdmits(acts, i - 1, t);
      OpenPipeAdmits(acts, i - 1, acts[i - 1].t);
      Pipe.PrefixRuns(acts, i - 1);
    }
  }

  /** The check of an operation decides by the closing flag alone, in both ways. */
  lemma CheckDecides(acts: seq<Action>, i: nat, t: nat)
    requires Pipe.Reached(acts) && i < |acts| && acts[i] == Check(t)
    ensures var s, s' := Pipe.At(acts, i), Pipe.At(acts, i + 1);
            t in s'.threads && s'.threads[t] == if s.closing then Refused else Admitted
  {
    Pipe.PrefixRuns(acts, i);
  }

  ghost predicate WaitsAfterCancel(s: State, acts: seq<Action>) {
    forall t :: t in s.threads && (s.threads[t].Waiting? || PastWait(s.threads[t])) ==> CancelIo(t) in acts
  }

  /** Pending I/O is cancelled before anyone waits for it, in every run. */
  lemma {:induction false} CancelComesFirst(acts: seq<Action>, i: nat)
    requires Pipe.Reached(acts) && i <= |acts|
    ensures WaitsAfterCancel(Pipe.At(acts, i), acts[..i])
    ensures i < |acts| && acts[i].Wait? ==> CancelIo(acts[i].t) in acts[..i]
  {
    if i > 0 {
      CancelComesFirst(acts, i - 1);
      Pipe.PrefixRuns(acts, i - 1);
      CancelStep(Pipe.At(acts, i - 1), acts[..i - 1], acts[i - 1]);
      assert acts[..i] == acts[..i - 1] + [acts[i - 1]];
    }
    if i < |acts| && acts[i].Wait? {
      Pipe.PrefixRuns(acts, i);
    }
  }

  lemma CancelStep(s: State, acts: seq<Action>, a: Action)
    requires WaitsAfterCancel(s, acts) && Step(s, a).Some?
    ensures WaitsAfterCancel(Step(s, a).value, acts + [a])
  {
    StepMoves(s, a);
  }

  /** Closing ends: when no call under way can go on, a pipe that someone began to close is closed. */
  lemma QuietMeansClosed(acts: seq<Action>, i: nat)
    requires Pipe.Reached(acts) && i <= |acts| && (forall a :: !CanGoOn(Pipe.At(acts, i), a))
    ensures var s := Pipe.At(acts, i);
            && (forall t :: t in s.threads ==> Ended(s.threads[t]))
            && (s.closing ==> !s.handleOpen && s.closes == 1)
  {
    var s := Pipe.At(acts, i);
    AlwaysInv(acts, i);
    forall t | t in s.threads ensures Ended(s.threads[t]) {
      if !Ended(s.threads[t]) {
        NeverStuck(acts, i, t);
      }
    }
    if s.closing {
      var t :| t in s.threads && IsWinner(s.threads[t]);
      assert Ended(s.threads[t]);
    }
  }

  predicate Ended(pc: Pc) {
    pc.Finished? || pc.Closed?
  }

  /** No deadlock: while a call is unfinished, some call already under way can go on. */
  lemma NeverStuck(acts: seq<Action>, i: nat, t: nat)
    requires Pipe.Reached(acts) && i <= |acts|
    requires t in Pipe.At(acts, i).threads && !Ended(Pipe.At(acts, i).threads[t])
    ensures exists a :: CanGoOn(Pipe.At(acts, i), a)
  {
    AlwaysInv(acts, i);
    var s := Pipe.At(acts, i);
    if s.threads[t].Waiting? && s.group > 0 {
      assert Group(s) != {};
      var u :| u in Group(s);
      assert CanGoOn(s, if s.threads[u].Counted? then RUnlock(u) else Done(u));
    } else {
      if s.threads[t].InFlight? { assert t in Group(s); }
      assert CanGoOn(s, NextOf(s.threads[t], t));
    }
  }

  ghost predicate CanGoOn(s: State, a: Action) {
    !a.Begin? && !a.BeginClose? && !a.Use? && Step(s, a).Some?
  }

  function NextOf(pc: Pc, t: nat): Action {
    match pc
    case ReadLocked => Check(t)
    case Admitted => Add(t)
    case Counted => RUnlock(t)
    case Refused => RUnlock(t)
    case InFlight => Done(t)
    case Locked => Swap(t)
    case Won => Unlock(t)
    case Lost => Unlock(t)
    case Cancelling => CancelIo(t)
    case Waiting => Wait(t)
    case Drained => CloseHandle(t)
    case _ => Clear(t)
  }
}
