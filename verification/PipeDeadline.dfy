/** Deadlines of a named pipe (deadlineHandler in listen/namedpipe/file.go).

    `set` runs under `setLock`; a timer it started runs its callback on its own: it stores the
    timed-out flag, loads the current channel and closes it.  Every such step is one atomic
    action, and a run is any interleaving of any number of `set` calls and timers. */
module PipeDeadline {
  import opened Runs

  /** No deadline, one still to come, one already past. */
  datatype Kind = Zero | Future | Past

  datatype SetPc =
    | Waiting | Locked | Draining | Dropping | Clearing | Polling | Replacing | Deciding
    | Expiring | Closing | Unlocking | Finished

  datatype Setter = Setter(kind: Kind, pc: SetPc)

  /** Armed until it expires or is stopped; then the callback's steps. */
  datatype TimerPc = Armed | Expired | Flagged | Loaded(ch: nat) | Fired | Stopped

  /** Channels are numbered in the order they are made; closing a closed one panics. */
  datatype State = State(
    lock: Option<nat>, setters: map<nat, Setter>,
    channel: nat, made: nat, closed: set<nat>, panicked: bool,
    timedout: bool,
    timer: Option<nat>, timers: seq<TimerPc>)

  datatype Action =
    | Call(t: nat, kind: Kind)
    | Acquire(t: nat)
    | Proceed(t: nat)
    | Expire(i: nat)
    | Callback(i: nat)

  const Init: State := State(None, map[], 0, 1, {}, false, false, None, [])

  function Close(s: State, ch: nat): State {
    s.(closed := s.closed + {ch}, panicked := s.panicked || ch in s.closed)
  }

  function Goto(s: State, t: nat, pc: SetPc): State
    requires t in s.setters
  {
    s.(setters := s.setters[t := s.setters[t].(pc := pc)])
  }

  /** The next step of the `set` call `t`, which holds the lock: first it gets rid of the old
      timer, waiting for its callback if it is too late to stop it ... */
  function RemoveTimer(s: State, t: nat): Option<State>
    requires t in s.setters
  {
    match s.setters[t].pc
    case Locked =>
      if s.timer.None? then Some(Goto(s, t, Clearing))
      else if s.timer.value >= |s.timers| then None
      else if s.timers[s.timer.value].Armed?
      then Some(Goto(s.(timers := s.timers[s.timer.value := Stopped]), t, Dropping))
      else Some(Goto(s, t, Draining))
    case Draining => if s.channel in s.closed then Some(Goto(s, t, Dropping)) else None
    case Dropping => Some(Goto(s.(timer := None), t, Clearing))
    case _ => None
  }

  /** ... then it clears the flag, replaces a closed channel and puts the new deadline in force. */
  function Install(s: State, t: nat): Option<State>
    requires t in s.setters
  {
    match s.setters[t].pc
    case Clearing => Some(Goto(s.(timedout := false), t, Polling))
    case Polling => Some(Goto(s, t, if s.channel in s.closed then Replacing else Deciding))
    case Replacing => Some(Goto(s.(channel := s.made, made := s.made + 1), t, Deciding))
    case Deciding => Some(Decide(s, t))
    case Expiring => Some(Goto(s.(timedout := true), t, Closing))
    case Closing => Some(Goto(Close(s, s.channel), t, Unlocking))
    case Unlocking => Some(Goto(s.(lock := None), t, Finished))
    case _ => None
  }

  function Section(s: State, t: nat): Option<State>
    requires t in s.setters
  {
    if RemoveTimer(s, t).Some? then RemoveTimer(s, t) else Install(s, t)
  }

  function Decide(s: State, t: nat): State
    requires t in s.setters
  {
    match s.setters[t].kind
    case Zero => Goto(s, t, Unlocking)
    case Future => Goto(s.(timer := Some(|s.timers|), timers := s.timers + [Armed]), t, Unlocking)
    case Past => Goto(s, t, Expiring)
  }

  function CallbackStep(s: State, i: nat): Option<State>
    requires i < |s.timers|
  {
    match s.timers[i]
    case Expired => Some(s.(timedout := true, timers := s.timers[i := Flagged]))
    case Flagged => Some(s.(timers := s.timers[i := Loaded(s.channel)]))
    case Loaded(ch) => Some(Close(s, ch).(timers := s.timers[i := Fired]))
    case _ => None
  }

  function Step(s: State, a: Action): Option<State> {
    match a
    case Call(t, kind) =>
      if t in s.setters then None else Some(s.(setters := s.setters[t := Setter(kind, Waiting)]))
    case Acquire(t) =>
      if t in s.setters && s.setters[t].pc.Waiting? && s.lock.None?
      then Some(Goto(s.(lock := Some(t)), t, Locked))
      else None
    case Proceed(t) => if t in s.setters then Section(s, t) else None
    case Expire(i) =>
      if i < |s.timers| && s.timers[i].Armed? then Some(s.(timers := s.timers[i := Expired])) else None
    case Callback(i) => if i < |s.timers| then CallbackStep(s, i) else None
  }

  // ---- invariant --------------------------------------------------------------------------

  predicate Live(pc: TimerPc) {
    pc.Armed? || Running(pc)
  }

  predicate Running(pc: TimerPc) {
    pc.Expired? || pc.Flagged? || pc.Loaded?
  }

  predicate InSection(pc: SetPc) {
    !pc.Waiting? && !pc.Finished?
  }

  ghost predicate LockHeld(s: State) {
    && (s.lock.Some? ==> s.lock.value in s.setters)
    && forall t :: t in s.setters ==> (InSection(s.setters[t].pc) <==> s.lock == Some(t))
  }

  /** Only the timer in the field can still do anything. */
  ghost predicate OneTimer(s: State) {
    && (s.timer.Some? ==> s.timer.value < |s.timers|)
    && forall i :: 0 <= i < |s.timers| && Live(s.timers[i]) ==> s.timer == Some(i)
  }

  predicate Open(s: State) {
    s.channel !in s.closed
  }

  /** Flag and channel agree, up to the callback that is changing them. */
  predicate Resting(s: State) {
    if s.timer.None? then s.timedout <==> !Open(s)
    else
      && s.timer.value < |s.timers|
      && match s.timers[s.timer.value]
         case Armed => !s.timedout && Open(s)
         case Expired => !s.timedout && Open(s)
         case Flagged => s.timedout && Open(s)
         case Loaded(ch) => s.timedout && Open(s) && ch == s.channel
         case Fired => s.timedout && !Open(s)
         case Stopped => false
  }

  /** What a `set` call has established when it is about to return. */
  predicate Established(s: State, kind: Kind) {
    match kind
    case Zero => s.timer.None? && !s.timedout && Open(s)
    case Future => s.timer.Some?
    case Past => s.timer.None? && s.timedout && !Open(s)
  }

  predicate Phase(s: State, setter: Setter) {
    match setter.pc
    case Locked => Resting(s)
    case Draining => Resting(s) && s.timer.Some? && !s.timers[s.timer.value].Armed?
    case Dropping => s.timer.Some? && s.timer.value < |s.timers| && !Live(s.timers[s.timer.value])
    case Clearing => s.timer.None?
    case Polling => s.timer.None? && !s.timedout
    case Replacing => s.timer.None? && !s.timedout && !Open(s)
    case Deciding => s.timer.None? && !s.timedout && Open(s)
    case Expiring => s.timer.None? && !s.timedout && Open(s) && setter.kind.Past?
    case Closing => s.timer.None? && s.timedout && Open(s) && setter.kind.Past?
    case Unlocking => Resting(s) && Established(s, setter.kind)
    case _ => true
  }

  ghost predicate Placed(s: State) {
    && (s.lock.None? ==> Resting(s))
    && (s.lock.Some? ==> s.lock.value in s.setters && Phase(s, s.setters[s.lock.value]))
  }

  ghost predicate Numbered(s: State) {
    s.channel < s.made && !s.panicked && forall ch :: ch in s.closed ==> ch < s.made
  }

  ghost predicate Inv(s: State) {
    LockHeld(s) && OneTimer(s) && Placed(s) && Numbered(s)
  }

  lemma SectionKeepsInv(s: State, t: nat)
    requires Inv(s) && t in s.setters && Section(s, t).Some?
    ensures Inv(Section(s, t).value)
  {
    if RemoveTimer(s, t).Some? { RemoveKeepsInv(s, t); } else { InstallKeepsInv(s, t); }
  }

  lemma RemoveKeepsInv(s: State, t: nat)
    requires Inv(s) && t in s.setters && RemoveTimer(s, t).Some?
    ensures Inv(RemoveTimer(s, t).value)
  {
    RemoveMoves(s, t);
    SectionKeepsLock(s, RemoveTimer(s, t).value, t);
    RemoveKeepsTimer(s, t);
    RemoveKeepsPlace(s, t);
  }

  lemma InstallKeepsInv(s: State, t: nat)
    requires Inv(s) && t in s.setters && Install(s, t).Some?
    ensures Inv(Install(s, t).value)
  {
    InstallMoves(s, t);
    SectionKeepsLock(s, Install(s, t).value, t);
    InstallKeepsTimer(s, t);
    InstallKeepsPlace(s, t);
    InstallKeepsNumbers(s, t);
  }

  /** Only the holder moves, and it gives up the lock exactly when it leaves its section. */
  ghost predicate HolderMoves(s: State, s': State, t: nat)
    requires t in s.setters
  {
    && t in s'.setters
    && (forall u :: u != t ==> (u in s'.setters <==> u in s.setters))
    && (forall u :: u != t && u in s.setters ==> s'.setters[u] == s.setters[u])
    && InSection(s.setters[t].pc)
    && s'.lock == if InSection(s'.setters[t].pc) then s.lock else None
  }

  lemma RemoveMoves(s: State, t: nat)
    requires t in s.setters && RemoveTimer(s, t).Some?
    ensures HolderMoves(s, RemoveTimer(s, t).value, t)
  {
  }

  lemma DecideMoves(s: State, t: nat)
    requires t in s.setters && s.setters[t].pc.Deciding?
    ensures HolderMoves(s, Decide(s, t), t)
  {
  }

  lemma InstallMoves(s: State, t: nat)
    requires t in s.setters && Install(s, t).Some?
    ensures HolderMoves(s, Install(s, t).value, t)
  {
    if s.setters[t].pc.Deciding? {
      DecideMoves(s, t);
    }
  }

  lemma SectionKeepsLock(s: State, s': State, t: nat)
    requires LockHeld(s) && t in s.setters && HolderMoves(s, s', t)
    ensures s.lock == Some(t) && LockHeld(s')
  {
  }

  lemma RemoveKeepsTimer(s: State, t: nat)
    requires OneTimer(s) && Placed(s) && s.lock == Some(t) && RemoveTimer(s, t).Some?
    ensures OneTimer(RemoveTimer(s, t).value)
  {
  }

  lemma RemoveKeepsPlace(s: State, t: nat)
    requires OneTimer(s) && Placed(s) && s.lock == Some(t) && RemoveTimer(s, t).Some?
    ensures Placed(RemoveTimer(s, t).value)
  {
  }

  lemma InstallKeepsTimer(s: State, t: nat)
    requires OneTimer(s) && Placed(s) && s.lock == Some(t) && Install(s, t).Some?
    ensures OneTimer(Install(s, t).value)
  {
  }

  lemma InstallKeepsPlace(s: State, t: nat)
    requires Numbered(s) && Placed(s) && s.lock == Some(t) && Install(s, t).Some?
    ensures Placed(Install(s, t).value)
  {
    if s.setters[t].pc.Unlocking? {
      assert Resting(Install(s, t).value);
    }
  }

  lemma InstallKeepsNumbers(s: State, t: nat)
    requires Numbered(s) && Placed(s) && s.lock == Some(t) && Install(s, t).Some?
    ensures Numbered(Install(s, t).value)
  {
  }

  lemma CallbackKeepsInv(s: State, i: nat)
    requires Inv(s) && i < |s.timers| && CallbackStep(s, i).Some?
    ensures Inv(CallbackStep(s, i).value)
  {
    assert Live(s.timers[i]) && s.timer == Some(i);
  }

  lemma StepKeepsInv(s: State, a: Action)
    requires Inv(s) && Step(s, a).Some?
    ensures Inv(Step(s, a).value)
  {
    match a
    case Proceed(t) => SectionKeepsInv(s, t);
    case Callback(i) => CallbackKeepsInv(s, i);
    case Expire(i) => assert Live(s.timers[i]) && s.timer == Some(i);
    case Call(_, _) =>
    case Acquire(t) => assert s.lock.None?;
  }

  /** Any interleaving of `set` calls and timers. */
  const Deadline := Machine(Init, Step)

  lemma AlwaysInv(acts: seq<Action>, i: nat)
    requires Deadline.Reached(acts) && i <= |acts|
    ensures Inv(Deadline.At(acts, i))
  {
    forall s, a | Inv(s) && Step(s, a).Some? ensures Inv(Step(s, a).value) {
      StepKeepsInv(s, a);
    }
    Deadline.Always(Inv, acts, i);
  }

  // ---- what every run promises ------------------------------------------------------------

  ghost predicate NoLiveTimer(s: State) {
    forall i :: 0 <= i < |s.timers| ==> !Live(s.timers[i])
  }

  /** Main result: in every interleaving no channel is closed twice, and between `set` calls,
      outside a running callback, the flag says exactly whether the current channel is closed. */
  lemma NeverClosesTwice(acts: seq<Action>, i: nat)
    requires Deadline.Reached(acts) && i <= |acts|
    ensures !Deadline.At(acts, i).panicked
    ensures var s := Deadline.At(acts, i);
            s.lock.None? && (forall k :: 0 <= k < |s.timers| ==> !Running(s.timers[k])) ==>
              (s.timedout <==> s.channel in s.closed)
  {
    AlwaysInv(acts, i);
  }

  /** When a `set` call returns its deadline is in force: no deadline leaves the channel open, the
      flag clear and nothing that could change them; a past one has closed the channel and set
      the flag; a future one leaves its timer as the only live one, or already fired. */
  lemma SetTakesEffect(acts: seq<Action>, i: nat, t: nat)
    requires Deadline.Reached(acts) && i < |acts| && acts[i] == Proceed(t)
    requires t in Deadline.At(acts, i).setters && Deadline.At(acts, i).setters[t].pc.Unlocking?
    ensures var s, kind := Deadline.At(acts, i + 1), Deadline.At(acts, i).setters[t].kind;
            && s.lock.None?
            && (kind.Zero? ==> s.channel !in s.closed && !s.timedout && NoLiveTimer(s))
            && (kind.Past? ==> s.channel in s.closed && s.timedout && NoLiveTimer(s))
            && (kind.Future? ==> s.timer.Some? && (NoLiveTimer(s) ==> s.channel in s.closed && s.timedout))
  {
    AlwaysInv(acts, i);
    AlwaysInv(acts, i + 1);
    Deadline.PrefixRuns(acts, i);
    var before := Deadline.At(acts, i);
    assert t in before.setters && InSection(before.setters[t].pc);
    assert before.lock == Some(t);
  }

  lemma OnlyCallsWhenQuiet(s: State, a: Action)
    requires Inv(s) && s.lock.None? && NoLiveTimer(s) && Step(s, a).Some? && !a.Acquire?
    ensures a.Call?
  {
    assert forall t :: t in s.setters ==> !InSection(s.setters[t].pc);
  }

  /** Until the lock is taken again, nothing changes after a `set` call without deadline. */
  lemma {:induction false} ClearedStaysCleared(acts: seq<Action>, i: nat, j: nat)
    requires Deadline.Reached(acts) && i <= j <= |acts|
    requires Deadline.At(acts, i).lock.None? && NoLiveTimer(Deadline.At(acts, i))
    requires forall k :: i <= k < j ==> !acts[k].Acquire?
    ensures var s, s' := Deadline.At(acts, i), Deadline.At(acts, j);
            && s'.lock.None? && NoLiveTimer(s')
            && s'.channel == s.channel && s'.closed == s.closed && s'.timedout == s.timedout
    decreases j - i
  {
    if i < j {
      AlwaysInv(acts, i);
      Deadline.PrefixRuns(acts, i);
      var s, s' := Deadline.At(acts, i), Deadline.At(acts, i + 1);
      assert Step(s, acts[i]) == Some(s');
      OnlyCallsWhenQuiet(s, acts[i]);
      ClearedStaysCleared(acts, i + 1, j);
    }
  }

  /** The channel is replaced only after it was closed, so nobody is left waiting on one that will not
      be, and only while no timer, running or armed, could close it. */
  lemma ReplacedOnlyWhenQuiet(acts: seq<Action>, i: nat)
    requires Deadline.Reached(acts) && i < |acts| && Deadline.At(acts, i + 1).channel != Deadline.At(acts, i).channel
    ensures NoLiveTimer(Deadline.At(acts, i)) && Deadline.At(acts, i + 1).channel !in Deadline.At(acts, i).closed
    ensures Deadline.At(acts, i).channel in Deadline.At(acts, i).closed
  {
    AlwaysInv(acts, i);
    Deadline.PrefixRuns(acts, i);
    var s := Deadline.At(acts, i);
    assert acts[i].Proceed?;
    assert s.setters[acts[i].t].pc.Replacing?;
    assert s.lock == Some(acts[i].t);
  }

  /** A `set` call is never stuck: whenever the lock is held, its holder can go on, or it waits
      for a callback that can. */
  lemma NeverStuck(acts: seq<Action>, i: nat)
    requires Deadline.Reached(acts) && i <= |acts| && Deadline.At(acts, i).lock.Some?
    ensures var s := Deadline.At(acts, i);
            || Step(s, Proceed(s.lock.value)).Some?
            || (s.timer.Some? && Step(s, Callback(s.timer.value)).Some?)
  {
    AlwaysInv(acts, i);
    var s := Deadline.At(acts, i);
    assert InSection(s.setters[s.lock.value].pc);
  }

  /** A timer that is armed at the end of a run can expire, and its callback then runs to the end by
      itself: the flag is set and the current channel, open until then, is closed. */
  lemma ArmedTimerFires(acts: seq<Action>, i: nat) returns (next: seq<Action>)
    requires Deadline.Reached(acts) && i < |Deadline.At(acts, |acts|).timers| && Deadline.At(acts, |acts|).timers[i].Armed?
    ensures next == acts + [Expire(i), Callback(i), Callback(i), Callback(i)] && Deadline.Reached(next)
    ensures var s, s' := Deadline.At(acts, |acts|), Deadline.At(next, |next|);
            s'.timedout && s'.channel == s.channel && s.channel !in s.closed && s.channel in s'.closed
  {
    AlwaysInv(acts, |acts|);
    var s := Deadline.At(acts, |acts|);
    ArmedMeansOpen(s, i);
    assert acts[..|acts|] == acts;
    var s';
    next, s' := Fire(acts, s, i);
    assert next[..|next|] == next;
  }

  lemma Fire(acts: seq<Action>, s: State, i: nat) returns (next: seq<Action>, s': State)
    requires Deadline.Exec(acts) == Some(s) && i < |s.timers| && s.timers[i].Armed?
    ensures next == acts + [Expire(i), Callback(i), Callback(i), Callback(i)] && Deadline.Exec(next) == Some(s')
    ensures s'.timedout && s'.channel == s.channel && s.channel in s'.closed
  {
    next, s' := Deadline.Extended(acts, s, Expire(i));
    assert s'.timers[i] == Expired;
    next, s' := Deadline.Extended(next, s', Callback(i));
    assert s'.timers[i] == Flagged && s'.timedout;
    next, s' := Deadline.Extended(next, s', Callback(i));
    assert s'.timers[i] == Loaded(s.channel);
    next, s' := Deadline.Extended(next, s', Callback(i));
  }

  lemma ArmedMeansOpen(s: State, i: nat)
    requires Inv(s) && i < |s.timers| && s.timers[i].Armed?
    ensures s.channel !in s.closed
  {
    assert Live(s.timers[i]) && s.timer == Some(i);
  }
}
