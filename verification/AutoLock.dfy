/**
 Auto-lock of the session manager as a step machine.

 Every atomic access of the program to shared state is one action: the generation increment,
 the state store under the mutex, the cancellation of the stored task, the rotation of the
 notify handle, the spawn, and for a timer its first poll, each branch of its `select!`, the
 generation load and the store under one mutex hold. Any number of unlock, lock, activity,
 mutation and timer tasks interleave. An aborted task may still run until its next await.
 */
module AutoLock {
  import opened Common

  /** `writer` is the generation of the unlock that stored the state, `content` its payload. */
  datatype VaultState = Locked | Unlocked(writer: nat, content: nat)

  /** Program counter of one `unlock` or `lock` call. */
  datatype Pc =
    | Begun
    | Numbered(gen: nat)
    | Stored(gen: nat)
    | Cancelled(gen: nat)
    | Rotated(gen: nat, handle: nat)
    | Spawned(gen: nat, task: nat)
    | Returned

  datatype Call = Call(unlock: bool, timeout: nat, content: nat, pc: Pc)

  /** Where a timer task is inside its loop. */
  datatype Phase =
    | Unstarted
    | Waiting(deadline: nat)   // at the select!
    | Woken(deadline: nat)     // a notification was consumed
    | Renewing(deadline: nat)  // the generation matched after the notification
    | Elapsed                  // the sleep branch won; waiting for the state mutex
    | Holding                  // the state mutex is held
    | Decided(expire: bool)    // the generation was loaded under the mutex
    | Ended

  /** `owner` is the call that spawned it, `since` the instant the current deadline was computed from, and `renewals`
      counts the deadline's moves. */
  datatype Timer = Timer(gen: nat, handle: nat, timeout: nat, phase: Phase, aborted: bool,
                         since: nat, renewals: nat, owner: nat)

  /** One `notify_activity` call: the handle it cloned and whether it has notified yet. */
  datatype Activity = Activity(handle: nat, sent: bool)

  datatype Sys = Sys(
    state: VaultState,
    holder: Option<nat>,       // the timer that holds the state mutex
    generation: nat,
    notify: nat,               // the manager's current notify handle
    handles: nat,              // handles created so far: 0 .. handles - 1
    stored: Option<nat>,       // the stored task handle
    permits: set<nat>,         // handles with a stored notification
    woken: set<nat>,           // handles whose waiting timer has been notified but has not run yet
    sent: multiset<nat>,       // notifications ever sent, by handle
    timers: seq<Timer>,
    calls: seq<Call>,
    activities: seq<Activity>,
    now: nat,
    drawer: Option<nat>,       // the call that drew the current generation
    rotator: Option<nat>)      // the call that made the current notify handle

  const INIT := Sys(Locked, None, 1, 0, 1, None, {}, {}, multiset{}, [], [], [], 0, None, None)

  datatype Action =
    | BeginUnlock(timeout: nat, content: nat)
    | BeginLock
    | Number(c: nat)
    | Store(c: nat)
    | Cancel(c: nat)
    | Rotate(c: nat)
    | Spawn(c: nat)
    | Install(c: nat)
    | ReadHandle
    | Send(a: nat, wakes: bool)  // to the registered waiter, or stored
    | Mutate(newContent: nat)
    | Start(t: nat)
    | Consume(t: nat)
    | CheckWake(t: nat)
    | Renew(t: nat)
    | Elapse(t: nat)
    | Acquire(t: nat)
    | Load(t: nat)
    | Finish(t: nat)
    | Die(t: nat)
    | Tick(n: nat)
  {
    predicate IsBegin() { BeginUnlock? || BeginLock? }

    predicate IsCallStep() {
      IsBegin() || Number? || Store? || Cancel? || Rotate? || Spawn? || Install?
    }

    /** A step of a timer task that is not its cancellation. */
    predicate IsTimerStep() {
      Start? || Consume? || CheckWake? || Renew? || Elapse? || Acquire? || Load? || Finish?
    }
  }

  predicate TimerIn(s: Sys, t: nat) { t < |s.timers| }

  /** Some timer waits on this handle. */
  predicate Awaited(s: Sys, h: nat) {
    exists t :: 0 <= t < |s.timers| && s.timers[t].handle == h && s.timers[t].phase.Waiting?
  }

  predicate Enabled(s: Sys, a: Action) {
    match a
    case BeginUnlock(_, _) => true
    case BeginLock => true
    case Number(c) => c < |s.calls| && s.calls[c].pc.Begun?
    case Store(c) => c < |s.calls| && s.calls[c].pc.Numbered? && s.holder.None?
    case Cancel(c) => c < |s.calls| && s.calls[c].pc.Stored?
    case Rotate(c) => c < |s.calls| && s.calls[c].pc.Cancelled?
    case Spawn(c) => c < |s.calls| && s.calls[c].pc.Rotated?
    case Install(c) => c < |s.calls| && s.calls[c].pc.Spawned?
    case ReadHandle => true
    case Send(i, wakes) =>
      i < |s.activities| && !s.activities[i].sent
      && (wakes ==> Awaited(s, s.activities[i].handle) && s.activities[i].handle !in s.woken)
    case Mutate(_) => s.holder.None? && s.state.Unlocked?
    case Start(t) => TimerIn(s, t) && s.timers[t].phase.Unstarted?
    case Consume(t) => TimerIn(s, t) && s.timers[t].phase.Waiting? && s.timers[t].handle in s.permits + s.woken
    case CheckWake(t) => TimerIn(s, t) && s.timers[t].phase.Woken?
    case Renew(t) => TimerIn(s, t) && s.timers[t].phase.Renewing?
    case Elapse(t) => TimerIn(s, t) && s.timers[t].phase.Waiting? && s.timers[t].phase.deadline <= s.now
    case Acquire(t) => TimerIn(s, t) && s.timers[t].phase.Elapsed? && s.holder.None?
    case Load(t) => TimerIn(s, t) && s.timers[t].phase.Holding?
    case Finish(t) => TimerIn(s, t) && s.timers[t].phase.Decided?
    case Die(t) => TimerIn(s, t) && s.timers[t].aborted
                   && (s.timers[t].phase.Unstarted? || s.timers[t].phase.Waiting? || s.timers[t].phase.Elapsed?)
    case Tick(_) => true
  }

  function At(s: Sys, c: nat, p: Pc): Sys
    requires c < |s.calls|
  {
    s.(calls := s.calls[c := s.calls[c].(pc := p)])
  }

  function In(s: Sys, t: nat, p: Phase): Sys
    requires TimerIn(s, t)
  {
    s.(timers := s.timers[t := s.timers[t].(phase := p)])
  }

  function Aborting(timers: seq<Timer>, stored: Option<nat>): seq<Timer> {
    if stored.Some? && stored.value < |timers|
    then timers[stored.value := timers[stored.value].(aborted := true)] else timers
  }

  /** The effect of one action. */
  function Do(s: Sys, a: Action): Sys
    requires Enabled(s, a)
  {
    match a
    case BeginUnlock(timeout, content) => s.(calls := s.calls + [Call(true, timeout, content, Begun)])
    case BeginLock => s.(calls := s.calls + [Call(false, 0, 0, Begun)])
    case Number(c) => At(s, c, Numbered(s.generation + 1)).(generation := s.generation + 1, drawer := Some(c))
    case Store(c) =>
      var call := s.calls[c];
      At(s, c, Stored(call.pc.gen)).(
        state := if call.unlock then Unlocked(call.pc.gen, call.content) else Locked)
    case Cancel(c) =>
      var call := s.calls[c];
      At(s, c, if call.unlock then Cancelled(call.pc.gen) else Returned).(
        timers := Aborting(s.timers, s.stored), stored := None)
    case Rotate(c) =>
      At(s, c, Rotated(s.calls[c].pc.gen, s.handles)).(notify := s.handles, handles := s.handles + 1,
                                                       rotator := Some(c))
    case Spawn(c) =>
      var call := s.calls[c];
      At(s, c, Spawned(call.pc.gen, |s.timers|)).(
        timers := s.timers + [Timer(call.pc.gen, call.pc.handle, call.timeout, Unstarted, false, s.now, 0, c)])
    case Install(c) => At(s, c, Returned).(stored := Some(s.calls[c].pc.task))
    case ReadHandle => s.(activities := s.activities + [Activity(s.notify, false)])
    case Send(i, wakes) =>
      var h := s.activities[i].handle;
      s.(activities := s.activities[i := Activity(h, true)], sent := s.sent + multiset{h},
         permits := if wakes then s.permits else s.permits + {h}, woken := if wakes then s.woken + {h} else s.woken)
    case Mutate(content) => s.(state := s.state.(content := content))
    case Start(t) =>
      var timer := s.timers[t];
      s.(timers := s.timers[t := timer.(phase := Waiting(s.now + timer.timeout), since := s.now)])
    case Consume(t) =>
      var h := s.timers[t].handle;
      In(s, t, Woken(s.timers[t].phase.deadline)).(
        permits := if h in s.woken then s.permits else s.permits - {h}, woken := s.woken - {h})
    case CheckWake(t) =>
      In(s, t, if s.generation == s.timers[t].gen then Renewing(s.timers[t].phase.deadline) else Ended)
    case Renew(t) =>
      var timer := s.timers[t];
      s.(timers := s.timers[t := timer.(phase := Waiting(s.now + timer.timeout), since := s.now,
                                        renewals := timer.renewals + 1)])
    case Elapse(t) => In(s, t, Elapsed)
    case Acquire(t) => In(s, t, Holding).(holder := Some(t))
    case Load(t) => In(s, t, Decided(s.generation == s.timers[t].gen))
    case Finish(t) =>
      In(s, t, Ended).(holder := None, state := if s.timers[t].phase.expire then Locked else s.state)
    case Die(t) => In(s, t, Ended)
    case Tick(n) => s.(now := s.now + n)
  }

  /** The state after a run of actions from a new manager, if every action was enabled. */
  function Exec(acts: seq<Action>): Option<Sys> {
    if acts == [] then Some(INIT)
    else
      var before := Exec(acts[..|acts| - 1]);
      var a := acts[|acts| - 1];
      if before.Some? && Enabled(before.value, a) then Some(Do(before.value, a)) else None
  }

  // ------------------------------------------------------------------------------------------
  // What every step of every interleaving keeps
  // ------------------------------------------------------------------------------------------

  ghost predicate CallOk(s: Sys, p: Pc) {
    match p
    case Begun => true
    case Numbered(g) => g <= s.generation
    case Stored(g) => g <= s.generation
    case Cancelled(g) => g <= s.generation
    case Rotated(g, h) => g <= s.generation && h < s.handles && h !in s.woken
                          && (forall t :: 0 <= t < |s.timers| ==> s.timers[t].handle != h)
    case Spawned(g, t) => g <= s.generation && t < |s.timers|
    case Returned => true
  }

  /** Notifications a timer has consumed or has pending. */
  function Owed(s: Sys, t: nat): nat
    requires TimerIn(s, t)
  {
    s.timers[t].renewals
    + (if s.timers[t].phase.Woken? || s.timers[t].phase.Renewing? then 1 else 0)
    + (if s.timers[t].handle in s.permits then 1 else 0)
    + (if s.timers[t].handle in s.woken then 1 else 0)
  }

  ghost predicate TimerOk(s: Sys, t: nat)
    requires TimerIn(s, t)
  {
    var timer := s.timers[t];
    && timer.gen <= s.generation
    && timer.handle < s.handles
    && (timer.phase.Holding? || timer.phase.Decided? <==> s.holder == Some(t))
    && (timer.phase == Decided(true) && s.state.Unlocked? ==> s.state.writer <= timer.gen)
    && (timer.phase == Decided(false) ==> timer.gen < s.generation)
    && Owed(s, t) <= s.sent[timer.handle]
    && (timer.phase.Waiting? || timer.phase.Woken? || timer.phase.Renewing? ==>
          timer.phase.deadline == timer.since + timer.timeout)
    && (timer.phase.Elapsed? || timer.phase.Holding? || timer.phase.Decided? ==> timer.since + timer.timeout <= s.now)
    && timer.since <= s.now
  }

  ghost predicate SharedOk(s: Sys) {
    && (s.state.Unlocked? ==> s.state.writer <= s.generation)
    && s.notify < s.handles
    && (forall h :: h in s.permits ==> h in s.sent)
    && (forall h :: h in s.woken ==> h < s.handles)
    && (s.holder.Some? ==> s.holder.value < |s.timers|)
    && (s.stored.Some? ==> s.stored.value < |s.timers|)
    && (forall i :: 0 <= i < |s.activities| ==> s.activities[i].handle < s.handles)
  }

  /** No two timers and no two pending spawns share a notify handle. */
  ghost predicate HandlesOk(s: Sys) {
    && (forall t, u :: 0 <= t < |s.timers| && 0 <= u < |s.timers| && t != u ==>
          s.timers[t].handle != s.timers[u].handle)
    && (forall c, d :: 0 <= c < |s.calls| && 0 <= d < |s.calls| && c != d
                       && s.calls[c].pc.Rotated? && s.calls[d].pc.Rotated? ==>
          s.calls[c].pc.handle != s.calls[d].pc.handle)
  }

  ghost predicate Inv(s: Sys) {
    && SharedOk(s)
    && HandlesOk(s)
    && (forall c :: 0 <= c < |s.calls| ==> CallOk(s, s.calls[c].pc))
    && (forall t :: 0 <= t < |s.timers| ==> TimerOk(s, t))
  }

  lemma StepKeepsCalls(s: Sys, a: Action)
    requires Inv(s) && Enabled(s, a)
    ensures forall c :: 0 <= c < |Do(s, a).calls| ==> CallOk(Do(s, a), Do(s, a).calls[c].pc)
  {
    var s' := Do(s, a);
    forall c | 0 <= c < |s'.calls| ensures CallOk(s', s'.calls[c].pc) {
      if c < |s.calls| { assert CallOk(s, s.calls[c].pc); }
      if a.Rotate? {
        forall t | 0 <= t < |s.timers| ensures s.timers[t].handle < s.handles { assert TimerOk(s, t); }
      }
    }
  }

  lemma CallStepKeepsTimers(s: Sys, a: Action)
    requires Inv(s) && Enabled(s, a) && a.IsCallStep()
    ensures forall t :: 0 <= t < |Do(s, a).timers| ==> TimerOk(Do(s, a), t)
  {
    var s' := Do(s, a);
    forall t | 0 <= t < |s'.timers| ensures TimerOk(s', t) {
      if t < |s.timers| { assert TimerOk(s, t); }
    }
  }

  lemma TimerStepKeepsTimers(s: Sys, a: Action)
    requires Inv(s) && Enabled(s, a) && a.IsTimerStep()
    ensures forall t :: 0 <= t < |Do(s, a).timers| ==> TimerOk(Do(s, a), t)
  {
    var s' := Do(s, a);
    forall t | 0 <= t < |s'.timers| ensures TimerOk(s', t) {
      if t == a.t { TimerStepKeepsItself(s, a); } else { TimerStepKeepsOther(s, a, t); }
    }
  }

  lemma TimerStepKeepsItself(s: Sys, a: Action)
    requires Inv(s) && Enabled(s, a) && a.IsTimerStep()
    ensures TimerOk(Do(s, a), a.t)
  {
    assert TimerOk(s, a.t);
  }

  lemma TimerStepKeepsOther(s: Sys, a: Action, t: nat)
    requires Inv(s) && Enabled(s, a) && a.IsTimerStep() && t < |s.timers| && t != a.t
    ensures TimerOk(Do(s, a), t)
  {
    assert TimerOk(s, t) && TimerOk(s, a.t);
  }

  lemma OtherStepKeepsTimers(s: Sys, a: Action)
    requires Inv(s) && Enabled(s, a) && !a.IsCallStep() && !a.IsTimerStep()
    ensures forall t :: 0 <= t < |Do(s, a).timers| ==> TimerOk(Do(s, a), t)
  {
    var s' := Do(s, a);
    forall t | 0 <= t < |s'.timers| ensures TimerOk(s', t) {
      assert TimerOk(s, t);
    }
  }

  lemma StepKeepsHandles(s: Sys, a: Action)
    requires Inv(s) && Enabled(s, a)
    ensures HandlesOk(Do(s, a))
  {
    if a.Spawn? { SpawnKeepsHandles(s, a); } else if a.Rotate? { RotateKeepsHandles(s, a); }
  }

  lemma SpawnKeepsHandles(s: Sys, a: Action)
    requires Inv(s) && Enabled(s, a) && a.Spawn?
    ensures HandlesOk(Do(s, a))
  {
    assert CallOk(s, s.calls[a.c].pc);
  }

  lemma RotateKeepsHandles(s: Sys, a: Action)
    requires Inv(s) && Enabled(s, a) && a.Rotate?
    ensures HandlesOk(Do(s, a))
  {
    forall c | 0 <= c < |s.calls| && s.calls[c].pc.Rotated? ensures s.calls[c].pc.handle < s.handles {
      assert CallOk(s, s.calls[c].pc);
    }
  }

  lemma StepKeepsShared(s: Sys, a: Action)
    requires Inv(s) && Enabled(s, a)
    ensures SharedOk(Do(s, a))
  {
    if a.IsCallStep() && !a.IsBegin() { assert CallOk(s, s.calls[a.c].pc); }
  }

  lemma StepKeepsInv(s: Sys, a: Action)
    requires Inv(s) && Enabled(s, a)
    ensures Inv(Do(s, a))
  {
    StepKeepsCalls(s, a);
    StepKeepsHandles(s, a);
    StepKeepsShared(s, a);
    if a.IsCallStep() { CallStepKeepsTimers(s, a); }
    else if a.IsTimerStep() { TimerStepKeepsTimers(s, a); }
    else { OtherStepKeepsTimers(s, a); }
  }

  lemma {:induction false} RunKeepsInv(acts: seq<Action>)
    requires Exec(acts).Some?
    ensures Inv(Exec(acts).value)
  {
    if acts != [] {
      RunKeepsInv(acts[..|acts| - 1]);
      StepKeepsInv(Exec(acts[..|acts| - 1]).value, acts[|acts| - 1]);
    }
  }

  lemma ExecSnoc(acts: seq<Action>, a: Action)
    ensures Exec(acts + [a]) == (if Exec(acts).Some? && Enabled(Exec(acts).value, a)
                                 then Some(Do(Exec(acts).value, a)) else None)
  {
    assert (acts + [a])[..|acts + [a]| - 1] == acts;
  }

  // ------------------------------------------------------------------------------------------
  // Stale timers and stale activity, in every interleaving
  // ------------------------------------------------------------------------------------------

  /** An unlocked state is locked only by a `lock` call, or by a timer at least as new as the unlock. */
  lemma {:induction false} StaleTimerSafety(acts: seq<Action>, a: Action)
    requires Exec(acts + [a]).Some?
    ensures Exec(acts).Some?
    ensures var before, after := Exec(acts).value, Exec(acts + [a]).value;
            before.state.Unlocked? && after.state.Locked? ==>
              || (a.Store? && a.c < |before.calls| && !before.calls[a.c].unlock)
              || (a.Finish? && a.t < |before.timers| && before.state.writer <= before.timers[a.t].gen)
  {
    ExecSnoc(acts, a);
    RunKeepsInv(acts);
    if a.Finish? { assert TimerOk(Exec(acts).value, a.t); }
  }

  /** How often the run moved the deadline of timer `t`. */
  function Moves(acts: seq<Action>, t: nat): nat {
    if acts == [] then 0
    else Moves(acts[..|acts| - 1], t) + (if acts[|acts| - 1] == Renew(t) then 1 else 0)
  }

  /** How many notifications the run sent through handle `h`. */
  function SendsVia(acts: seq<Action>, h: nat): nat {
    if acts == [] then 0
    else
      var before, a := Exec(acts[..|acts| - 1]), acts[|acts| - 1];
      SendsVia(acts[..|acts| - 1], h)
      + (if before.Some? && SendHandle(before.value, a) == Some(h) then 1 else 0)
  }

  function SendHandle(s: Sys, a: Action): Option<nat> {
    if a.Send? && a.a < |s.activities| then Some(s.activities[a.a].handle) else None
  }

  function RenewalsOf(s: Sys, t: nat): nat {
    if t < |s.timers| then s.timers[t].renewals else 0
  }

  lemma StepCounts(s: Sys, a: Action, t: nat, h: nat)
    requires Enabled(s, a)
    ensures Do(s, a).sent[h] == s.sent[h] + (if SendHandle(s, a) == Some(h) then 1 else 0)
    ensures RenewalsOf(Do(s, a), t) == RenewalsOf(s, t) + (if a == Renew(t) then 1 else 0)
  {
  }

  lemma {:induction false} CountsMatch(acts: seq<Action>, t: nat, h: nat)
    requires Exec(acts).Some?
    ensures Exec(acts).value.sent[h] == SendsVia(acts, h)
    ensures Moves(acts, t) == RenewalsOf(Exec(acts).value, t)
  {
    if acts != [] {
      CountsMatch(acts[..|acts| - 1], t, h);
      StepCounts(Exec(acts[..|acts| - 1]).value, acts[|acts| - 1], t, h);
    }
  }

  /** The instant at which the run last started timer `t` or renewed its deadline. */
  function LastSet(acts: seq<Action>, t: nat): nat {
    if acts == [] then 0
    else
      var before, a := Exec(acts[..|acts| - 1]), acts[|acts| - 1];
      if before.Some? && (a == Start(t) || a == Renew(t)) then before.value.now
      else LastSet(acts[..|acts| - 1], t)
  }

  predicate Polled(s: Sys, t: nat) { t < |s.timers| && !s.timers[t].phase.Unstarted? && !s.timers[t].phase.Ended? }

  lemma StepSets(s: Sys, a: Action, t: nat)
    requires Enabled(s, a) && Polled(Do(s, a), t)
    ensures a == Start(t) || a == Renew(t) ==> Do(s, a).timers[t].since == s.now
    ensures a != Start(t) && a != Renew(t) ==> Polled(s, t) && Do(s, a).timers[t].since == s.timers[t].since
  {
  }

  lemma {:induction false} SinceIsLastSet(acts: seq<Action>, t: nat)
    requires Exec(acts).Some? && Polled(Exec(acts).value, t)
    ensures Exec(acts).value.timers[t].since == LastSet(acts, t)
  {
    if acts != [] {
      var s, a := Exec(acts[..|acts| - 1]).value, acts[|acts| - 1];
      StepSets(s, a, t);
      if a != Start(t) && a != Renew(t) { SinceIsLastSet(acts[..|acts| - 1], t); }
    }
  }

  /** Every move of a deadline is paid for by a notification through that timer's own handle. */
  lemma {:induction false} DeadlineMovesAreOwed(acts: seq<Action>, t: nat)
    requires Exec(acts).Some? && t < |Exec(acts).value.timers|
    ensures Moves(acts, t) <= SendsVia(acts, Exec(acts).value.timers[t].handle)
  {
    var s := Exec(acts).value;
    RunKeepsInv(acts);
    CountsMatch(acts, t, s.timers[t].handle);
    assert TimerOk(s, t);
  }

  ghost predicate Extends(acts: seq<Action>, more: seq<Action>) {
    |acts| <= |more| && more[..|acts|] == acts && Exec(more).Some?
  }

  lemma {:induction false} HandlesAreFixed(acts: seq<Action>, more: seq<Action>)
    requires Extends(acts, more)
    ensures Exec(acts).Some?
    ensures var p, q := Exec(acts).value, Exec(more).value;
            |p.activities| <= |q.activities|
            && forall i :: 0 <= i < |p.activities| ==> q.activities[i].handle == p.activities[i].handle
    decreases |more|
  {
    if |more| == |acts| {
      assert more == acts;
    } else {
      assert more[..|more| - 1][..|acts|] == acts;
      HandlesAreFixed(acts, more[..|more| - 1]);
    }
  }

  /**
   An activity that cloned its handle before timer `t`'s handle existed never touches that timer,
   whenever it gets to send its notification.
  */
  lemma {:induction false} StaleActivityIsHarmless(acts: seq<Action>, more: seq<Action>, i: nat, t: nat, wakes: bool)
    requires Extends(acts, more)
    requires Exec(acts).Some? && i < |Exec(acts).value.activities|
    requires var p, q := Exec(acts).value, Exec(more).value;
             t < |q.timers| && p.handles <= q.timers[t].handle && Enabled(q, Send(i, wakes))
    ensures var q := Exec(more).value;
            var after := Do(q, Send(i, wakes));
            && after.timers == q.timers
            && (forall a :: Enabled(after, a) && (a == Consume(t) || a == Renew(t)) ==> Enabled(q, a))
  {
    RunKeepsInv(acts);
    HandlesAreFixed(acts, more);
  }

  // ------------------------------------------------------------------------------------------
  // Timer coverage: where the current generation, handle and stored timer come from
  // ------------------------------------------------------------------------------------------

  ghost predicate Idle(s: Sys) { forall c :: 0 <= c < |s.calls| ==> s.calls[c].pc.Returned? }

  predicate Live(timer: Timer) { !timer.aborted && !timer.phase.Ended? }

  /** Timer `t` is the live timer of the current generation, on the current notify handle. */
  ghost predicate CoveredBy(s: Sys, t: nat) {
    && TimerIn(s, t)
    && Live(s.timers[t])
    && s.timers[t].gen == s.generation
    && s.timers[t].handle == s.notify
    && s.timers[t].phase != Decided(false)
    && (s.timers[t].phase.Waiting? ==> s.timers[t].phase.deadline == s.timers[t].since + s.timers[t].timeout)
  }

  /** Exactly one timer carries the current generation, and it is live. */
  ghost predicate Covered(s: Sys) {
    exists t: nat :: CoveredBy(s, t)
      && forall u :: 0 <= u < |s.timers| && s.timers[u].gen == s.generation ==> u == t
  }

  /** The timer that covers the vault is also the one a later call would abort. */
  ghost predicate Held(s: Sys) { s.stored.Some? && CoveredBy(s, s.stored.value) }

  /** What a call knows of the current generation and handle. */
  ghost predicate CallLine(s: Sys, c: nat)
    requires c < |s.calls|
  {
    match s.calls[c].pc
    case Begun => s.drawer != Some(c) && s.rotator != Some(c)
    case Numbered(g) => (g == s.generation <==> s.drawer == Some(c)) && s.rotator != Some(c)
    case Stored(g) => (g == s.generation <==> s.drawer == Some(c)) && s.rotator != Some(c)
    case Cancelled(g) => (g == s.generation <==> s.drawer == Some(c)) && s.rotator != Some(c) && s.calls[c].unlock
    case Rotated(g, h) =>
      (g == s.generation <==> s.drawer == Some(c)) && (h == s.notify <==> s.rotator == Some(c)) && s.calls[c].unlock
    case Spawned(_, t) => t < |s.timers| && s.timers[t].owner == c && !s.timers[t].aborted && s.stored != Some(t)
    case Returned => true
  }

  ghost predicate TimerLine(s: Sys, t: nat)
    requires TimerIn(s, t)
  {
    var timer := s.timers[t];
    && timer.owner < |s.calls|
    && (s.calls[timer.owner].pc.Returned? || (s.calls[timer.owner].pc.Spawned? && s.calls[timer.owner].pc.task == t))
    && (timer.gen == s.generation <==> s.drawer == Some(timer.owner))
    && (timer.handle == s.notify <==> s.rotator == Some(timer.owner))
  }

  /** An unlock call that has stored its session and will still rotate the handle. */
  predicate WillRotate(s: Sys, c: nat) {
    c < |s.calls| && s.calls[c].unlock && (s.calls[c].pc.Stored? || s.calls[c].pc.Cancelled?)
  }

  /** A timer of the current generation that ended while the vault is unlocked again has lost its handle, or is about
      to. */
  ghost predicate EndedLine(s: Sys, t: nat)
    requires TimerIn(s, t)
  {
    s.timers[t].phase.Ended? && !s.timers[t].aborted && s.timers[t].gen == s.generation && s.state.Unlocked? ==>
      s.timers[t].handle != s.notify || exists c: nat :: WillRotate(s, c)
  }

  ghost predicate Lineage(s: Sys) {
    && (forall c :: 0 <= c < |s.calls| ==> CallLine(s, c))
    && (forall t :: 0 <= t < |s.timers| ==> TimerLine(s, t) && EndedLine(s, t))
    && OwnersDistinct(s) && SlotOk(s) && RecordsOk(s) && RotatorLine(s)
  }

  ghost predicate OwnersDistinct(s: Sys) {
    forall t, u :: 0 <= t < |s.timers| && 0 <= u < |s.timers| && s.timers[t].owner == s.timers[u].owner ==> t == u
  }

  /** The call that made the current handle is about to spawn its timer, or has. */
  ghost predicate RotatorLine(s: Sys) {
    s.rotator.Some? && s.rotator.value < |s.calls| && !s.calls[s.rotator.value].pc.Rotated? ==>
      exists t :: 0 <= t < |s.timers| && s.timers[t].owner == s.rotator.value
  }

  predicate SlotOk(s: Sys) { s.stored.Some? ==> s.stored.value < |s.timers| && !s.timers[s.stored.value].aborted }

  predicate RecordsOk(s: Sys) {
    (s.drawer.Some? ==> s.drawer.value < |s.calls|) && (s.rotator.Some? ==> s.rotator.value < |s.calls|)
  }

  lemma CallStepKeepsCallLine(s: Sys, a: Action, c: nat)
    requires Inv(s) && Lineage(s) && Enabled(s, a) && a.IsCallStep() && c < |Do(s, a).calls|
    ensures CallLine(Do(s, a), c)
  {
    if c < |s.calls| { assert CallLine(s, c) && CallOk(s, s.calls[c].pc); }
    if !a.IsBegin() { assert CallLine(s, a.c) && CallOk(s, s.calls[a.c].pc); }
  }

  lemma OtherStepKeepsCallLine(s: Sys, a: Action, c: nat)
    requires Inv(s) && Lineage(s) && Enabled(s, a) && !a.IsCallStep() && c < |s.calls|
    ensures Do(s, a).calls == s.calls && CallLine(Do(s, a), c)
  {
    assert CallLine(s, c);
  }

  lemma StepKeepsTimerLine(s: Sys, a: Action, t: nat)
    requires Inv(s) && Lineage(s) && Enabled(s, a) && t < |Do(s, a).timers|
    ensures TimerLine(Do(s, a), t)
  {
    if t < |s.timers| { assert TimerLine(s, t) && TimerOk(s, t); }
    if a.IsCallStep() && !a.IsBegin() { assert CallLine(s, a.c); }
  }

  lemma CallStepKeepsEndedLine(s: Sys, a: Action, t: nat)
    requires Inv(s) && Lineage(s) && Enabled(s, a) && a.IsCallStep() && t < |Do(s, a).timers|
    ensures EndedLine(Do(s, a), t)
  {
    var s' := Do(s, a);
    if t < |s.timers| {
      assert TimerOk(s, t) && EndedLine(s, t);
      if a.Store? && s.calls[a.c].unlock { assert WillRotate(s', a.c); }
      if c: nat :| WillRotate(s, c) {
        if !(a.Rotate? && a.c == c) { assert WillRotate(s', c); }
      }
    }
  }

  lemma OtherStepKeepsEndedLine(s: Sys, a: Action, t: nat)
    requires Inv(s) && Lineage(s) && Enabled(s, a) && !a.IsCallStep() && t < |Do(s, a).timers|
    ensures EndedLine(Do(s, a), t)
  {
    assert TimerOk(s, t) && EndedLine(s, t);
    if c: nat :| WillRotate(s, c) { assert WillRotate(Do(s, a), c); }
  }

  lemma StepKeepsOwners(s: Sys, a: Action)
    requires Lineage(s) && Enabled(s, a)
    ensures OwnersDistinct(Do(s, a))
  {
    var s' := Do(s, a);
    assert forall t :: 0 <= t < |s.timers| ==> s'.timers[t].owner == s.timers[t].owner;
    if a.Spawn? {
      forall t | 0 <= t < |s.timers| ensures s.timers[t].owner != a.c { assert TimerLine(s, t); }
    }
  }

  lemma StepKeepsSlot(s: Sys, a: Action)
    requires Lineage(s) && Enabled(s, a)
    ensures SlotOk(Do(s, a))
  {
    if a.Install? { assert CallLine(s, a.c); }
  }

  lemma StepKeepsRotatorLine(s: Sys, a: Action)
    requires Lineage(s) && Enabled(s, a)
    ensures RotatorLine(Do(s, a))
  {
    var s' := Do(s, a);
    if s'.rotator.Some? {
      var c := s'.rotator.value;
      if a == Spawn(c) {
        assert s'.timers[|s.timers|].owner == c;
      } else if t :| 0 <= t < |s.timers| && s.timers[t].owner == c {
        assert s'.timers[t].owner == c;
      }
    }
  }

  lemma StepKeepsRecords(s: Sys, a: Action)
    requires RecordsOk(s) && Enabled(s, a)
    ensures RecordsOk(Do(s, a))
  {
  }

  lemma StepKeepsLineage(s: Sys, a: Action)
    requires Inv(s) && Lineage(s) && Enabled(s, a)
    ensures Lineage(Do(s, a))
  {
    var s' := Do(s, a);
    forall c | 0 <= c < |s'.calls| ensures CallLine(s', c) {
      if a.IsCallStep() { CallStepKeepsCallLine(s, a, c); } else { OtherStepKeepsCallLine(s, a, c); }
    }
    forall t | 0 <= t < |s'.timers| ensures TimerLine(s', t) && EndedLine(s', t) {
      StepKeepsTimerLine(s, a, t);
      if a.IsCallStep() { CallStepKeepsEndedLine(s, a, t); } else { OtherStepKeepsEndedLine(s, a, t); }
    }
    StepKeepsOwners(s, a);
    StepKeepsSlot(s, a);
    StepKeepsRecords(s, a);
    StepKeepsRotatorLine(s, a);
  }

  /** The call whose task is stored. */
  function SlotOwner(s: Sys): Option<nat> {
    if s.stored.Some? && s.stored.value < |s.timers| then Some(s.timers[s.stored.value].owner) else None
  }

  /** The call that last drew a generation. */
  function LastNumber(acts: seq<Action>): Option<nat> {
    if acts == [] then None
    else if acts[|acts| - 1].Number? then Some(acts[|acts| - 1].c)
    else LastNumber(acts[..|acts| - 1])
  }

  /** The call that last rotated the notify handle. */
  function LastRotate(acts: seq<Action>): Option<nat> {
    if acts == [] then None
    else if acts[|acts| - 1].Rotate? then Some(acts[|acts| - 1].c)
    else LastRotate(acts[..|acts| - 1])
  }

  /** The call that last installed its task, unless a cancellation followed. */
  function LastInstalled(acts: seq<Action>): Option<nat> {
    if acts == [] then None
    else if acts[|acts| - 1].Install? then Some(acts[|acts| - 1].c)
    else if acts[|acts| - 1].Cancel? then None
    else LastInstalled(acts[..|acts| - 1])
  }

  lemma StepKeepsSlotOwner(s: Sys, a: Action)
    requires Inv(s) && Lineage(s) && Enabled(s, a)
    ensures SlotOwner(Do(s, a)) == if a.Install? then Some(a.c) else if a.Cancel? then None else SlotOwner(s)
  {
    if a.Install? { assert CallLine(s, a.c); }
  }

  lemma StepRecordsCalls(s: Sys, a: Action)
    requires Enabled(s, a)
    ensures Do(s, a).drawer == if a.Number? then Some(a.c) else s.drawer
    ensures Do(s, a).rotator == if a.Rotate? then Some(a.c) else s.rotator
  {
  }

  lemma {:induction false} RunKeepsLineage(acts: seq<Action>)
    requires Exec(acts).Some?
    ensures var s := Exec(acts).value;
            && Inv(s) && Lineage(s)
            && s.drawer == LastNumber(acts) && s.rotator == LastRotate(acts) && SlotOwner(s) == LastInstalled(acts)
  {
    RunKeepsInv(acts);
    if acts != [] {
      var front, a := acts[..|acts| - 1], acts[|acts| - 1];
      RunKeepsLineage(front);
      StepKeepsLineage(Exec(front).value, a);
      StepKeepsSlotOwner(Exec(front).value, a);
      StepRecordsCalls(Exec(front).value, a);
    }
  }

  /** No cancellation has met the task of call `c` in the slot. */
  predicate NotCancelled(acts: seq<Action>, c: nat) {
    acts == []
    || (NotCancelled(acts[..|acts| - 1], c)
        && !(acts[|acts| - 1].Cancel? && LastInstalled(acts[..|acts| - 1]) == Some(c)))
  }

  /** The cancelled timers are those whose owner a cancellation met. */
  ghost predicate CancelLine(s: Sys, acts: seq<Action>) {
    && (forall t :: 0 <= t < |s.timers| ==> (s.timers[t].aborted <==> !NotCancelled(acts, s.timers[t].owner)))
    && (forall c: nat :: !NotCancelled(acts, c) ==> c < |s.calls| && s.calls[c].pc.Returned?)
  }

  /** A call whose task is in the slot has returned. */
  lemma SlotOwnerReturned(s: Sys)
    requires Lineage(s) && SlotOwner(s).Some?
    ensures SlotOwner(s).value < |s.calls| && s.calls[SlotOwner(s).value].pc.Returned?
  {
    assert TimerLine(s, s.stored.value);
    assert CallLine(s, SlotOwner(s).value);
  }

  lemma StepAborts(s: Sys, a: Action, t: nat)
    requires Lineage(s) && Enabled(s, a) && t < |Do(s, a).timers|
    ensures var timer := Do(s, a).timers[t];
            if t < |s.timers| then
              timer.owner == s.timers[t].owner
              && (timer.aborted <==> s.timers[t].aborted || (a.Cancel? && SlotOwner(s) == Some(timer.owner)))
            else a.Spawn? && timer.owner == a.c && !timer.aborted
  {
  }

  lemma StepKeepsReturned(s: Sys, a: Action, c: nat)
    requires Enabled(s, a) && c < |s.calls| && s.calls[c].pc.Returned?
    ensures c < |Do(s, a).calls| && Do(s, a).calls[c].pc.Returned?
  {
  }

  lemma {:induction false} RunKeepsCancelLine(acts: seq<Action>)
    requires Exec(acts).Some?
    ensures CancelLine(Exec(acts).value, acts)
  {
    if acts != [] {
      var front, a := acts[..|acts| - 1], acts[|acts| - 1];
      RunKeepsCancelLine(front);
      RunKeepsLineage(front);
      StepKeepsCancelLine(Exec(front).value, a, acts);
    }
  }

  lemma StepKeepsCancelLine(s: Sys, a: Action, acts: seq<Action>)
    requires acts != [] && acts[|acts| - 1] == a && Enabled(s, a) && Lineage(s)
    requires CancelLine(s, acts[..|acts| - 1]) && SlotOwner(s) == LastInstalled(acts[..|acts| - 1])
    ensures CancelLine(Do(s, a), acts)
  {
    var s' := Do(s, a);
    forall t | 0 <= t < |s'.timers| ensures s'.timers[t].aborted <==> !NotCancelled(acts, s'.timers[t].owner) {
      StepAborts(s, a, t);
    }
    forall c: nat | !NotCancelled(acts, c) ensures c < |s'.calls| && s'.calls[c].pc.Returned? {
      if NotCancelled(acts[..|acts| - 1], c) { SlotOwnerReturned(s); }
      StepKeepsReturned(s, a, c);
    }
  }

  /** One call drew the current generation and made the current handle, and no cancellation has met its task. */
  predicate Guarding(acts: seq<Action>) {
    && LastNumber(acts).Some? && LastRotate(acts) == LastNumber(acts)
    && NotCancelled(acts, LastNumber(acts).value)
  }

  lemma OwnerCovers(s: Sys, t: nat)
    requires Inv(s) && Lineage(s) && Idle(s) && s.state.Unlocked? && TimerIn(s, t) && !s.timers[t].aborted
    requires s.drawer == Some(s.timers[t].owner) && s.rotator == s.drawer
    ensures CoveredBy(s, t) && Covered(s)
  {
    assert TimerLine(s, t) && EndedLine(s, t) && TimerOk(s, t);
    forall c: nat ensures !WillRotate(s, c) { if c < |s.calls| { assert s.calls[c].pc.Returned?; } }
    assert CoveredBy(s, t);
    forall u | 0 <= u < |s.timers| && s.timers[u].gen == s.generation ensures u == t { assert TimerLine(s, u); }
  }

  lemma GuardingIsCovered(s: Sys, acts: seq<Action>)
    requires Inv(s) && Lineage(s) && CancelLine(s, acts) && Idle(s) && s.state.Unlocked?
    requires s.drawer.Some? && s.rotator == s.drawer && NotCancelled(acts, s.drawer.value)
    ensures Covered(s)
  {
    assert s.calls[s.rotator.value].pc.Returned?;
    var t :| 0 <= t < |s.timers| && s.timers[t].owner == s.rotator.value;
    OwnerCovers(s, t);
  }

  /** Between calls an unlocked vault is covered exactly when the last generation drawn and the last rotation belong to
      one call whose task no cancellation has met. */
  lemma CoverageIff(acts: seq<Action>)
    requires Exec(acts).Some? && Idle(Exec(acts).value) && Exec(acts).value.state.Unlocked?
    ensures Covered(Exec(acts).value) <==> Guarding(acts)
  {
    RunKeepsLineage(acts);
    RunKeepsCancelLine(acts);
    var s := Exec(acts).value;
    if Guarding(acts) { GuardingIsCovered(s, acts); }
    if Covered(s) {
      var t: nat :| CoveredBy(s, t);
      assert TimerLine(s, t);
    }
  }

  /** A timer that ended without being cancelled or outlived ran its last step. */
  ghost predicate FinishLine(s: Sys, acts: seq<Action>) {
    forall t: nat :: TimerIn(s, t) ==>
      && (Finish(t) in acts ==> s.timers[t].phase.Ended?)
      && (s.timers[t].phase.Ended? && !s.timers[t].aborted && s.timers[t].gen == s.generation ==> Finish(t) in acts)
  }

  lemma StepEnds(s: Sys, a: Action, t: nat)
    requires Inv(s) && Enabled(s, a) && TimerIn(Do(s, a), t)
    ensures var timer := Do(s, a).timers[t];
            && (a == Finish(t) ==> TimerIn(s, t) && timer.phase.Ended?)
            && (TimerIn(s, t) && s.timers[t].phase.Ended? ==> timer.phase.Ended?)
            && (timer.phase.Ended? && !timer.aborted && timer.gen == Do(s, a).generation && a != Finish(t) ==>
                  TimerIn(s, t) && s.timers[t].phase.Ended? && !s.timers[t].aborted && s.timers[t].gen == s.generation)
  {
    if TimerIn(s, t) { assert TimerOk(s, t); }
  }

  lemma {:induction false} RunKeepsFinishLine(acts: seq<Action>)
    requires Exec(acts).Some?
    ensures FinishLine(Exec(acts).value, acts)
    ensures forall t: nat :: Finish(t) in acts ==> TimerIn(Exec(acts).value, t)
  {
    if acts != [] {
      var front, a := acts[..|acts| - 1], acts[|acts| - 1];
      RunKeepsFinishLine(front);
      RunKeepsInv(front);
      var s := Exec(front).value;
      assert acts == front + [a];
      forall t: nat | TimerIn(Do(s, a), t)
        ensures Finish(t) in acts ==> Do(s, a).timers[t].phase.Ended?
        ensures var timer := Do(s, a).timers[t];
                timer.phase.Ended? && !timer.aborted && timer.gen == Do(s, a).generation ==> Finish(t) in acts
      {
        StepEnds(s, a, t);
      }
    }
  }

  /** Some live timer carries the current generation, on whatever handle. */
  ghost predicate LiveTimer(s: Sys) {
    exists t: nat :: TimerIn(s, t) && Live(s.timers[t]) && s.timers[t].gen == s.generation
  }

  /** At any moment of any run there is such a timer exactly when the call that last drew a generation has spawned one,
      no cancellation has met it, and it has not run its last step. */
  lemma LiveTimerIff(acts: seq<Action>)
    requires Exec(acts).Some?
    ensures var s := Exec(acts).value;
            LiveTimer(s) <==>
              exists t: nat :: TimerIn(s, t) && LastNumber(acts) == Some(s.timers[t].owner)
                               && NotCancelled(acts, s.timers[t].owner) && Finish(t) !in acts
  {
    RunKeepsLineage(acts);
    RunKeepsCancelLine(acts);
    RunKeepsFinishLine(acts);
    var s := Exec(acts).value;
    forall t: nat | TimerIn(s, t)
      ensures (Live(s.timers[t]) && s.timers[t].gen == s.generation) <==>
                (LastNumber(acts) == Some(s.timers[t].owner) && NotCancelled(acts, s.timers[t].owner)
                 && Finish(t) !in acts)
    {
      assert TimerLine(s, t);
    }
  }

  // --- What calls asked for, read off the run ---

  function Begins(acts: seq<Action>): nat {
    if acts == [] then 0 else Begins(acts[..|acts| - 1]) + if acts[|acts| - 1].IsBegin() then 1 else 0
  }

  function Numbers(acts: seq<Action>): nat {
    if acts == [] then 0 else Numbers(acts[..|acts| - 1]) + if acts[|acts| - 1].Number? then 1 else 0
  }

  /** The action that began call `c`. */
  function BeginOf(acts: seq<Action>, c: nat): Option<Action> {
    if acts == [] then None
    else
      var front, a := acts[..|acts| - 1], acts[|acts| - 1];
      if a.IsBegin() && Begins(front) == c then Some(a) else BeginOf(front, c)
  }

  /** The timeout call `c` was made with. */
  function TimeoutAsked(acts: seq<Action>, c: nat): nat {
    var begin := BeginOf(acts, c);
    if begin.Some? && begin.value.BeginUnlock? then begin.value.timeout else 0
  }

  /** The generation call `c` drew: generations start at 1, and each draw takes the next. */
  function GenDrawn(acts: seq<Action>, c: nat): nat {
    if acts == [] then 0
    else if acts[|acts| - 1] == Number(c) then 1 + Numbers(acts)
    else GenDrawn(acts[..|acts| - 1], c)
  }

  /** The call that last stored a state. */
  function LastStore(acts: seq<Action>): Option<nat> {
    if acts == [] then None
    else if acts[|acts| - 1].Store? then Some(acts[|acts| - 1].c)
    else LastStore(acts[..|acts| - 1])
  }

  /** What the last unlock to store, or a mutation after it, put into the session. */
  function LastContent(acts: seq<Action>): nat {
    if acts == [] then 0
    else
      var front, a := acts[..|acts| - 1], acts[|acts| - 1];
      if a.Mutate? then a.newContent
      else if a.Store? && BeginOf(front, a.c).Some? && BeginOf(front, a.c).value.BeginUnlock? then
        BeginOf(front, a.c).value.content
      else LastContent(front)
  }

  function GenAt(pc: Pc): Option<nat> {
    match pc
    case Numbered(g) => Some(g)
    case Stored(g) => Some(g)
    case Cancelled(g) => Some(g)
    case Rotated(g, _) => Some(g)
    case Spawned(g, _) => Some(g)
    case _ => None
  }

  ghost predicate CallRecord(s: Sys, acts: seq<Action>, c: nat)
    requires c < |s.calls|
  {
    var call := s.calls[c];
    && BeginOf(acts, c) == Some(if call.unlock then BeginUnlock(call.timeout, call.content) else BeginLock)
    && (GenAt(call.pc).Some? ==> GenAt(call.pc).value == GenDrawn(acts, c))
  }

  ghost predicate TimerRecord(s: Sys, acts: seq<Action>, t: nat)
    requires t < |s.timers|
  {
    var timer := s.timers[t];
    timer.timeout == TimeoutAsked(acts, timer.owner) && timer.gen == GenDrawn(acts, timer.owner)
  }

  ghost predicate StateRecord(s: Sys, acts: seq<Action>) {
    && |s.calls| == Begins(acts) && s.generation == 1 + Numbers(acts)
    && (s.state.Unlocked? ==>
          LastStore(acts).Some? && s.state.writer == GenDrawn(acts, LastStore(acts).value)
          && s.state.content == LastContent(acts))
    && (LastStore(acts).Some? ==> LastStore(acts).value < |s.calls| && !s.calls[LastStore(acts).value].pc.Begun?)
  }

  /** Calls, timers and the stored state carry what the run's begins and draws say. */
  ghost predicate Recorded(s: Sys, acts: seq<Action>) {
    && (forall c :: 0 <= c < |s.calls| ==> CallRecord(s, acts, c))
    && (forall t :: 0 <= t < |s.timers| ==> TimerRecord(s, acts, t))
    && StateRecord(s, acts)
  }

  lemma StepKeepsCallRecord(s: Sys, a: Action, acts: seq<Action>, c: nat)
    requires acts != [] && acts[|acts| - 1] == a && Enabled(s, a) && Recorded(s, acts[..|acts| - 1])
    requires c < |Do(s, a).calls|
    ensures CallRecord(Do(s, a), acts, c)
  {
    if c < |s.calls| { assert CallRecord(s, acts[..|acts| - 1], c); }
  }

  lemma StepKeepsTimerRecord(s: Sys, a: Action, acts: seq<Action>, t: nat)
    requires acts != [] && acts[|acts| - 1] == a && Enabled(s, a) && Recorded(s, acts[..|acts| - 1]) && Lineage(s)
    requires t < |Do(s, a).timers|
    ensures TimerRecord(Do(s, a), acts, t)
  {
    if t < |s.timers| {
      assert TimerRecord(s, acts[..|acts| - 1], t) && TimerLine(s, t);
    } else {
      assert CallRecord(s, acts[..|acts| - 1], a.c) && CallLine(s, a.c);
    }
  }

  lemma StepKeepsStateRecord(s: Sys, a: Action, acts: seq<Action>)
    requires acts != [] && acts[|acts| - 1] == a && Enabled(s, a) && Recorded(s, acts[..|acts| - 1])
    ensures StateRecord(Do(s, a), acts)
  {
    if a.Store? { assert CallRecord(s, acts[..|acts| - 1], a.c); }
  }

  lemma {:induction false} RunIsRecorded(acts: seq<Action>)
    requires Exec(acts).Some?
    ensures Recorded(Exec(acts).value, acts)
  {
    if acts != [] {
      var front, a := acts[..|acts| - 1], acts[|acts| - 1];
      RunIsRecorded(front);
      RunKeepsLineage(front);
      var s := Exec(front).value;
      forall c | 0 <= c < |Do(s, a).calls| ensures CallRecord(Do(s, a), acts, c) { StepKeepsCallRecord(s, a, acts, c); }
      forall t | 0 <= t < |Do(s, a).timers| ensures TimerRecord(Do(s, a), acts, t) {
        StepKeepsTimerRecord(s, a, acts, t);
      }
      StepKeepsStateRecord(s, a, acts);
    }
  }

  /** The call behind a timer. */
  function OwnerOf(s: Sys, t: nat): nat
    requires t < |s.timers|
  {
    s.timers[t].owner
  }

  /** A waiting timer's deadline is its last start or renewal plus the timeout its call was made with. */
  lemma {:induction false} DeadlineFollowsLastActivity(acts: seq<Action>, t: nat)
    requires Exec(acts).Some? && t < |Exec(acts).value.timers| && Exec(acts).value.timers[t].phase.Waiting?
    ensures var s := Exec(acts).value;
            s.timers[t].phase.deadline == LastSet(acts, t) + TimeoutAsked(acts, OwnerOf(s, t))
  {
    RunKeepsInv(acts);
    RunIsRecorded(acts);
    SinceIsLastSet(acts, t);
    assert TimerOk(Exec(acts).value, t) && TimerRecord(Exec(acts).value, acts, t);
  }

  /** A timer locks an unlocked vault only when its call drew its generation no earlier than the call that stored the
      session, and no sooner than that call's timeout after the timer's last start or renewal. */
  lemma TimersLockOnTime(acts: seq<Action>, t: nat)
    requires Exec(acts + [Finish(t)]).Some?
    ensures Exec(acts).Some? && TimerIn(Exec(acts).value, t)
    ensures var before, after := Exec(acts).value, Exec(acts + [Finish(t)]).value;
            before.state.Unlocked? && after.state.Locked? ==>
              && LastStore(acts).Some?
              && GenDrawn(acts, LastStore(acts).value) <= GenDrawn(acts, OwnerOf(before, t))
              && LastSet(acts, t) + TimeoutAsked(acts, OwnerOf(before, t)) <= before.now
  {
    ExecSnoc(acts, Finish(t));
    RunKeepsInv(acts);
    RunIsRecorded(acts);
    SinceIsLastSet(acts, t);
    assert TimerOk(Exec(acts).value, t) && TimerRecord(Exec(acts).value, acts, t);
  }

  /** A woken timer renews its deadline exactly when its call is the last to have drawn a generation; otherwise it
      ends. */
  lemma StaleTimersEndWhenWoken(acts: seq<Action>, t: nat)
    requires Exec(acts + [CheckWake(t)]).Some?
    ensures Exec(acts).Some? && TimerIn(Exec(acts).value, t)
    ensures var s, phase := Exec(acts).value, Exec(acts + [CheckWake(t)]).value.timers[t].phase;
            && (phase.Renewing? <==> LastNumber(acts) == Some(OwnerOf(s, t)))
            && (phase.Renewing? || phase.Ended?)
  {
    ExecSnoc(acts, CheckWake(t));
    RunKeepsLineage(acts);
    assert TimerLine(Exec(acts).value, t);
  }

  /** The open session holds what the last unlock to store, or a mutation after it, put there. */
  lemma SessionHoldsLastContent(acts: seq<Action>)
    requires Exec(acts).Some? && Exec(acts).value.state.Unlocked?
    ensures Exec(acts).value.state.content == LastContent(acts)
  {
    RunIsRecorded(acts);
  }

  predicate AlignedState(s: Sys) { s.drawer.Some? && s.rotator == s.drawer && SlotOwner(s) == s.drawer }

  /** One call drew the current generation, made the current handle, and installed its task with no cancellation
      since. */
  predicate Aligned(acts: seq<Action>) {
    LastNumber(acts).Some? && LastRotate(acts) == LastNumber(acts) && LastInstalled(acts) == LastNumber(acts)
  }

  /** The covering timer is also in the slot exactly when that call's installation was the last one. */
  lemma HeldIff(acts: seq<Action>)
    requires Exec(acts).Some? && Idle(Exec(acts).value) && Exec(acts).value.state.Unlocked?
    ensures Held(Exec(acts).value) <==> Aligned(acts)
    ensures Aligned(acts) ==> Guarding(acts)
  {
    RunKeepsLineage(acts);
    RunKeepsCancelLine(acts);
    var s := Exec(acts).value;
    if Aligned(acts) { OwnerCovers(s, s.stored.value); }
    if Held(s) { assert TimerLine(s, s.stored.value); }
  }

  // --- Calls that do not overlap ---

  /** Every unlock or lock call of the run begins after the previous one returned. */
  ghost predicate Serial(acts: seq<Action>) {
    forall k {:trigger acts[k]} :: 0 <= k < |acts| && acts[k].IsBegin() && Exec(acts[..k]).Some? ==>
      Idle(Exec(acts[..k]).value)
  }

  /** What serial runs keep, by the program counter of the one call that may be in progress. */
  ghost predicate SerialInv(s: Sys) {
    && (forall c :: 0 <= c < |s.calls| - 1 ==> s.calls[c].pc.Returned?)
    && (s.calls == [] ==> s.state.Locked?)
    && (s.calls != [] ==>
          var c := |s.calls| - 1;
          match s.calls[c].pc
          case Begun => s.state.Unlocked? ==> AlignedState(s)
          case Numbered(_) => s.drawer == Some(c)
          case Stored(_) => s.drawer == Some(c) && (!s.calls[c].unlock ==> s.state.Locked?)
          case Cancelled(_) => s.drawer == Some(c)
          case Rotated(_, _) => s.drawer == Some(c) && s.rotator == Some(c)
          case Spawned(_, _) => s.drawer == Some(c) && s.rotator == Some(c)
          case Returned => s.state.Unlocked? ==> AlignedState(s))
  }

  lemma CallStepKeepsSerialInv(s: Sys, a: Action)
    requires Inv(s) && Lineage(s) && SerialInv(s) && Enabled(s, a) && a.IsCallStep() && (a.IsBegin() ==> Idle(s))
    ensures SerialInv(Do(s, a))
  {
    StepKeepsSlotOwner(s, a);
    if a.IsBegin() {
      assert s.calls != [] ==> s.calls[|s.calls| - 1].pc.Returned?;
    } else {
      assert a.c == |s.calls| - 1;
    }
  }

  lemma OtherStepKeepsSerialInv(s: Sys, a: Action)
    requires Inv(s) && Lineage(s) && SerialInv(s) && Enabled(s, a) && !a.IsCallStep()
    ensures SerialInv(Do(s, a))
  {
    StepKeepsSlotOwner(s, a);
  }

  lemma {:induction false} SerialRunKeepsInv(acts: seq<Action>)
    requires Exec(acts).Some? && Serial(acts)
    ensures SerialInv(Exec(acts).value)
  {
    if acts != [] {
      var front, a := acts[..|acts| - 1], acts[|acts| - 1];
      assert Serial(front) by {
        forall k {:trigger front[k]} | 0 <= k < |front| && front[k].IsBegin() && Exec(front[..k]).Some?
          ensures Idle(Exec(front[..k]).value)
        {
          assert front[..k] == acts[..k] && acts[k] == front[k];
        }
      }
      SerialRunKeepsInv(front);
      RunKeepsLineage(front);
      var s := Exec(front).value;
      if a.IsCallStep() { CallStepKeepsSerialInv(s, a); } else { OtherStepKeepsSerialInv(s, a); }
    }
  }

  lemma SerialRunsAreAligned(acts: seq<Action>)
    requires Exec(acts).Some? && Serial(acts) && Idle(Exec(acts).value) && Exec(acts).value.state.Unlocked?
    ensures Aligned(acts)
  {
    SerialRunKeepsInv(acts);
    RunKeepsLineage(acts);
    var s := Exec(acts).value;
    assert s.calls[|s.calls| - 1].pc.Returned?;
  }

  /** Calls that do not overlap never lose coverage, nor the covering timer from the slot. */
  lemma {:induction false} TimerCoverage(acts: seq<Action>)
    requires Exec(acts).Some? && Serial(acts) && Idle(Exec(acts).value) && Exec(acts).value.state.Unlocked?
    ensures Covered(Exec(acts).value) && Held(Exec(acts).value)
  {
    SerialRunsAreAligned(acts);
    HeldIff(acts);
    CoverageIff(acts);
  }

  // --- Quiet periods ---

  /** No timer task can take a step: each is waiting for its deadline, or has ended. */
  ghost predicate TimersAtRest(s: Sys) {
    forall a: Action :: a.IsTimerStep() ==> !Enabled(s, a)
  }

  /** The covering timer was started or renewed less than its call's timeout ago. */
  ghost predicate InQuietPeriod(acts: seq<Action>)
    requires Exec(acts).Some?
  {
    var s := Exec(acts).value;
    exists t: nat :: CoveredBy(s, t) && s.now < LastSet(acts, t) + TimeoutAsked(acts, OwnerOf(s, t))
  }

  /** A live timer past its deadline, or anywhere outside its select!, has a step to take. */
  lemma LateTimersStep(s: Sys, t: nat)
    requires Inv(s) && CoveredBy(s, t) && s.timers[t].since + s.timers[t].timeout <= s.now
    ensures !TimersAtRest(s)
  {
    assert TimerOk(s, t);
    if s.holder.Some? {
      var h := s.holder.value;
      assert TimerOk(s, h);
      assert Enabled(s, if s.timers[h].phase.Holding? then Load(h) else Finish(h));
    } else {
      assert Enabled(s, match s.timers[t].phase
                        case Unstarted => Start(t)
                        case Waiting(_) => Elapse(t)
                        case Woken(_) => CheckWake(t)
                        case Renewing(_) => Renew(t)
                        case _ => Acquire(t));
    }
  }

  /** Once the timers have nothing left to do, a covered vault is still inside its quiet period. */
  lemma {:induction false} CoveredQuietPeriodEndsLocked(acts: seq<Action>)
    requires Exec(acts).Some? && Guarding(acts) && Idle(Exec(acts).value) && TimersAtRest(Exec(acts).value)
    ensures Exec(acts).value.state.Unlocked? ==> InQuietPeriod(acts)
  {
    var s := Exec(acts).value;
    if s.state.Unlocked? {
      RunKeepsInv(acts);
      CoverageIff(acts);
      var t: nat :| CoveredBy(s, t);
      if s.timers[t].since + s.timers[t].timeout <= s.now { LateTimersStep(s, t); }
      if s.timers[t].phase.Unstarted? { assert Enabled(s, Start(t)); }
      RunIsRecorded(acts);
      SinceIsLastSet(acts, t);
      assert TimerRecord(s, acts, t);
    }
  }

  /** So with calls that do not overlap a quiet period always ends locked. */
  lemma {:induction false} QuietPeriodEndsLocked(acts: seq<Action>)
    requires Exec(acts).Some? && Serial(acts) && Idle(Exec(acts).value) && TimersAtRest(Exec(acts).value)
    ensures Exec(acts).value.state.Unlocked? ==> InQuietPeriod(acts)
  {
    if Exec(acts).value.state.Unlocked? {
      SerialRunsAreAligned(acts);
      HeldIff(acts);
      CoveredQuietPeriodEndsLocked(acts);
    }
  }

  // Timers cannot step forever without new activity: `Work` bounds what they can still do.

  function Rank(timer: Timer, permits: set<nat>, woken: set<nat>): nat {
    (match timer.phase
     case Unstarted => 5
     case Waiting(_) => 4
     case Woken(_) => 6
     case Renewing(_) => 5
     case Elapsed => 3
     case Holding => 2
     case Decided(_) => 1
     case Ended => 0)
    + (if timer.handle in permits then 3 else 0)
    + (if timer.handle in woken then 3 else 0)
  }

  function Ranks(s: Sys): (r: seq<nat>)
    ensures |r| == |s.timers| && forall t :: 0 <= t < |r| ==> r[t] == Rank(s.timers[t], s.permits, s.woken)
  {
    seq(|s.timers|, t requires 0 <= t < |s.timers| => Rank(s.timers[t], s.permits, s.woken))
  }

  function Sum(ns: seq<nat>): nat { if ns == [] then 0 else ns[0] + Sum(ns[1..]) }

  /** What the timers can still do without new activity. */
  function Work(s: Sys): nat { Sum(Ranks(s)) }

  lemma {:induction false} SumDrops(before: seq<nat>, after: seq<nat>, t: nat)
    requires t < |before| == |after| && after[t] < before[t]
    requires forall u :: 0 <= u < |before| ==> after[u] <= before[u]
    ensures Sum(after) < Sum(before)
  {
    if t > 0 { SumDrops(before[1..], after[1..], t - 1); } else { SumKeeps(before[1..], after[1..]); }
  }

  lemma {:induction false} SumKeeps(before: seq<nat>, after: seq<nat>)
    requires |before| == |after| && forall u :: 0 <= u < |before| ==> after[u] <= before[u]
    ensures Sum(after) <= Sum(before)
  {
    if before != [] { SumKeeps(before[1..], after[1..]); }
  }

  lemma TimerStepLowersRanks(s: Sys, a: Action, u: nat)
    requires Enabled(s, a) && a.IsTimerStep() && u < |s.timers|
    ensures var s' := Do(s, a);
            && |s'.timers| == |s.timers|
            && Rank(s'.timers[u], s'.permits, s'.woken) <= Rank(s.timers[u], s.permits, s.woken)
            && (u == a.t ==> Rank(s'.timers[u], s'.permits, s'.woken) < Rank(s.timers[u], s.permits, s.woken))
  {
  }

  /** Every timer step leaves less to do. */
  lemma TimerStepsEnd(acts: seq<Action>, a: Action)
    requires Exec(acts + [a]).Some? && a.IsTimerStep()
    ensures Exec(acts).Some? && Work(Exec(acts + [a]).value) < Work(Exec(acts).value)
  {
    ExecSnoc(acts, a);
    var s := Exec(acts).value;
    forall u | 0 <= u < |s.timers| ensures Ranks(Do(s, a))[u] <= Ranks(s)[u] { TimerStepLowersRanks(s, a, u); }
    TimerStepLowersRanks(s, a, a.t);
    SumDrops(Ranks(s), Ranks(Do(s, a)), a.t);
  }

  predicate RaisesWork(a: Action) { a.Send? || a.Spawn? }

  /** Nothing but a notification or a new timer gives the timers more to do. */
  lemma OtherStepsKeepWork(s: Sys, a: Action)
    requires Enabled(s, a) && !RaisesWork(a) && !a.IsTimerStep()
    ensures Work(Do(s, a)) <= Work(s)
  {
    SumKeeps(Ranks(s), Ranks(Do(s, a)));
  }

  function TimerSteps(acts: seq<Action>): nat {
    if acts == [] then 0
    else TimerSteps(acts[..|acts| - 1]) + if acts[|acts| - 1].IsTimerStep() then 1 else 0
  }

  /** Without notifications and new timers, a run takes no more timer steps than `Work` allows: timers come to rest. */
  lemma {:induction false} TimersComeToRest(acts: seq<Action>, more: seq<Action>)
    requires Exec(acts + more).Some? && forall a :: a in more ==> !RaisesWork(a)
    ensures Exec(acts).Some?
    ensures TimerSteps(more) + Work(Exec(acts + more).value) <= Work(Exec(acts).value)
    decreases |more|
  {
    if more == [] {
      assert acts + more == acts;
    } else {
      var front, a := more[..|more| - 1], more[|more| - 1];
      assert acts + more == (acts + front) + [a];
      ExecSnoc(acts + front, a);
      TimersComeToRest(acts, front);
      if a.IsTimerStep() { TimerStepsEnd(acts + front, a); } else { OtherStepsKeepWork(Exec(acts + front).value, a); }
    }
  }

  // ------------------------------------------------------------------------------------------
  // Overlapping unlocks lose coverage
  // ------------------------------------------------------------------------------------------

  /** Extend a run by one action. */
  lemma Then(acts: seq<Action>, a: Action) returns (longer: seq<Action>)
    requires Exec(acts).Some? && Enabled(Exec(acts).value, a)
    ensures longer == acts + [a] && Exec(longer) == Some(Do(Exec(acts).value, a))
  {
    longer := acts + [a];
    ExecSnoc(acts, a);
  }

  /** Activity on a covered vault reaches the waiting timer and pushes its deadline to now plus its call's timeout. */
  lemma ActivityRenews(acts: seq<Action>, t: nat) returns (longer: seq<Action>)
    requires Exec(acts).Some? && CoveredBy(Exec(acts).value, t)
    requires Exec(acts).value.timers[t].phase.Waiting? && Exec(acts).value.timers[t].handle !in Exec(acts).value.woken
    ensures longer == acts + [ReadHandle] + [Send(|Exec(acts).value.activities|, true)] + [Consume(t)] + [CheckWake(t)]
                           + [Renew(t)]
    ensures Exec(longer).Some? && TimerIn(Exec(longer).value, t)
    ensures Exec(longer).value.timers[t].phase ==
              Waiting(Exec(acts).value.now + TimeoutAsked(acts, OwnerOf(Exec(acts).value, t)))
  {
    RunIsRecorded(acts);
    var s := Exec(acts).value;
    assert TimerRecord(s, acts, t);
    longer := Then(acts, ReadHandle);
    assert Awaited(Exec(longer).value, s.notify) by { assert s.timers[t].handle == s.notify; }
    longer := Then(longer, Send(|s.activities|, true));
    longer := Then(longer, Consume(t));
    longer := Then(longer, CheckWake(t));
    longer := Then(longer, Renew(t));
  }

  /** Two unlock calls are at `p0` and `p1`; nothing else has ever happened. */
  ghost predicate TwoUnlocks(s: Sys, p0: Pc, p1: Pc, state: VaultState, stored: Option<nat>, timers: seq<Timer>) {
    && s.calls == [Call(true, 60, 0, p0), Call(true, 60, 1, p1)]
    && s.state == state && s.stored == stored && s.timers == timers
    && s.generation == 3 && s.holder.None? && s.now == 0
  }

  lemma BothDraw() returns (acts: seq<Action>)
    ensures Exec(acts).Some? && Exec(acts).value.handles == 1
    ensures TwoUnlocks(Exec(acts).value, Numbered(2), Numbered(3), Locked, None, [])
  {
    acts := Then([], BeginUnlock(60, 0));
    acts := Then(acts, BeginUnlock(60, 1));
    acts := Then(acts, Number(0));
    acts := Then(acts, Number(1));
  }

  lemma NewerRuns(acts: seq<Action>) returns (longer: seq<Action>)
    requires Exec(acts).Some? && Exec(acts).value.handles == 1
    requires TwoUnlocks(Exec(acts).value, Numbered(2), Numbered(3), Locked, None, [])
    ensures Exec(longer).Some? && Exec(longer).value.handles == 2
    ensures TwoUnlocks(Exec(longer).value, Numbered(2), Returned, Unlocked(3, 1), Some(0),
                       [Timer(3, 1, 60, Unstarted, false, 0, 0, 1)])
  {
    longer := Then(acts, Store(1));
    assert TwoUnlocks(Exec(longer).value, Numbered(2), Stored(3), Unlocked(3, 1), None, []);
    longer := Then(longer, Cancel(1));
    assert TwoUnlocks(Exec(longer).value, Numbered(2), Cancelled(3), Unlocked(3, 1), None, []);
    longer := Then(longer, Rotate(1));
    assert TwoUnlocks(Exec(longer).value, Numbered(2), Rotated(3, 1), Unlocked(3, 1), None, []);
    longer := Then(longer, Spawn(1));
    assert TwoUnlocks(Exec(longer).value, Numbered(2), Spawned(3, 0), Unlocked(3, 1), None,
                      [Timer(3, 1, 60, Unstarted, false, 0, 0, 1)]);
    longer := Then(longer, Install(1));
  }

  lemma OlderAborts(acts: seq<Action>) returns (longer: seq<Action>)
    requires Exec(acts).Some? && Exec(acts).value.handles == 2
    requires TwoUnlocks(Exec(acts).value, Numbered(2), Returned, Unlocked(3, 1), Some(0),
                        [Timer(3, 1, 60, Unstarted, false, 0, 0, 1)])
    ensures Exec(longer).Some? && Exec(longer).value.handles == 2
    ensures TwoUnlocks(Exec(longer).value, Cancelled(2), Returned, Unlocked(2, 0), None,
                       [Timer(3, 1, 60, Unstarted, true, 0, 0, 1)])
  {
    longer := Then(acts, Store(0));
    longer := Then(longer, Cancel(0));
  }

  /**
   Two unlocks draw generations 2 and 3 and the older one finishes last: it aborts the newer
   timer and installs its own. Both calls have returned, the vault is unlocked, and no live
   timer carries the current generation.
  */
  lemma OverlapLosesCoverage() returns (acts: seq<Action>)
    ensures Exec(acts).Some?
    ensures var s := Exec(acts).value;
            Idle(s) && s.state.Unlocked?
            && forall t :: 0 <= t < |s.timers| && Live(s.timers[t]) ==> s.timers[t].gen != s.generation
  {
    acts := BothDraw();
    acts := NewerRuns(acts);
    acts := OlderAborts(acts);
    acts := Then(acts, Rotate(0));
    acts := Then(acts, Spawn(0));
    assert TwoUnlocks(Exec(acts).value, Spawned(2, 1), Returned, Unlocked(2, 0), None,
                      [Timer(3, 1, 60, Unstarted, true, 0, 0, 1), Timer(2, 2, 60, Unstarted, false, 0, 0, 0)]);
    acts := Then(acts, Install(0));
  }
}
