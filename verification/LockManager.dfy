/** The session a lock manager holds, and who may perform sensitive operations in it. */
module LockManager {
  import opened Common
  import opened Policy
  import opened Entries

  /** `json` is the protected plaintext buffer. */
  datatype Session = Session(json: bytes, strength: Strength, reauth: bool, outcome: UnlockOutcome,
                             runtime: RuntimeState) {
    function Context(): PolicyContext { PolicyContext(outcome, runtime) }

    predicate NeedsReauthFor(op: Operation) { reauth || (!strength.Strong? && op.RequiresStrongReauth()) }
  }

  datatype VaultState = Locked | Unlocked(session: Session)

  /** What can happen to the session between two authorizations. */
  datatype Event =
    | Unlock(json: bytes, strength: Strength, outcome: UnlockOutcome, runtime: RuntimeState)
    | Lock
    | Expire                             // the auto-lock timer fires
    | SetRuntime(state: RuntimeState)    // set or refreshed
    | MarkReauth
    | ClearReauth
    | Runtime(event: RuntimeEvent)
    | Rewrite(newJson: bytes)            // an entry operation re-encoded the payload

  function NewSession(json: bytes, strength: Strength, outcome: UnlockOutcome, runtime: RuntimeState): VaultState {
    Unlocked(Session(json, strength, !strength.Strong? || runtime.IsRestrictive(), outcome, runtime))
  }

  function WithRuntime(state: VaultState, runtime: RuntimeState): VaultState {
    if state.Locked? then Locked
    else Unlocked(state.session.(runtime := runtime, reauth := state.session.reauth || runtime.IsRestrictive()))
  }

  function WithReauth(state: VaultState, required: bool): VaultState {
    if state.Locked? then Locked else Unlocked(state.session.(reauth := required))
  }

  function After(state: VaultState, e: Event): VaultState {
    match e
    case Unlock(json, strength, outcome, runtime) => NewSession(json, strength, outcome, runtime)
    case Lock => Locked
    case Expire => Locked
    case SetRuntime(runtime) => WithRuntime(state, runtime)
    case MarkReauth => WithReauth(state, true)
    case ClearReauth => WithReauth(state, false)
    case Runtime(event) =>
      if event.ForcesLock() then Locked
      else if event.RequiresStrongReauth() then WithReauth(state, true) else state
    case Rewrite(json) => if state.Locked? then Locked else Unlocked(state.session.(json := json))
  }

  /** The two reads of an authorization; the state may have changed between them. */
  function Authorization(first: VaultState, second: VaultState, op: Operation): Result<PolicyContext, EntryError> {
    if first.Locked? then Err(VaultLocked)
    else if !first.session.Context().AllowOperation(op) then Err(PolicyDenied)
    else if second.Locked? then Err(VaultLocked)
    else if second.session.NeedsReauthFor(op) then Err(ReauthRequired)
    else Ok(first.session.Context())
  }

  /** The state of a new manager after a history of events. */
  function Run(h: seq<Event>): VaultState {
    if h == [] then Locked else After(Run(h[..|h| - 1]), h[|h| - 1])
  }

  function AfterAll(state: VaultState, es: seq<Event>): VaultState {
    if es == [] then state else After(AfterAll(state, es[..|es| - 1]), es[|es| - 1])
  }

  lemma RunOfMore(h: seq<Event>, e: Event)
    ensures Run(h + [e]) == After(Run(h), e)
  {
    assert (h + [e])[..|h|] == h;
  }

  lemma {:induction false} RunOfConcat(h: seq<Event>, es: seq<Event>)
    ensures Run(h + es) == AfterAll(Run(h), es)
    decreases |es|
  {
    if es == [] {
      assert h + es == h;
    } else {
      RunOfConcat(h, es[..|es| - 1]);
      assert (h + es)[..|h + es| - 1] == h + es[..|es| - 1];
    }
  }

  /** `history` is everything that has happened to the manager. */
  class VaultLockManager {
    var state: VaultState
    ghost var history: seq<Event>

    ghost predicate Valid()
      reads this
    {
      state == Run(history)
    }

    constructor ()
      ensures Valid() && state == Locked && history == []
    {
      state := Locked;
      history := [];
    }

    method UnlockWithContext(json: bytes, strength: Strength, outcome: UnlockOutcome, runtime: RuntimeState)
      requires Valid()
      modifies this
      ensures Valid() && history == old(history) + [Event.Unlock(json, strength, outcome, runtime)]
    {
      RunOfMore(history, Event.Unlock(json, strength, outcome, runtime));
      history := history + [Event.Unlock(json, strength, outcome, runtime)];
      state := Unlocked(Session(json, strength, strength != Strong || runtime.IsRestrictive(), outcome, runtime));
    }

    method LockNow(cause: Event)
      requires Valid() && EndsSession(cause)
      modifies this
      ensures Valid() && history == old(history) + [cause] && state == Locked
    {
      RunOfMore(history, cause);
      history := history + [cause];
      state := Locked;
    }

    method SetRuntimePolicyState(runtime: RuntimeState) returns (r: Option<()>)
      requires Valid()
      modifies this
      ensures Valid() && history == old(history) + [SetRuntime(runtime)] && (r.Some? <==> old(state).Unlocked?)
    {
      RunOfMore(history, SetRuntime(runtime));
      history := history + [SetRuntime(runtime)];
      if state.Locked? { return None; }
      var session := state.session.(runtime := runtime);
      if runtime.IsRestrictive() { session := session.(reauth := true); }
      state := Unlocked(session);
      return Some(());
    }

    /** `cause` is the call itself, or the runtime event that makes it. */
    method MarkStrongReauthRequired(cause: Event) returns (r: bool)
      requires Valid() && (cause == MarkReauth || cause == Runtime(AppBackgrounded))
      modifies this
      ensures Valid() && history == old(history) + [cause] && r == old(state).Unlocked?
    {
      RunOfMore(history, cause);
      history := history + [cause];
      if state.Locked? { return false; }
      state := Unlocked(state.session.(reauth := true));
      return true;
    }

    method ClearStrongReauthRequirement() returns (r: bool)
      requires Valid()
      modifies this
      ensures Valid() && history == old(history) + [ClearReauth] && r == old(state).Unlocked?
    {
      RunOfMore(history, ClearReauth);
      history := history + [ClearReauth];
      if state.Locked? { return false; }
      state := Unlocked(state.session.(reauth := false));
      return true;
    }

    method HandleRuntimeSecurityEvent(event: RuntimeEvent)
      requires Valid()
      modifies this
      ensures Valid() && history == old(history) + [Runtime(event)]
    {
      if event.ForcesLock() {
        LockNow(Runtime(event));
        return;
      }
      if event.RequiresStrongReauth() {
        var _ := MarkStrongReauthRequired(Runtime(event));
      }
    }

    /** Store a re-encoded payload in the open session. */
    method ReplaceJson(json: bytes)
      requires Valid() && state.Unlocked?
      modifies this
      ensures Valid() && history == old(history) + [Rewrite(json)]
      ensures state == Unlocked(old(state).session.(json := json))
    {
      RunOfMore(history, Rewrite(json));
      history := history + [Rewrite(json)];
      state := Unlocked(state.session.(json := json));
    }

    method RequiresStrongReauthFor(op: Operation) returns (r: Option<bool>)
      ensures r == if state.Locked? then None else Some(state.session.NeedsReauthFor(op))
    {
      if state.Locked? { return None; }
      return Some(state.session.reauth || (state.session.strength != Strong && op.RequiresStrongReauth()));
    }

    /** `between` is what other tasks and the timer do between the two reads of the state. */
    method AuthorizeSensitiveOperation(op: Operation, between: seq<Event>)
      returns (r: Result<PolicyContext, EntryError>)
      requires Valid()
      modifies this
      ensures Valid() && history == old(history) + if Exposable(old(history)) then between else []
      ensures r == Authorization(Run(old(history)), Run(old(history) + between), op)
      ensures r.Ok? <==> Exposable(old(history)) && Reauthenticated(old(history) + between)
      ensures between == [] ==> (r.Ok? <==> Entitled(old(history)))
    {
      AuthorizedIff(history, between, op);
      AllowedIffExposable(history, op);
      RunOfConcat(history, between);
      assert between == [] ==> history + between == history;
      if state.Locked? { return Err(VaultLocked); }
      var policy := PolicyContext(state.session.outcome, state.session.runtime);
      if !policy.AllowOperation(op) { return Err(PolicyDenied); }
      state := AfterAll(state, between);
      history := history + between;
      var needed := RequiresStrongReauthFor(op);
      match needed {
        case None => return Err(VaultLocked);
        case Some(true) => return Err(ReauthRequired);
        case Some(false) => return Ok(policy);
      }
    }
  }

  // ------------------------------------------------------------------------------------------
  // Authorization equals a condition on the history
  // ------------------------------------------------------------------------------------------

  /** A lock, the timer, and every runtime event but backgrounding. */
  predicate EndsSession(e: Event) {
    e.Lock? || e.Expire?
    || (e.Runtime? && (e.event.DeviceLocked? || e.event.BiometricSetChanged? || e.event.QuickUnlockInvalidated?
                       || e.event.RuntimeBecameRestrictive?))
  }

  /** The runtime state an event records. */
  function Recorded(e: Event): Option<RuntimeState> {
    match e
    case Unlock(_, _, _, runtime) => Some(runtime)
    case SetRuntime(state) => Some(state)
    case _ => None
  }

  /** The event makes strong re-authentication necessary. */
  predicate DemandsReauth(e: Event) {
    match e
    case Unlock(_, strength, _, runtime) => !strength.Strong? || !runtime.NotDebugged?
    case SetRuntime(state) => !state.NotDebugged?
    case MarkReauth => true
    case Runtime(event) => event.AppBackgrounded?
    case _ => false
  }

  /** The unlock at `u` opened the session that is still open. */
  ghost predicate Opened(h: seq<Event>, u: nat) {
    u < |h| && h[u].Unlock? && forall j :: u < j < |h| ==> !h[j].Unlock? && !EndsSession(h[j])
  }

  ghost predicate LastRecorded(h: seq<Event>, runtime: RuntimeState) {
    exists k :: 0 <= k < |h| && Recorded(h[k]) == Some(runtime) && forall j :: k < j < |h| ==> Recorded(h[j]).None?
  }

  /** The buffer an event stores. */
  function JsonStored(e: Event): Option<bytes> {
    match e
    case Unlock(json, _, _, _) => Some(json)
    case Rewrite(json) => Some(json)
    case _ => None
  }

  ghost predicate LastStored(h: seq<Event>, json: bytes) {
    exists k :: 0 <= k < |h| && JsonStored(h[k]) == Some(json) && forall j :: k < j < |h| ==> JsonStored(h[j]).None?
  }

  /** Every demand since the unlock was followed by a clear. */
  ghost predicate DemandsCleared(h: seq<Event>, u: nat) {
    forall j :: u <= j < |h| && DemandsReauth(h[j]) ==> exists k :: j < k < |h| && h[k].ClearReauth?
  }

  /** The open session is a primary one whose last recorded runtime state is NotDebugged. */
  ghost predicate Exposable(h: seq<Event>) {
    exists u: nat :: Opened(h, u) && h[u].outcome.Primary? && LastRecorded(h, NotDebugged)
  }

  /** The open session was unlocked with strong authentication, and every demand for it since was cleared. */
  ghost predicate Reauthenticated(h: seq<Event>) {
    exists u: nat :: Opened(h, u) && h[u].strength.Strong? && DemandsCleared(h, u)
  }

  ghost predicate Entitled(h: seq<Event>) {
    exists u: nat :: Opened(h, u) && h[u].strength.Strong? && h[u].outcome.Primary?
                && LastRecorded(h, NotDebugged) && DemandsCleared(h, u)
  }

  /** How the open session reads off the history. */
  ghost predicate Reads(h: seq<Event>, u: nat, s: Session) {
    && Opened(h, u) && s.strength == h[u].strength && s.outcome == h[u].outcome
    && LastRecorded(h, s.runtime) && LastStored(h, s.json) && (!s.reauth <==> DemandsCleared(h, u))
  }

  lemma StepRecords(h: seq<Event>, e: Event, runtime: RuntimeState, json: bytes)
    ensures LastRecorded(h + [e], runtime) <==>
              if Recorded(e).Some? then Recorded(e) == Some(runtime) else LastRecorded(h, runtime)
    ensures LastStored(h + [e], json) <==>
              if JsonStored(e).Some? then JsonStored(e) == Some(json) else LastStored(h, json)
  {
    var g := h + [e];
    assert g[|h|] == e && forall j :: 0 <= j < |h| ==> g[j] == h[j];
    if k :| 0 <= k < |h| && Recorded(h[k]) == Some(runtime) && forall j :: k < j < |h| ==> Recorded(h[j]).None? {
      assert Recorded(g[k]) == Some(runtime);
    }
    if k :| 0 <= k < |h| && JsonStored(h[k]) == Some(json) && forall j :: k < j < |h| ==> JsonStored(h[j]).None? {
      assert JsonStored(g[k]) == Some(json);
    }
  }

  lemma StepDemands(h: seq<Event>, u: nat, e: Event)
    requires u < |h|
    ensures DemandsCleared(h + [e], u) <==> e.ClearReauth? || (DemandsCleared(h, u) && !DemandsReauth(e))
  {
    var g := h + [e];
    assert g[|h|] == e && forall j :: 0 <= j < |h| ==> g[j] == h[j];
    if e.ClearReauth? {
      assert g[|h|].ClearReauth?;
    } else if DemandsReauth(e) {
      assert DemandsReauth(g[|h|]);
    } else if DemandsCleared(h, u) {
      forall j | u <= j < |g| && DemandsReauth(g[j]) ensures exists k :: j < k < |g| && g[k].ClearReauth? {
        var k :| j < k < |h| && h[k].ClearReauth?;
        assert g[k].ClearReauth?;
      }
    } else {
      var j :| u <= j < |h| && DemandsReauth(h[j]) && forall k :: j < k < |h| ==> !h[k].ClearReauth?;
      assert DemandsReauth(g[j]);
    }
  }

  lemma StepReads(h: seq<Event>, u: nat, e: Event)
    requires Run(h).Unlocked? && Reads(h, u, Run(h).session) && !e.Unlock? && !EndsSession(e)
    ensures Run(h + [e]).Unlocked? && Reads(h + [e], u, Run(h + [e]).session)
  {
    RunOfMore(h, e);
    var s := Run(h + [e]).session;
    StepRecords(h, e, s.runtime, s.json);
    StepDemands(h, u, e);
    assert forall j :: 0 <= j < |h| ==> (h + [e])[j] == h[j];
  }

  lemma {:induction false} OpenSessionReads(h: seq<Event>) returns (u: nat)
    requires Run(h).Unlocked?
    ensures Reads(h, u, Run(h).session)
  {
    var front, e := h[..|h| - 1], h[|h| - 1];
    assert h == front + [e];
    if e.Unlock? {
      u := |h| - 1;
      assert Recorded(h[u]) == Some(Run(h).session.runtime) && JsonStored(h[u]) == Some(Run(h).session.json);
    } else {
      u := OpenSessionReads(front);
      StepReads(front, u, e);
    }
  }

  lemma {:induction false} OpenedIsUnlocked(h: seq<Event>, u: nat)
    requires Opened(h, u)
    ensures Run(h).Unlocked?
  {
    if u < |h| - 1 {
      var front := h[..|h| - 1];
      assert forall j :: 0 <= j < |front| ==> front[j] == h[j];
      OpenedIsUnlocked(front, u);
    }
  }

  lemma OpenedIsUnique(h: seq<Event>, u: nat, v: nat)
    requires Opened(h, u) && Opened(h, v)
    ensures u == v
  {
  }

  lemma EntitledIffBoth(h: seq<Event>)
    ensures Entitled(h) <==> Exposable(h) && Reauthenticated(h)
  {
    if Exposable(h) && Reauthenticated(h) {
      var u: nat :| Opened(h, u) && h[u].outcome.Primary?;
      var v: nat :| Opened(h, v) && h[v].strength.Strong? && DemandsCleared(h, v);
      OpenedIsUnique(h, u, v);
    }
  }

  /** The first read allows an operation exactly when the history makes the session exposable. */
  lemma AllowedIffExposable(h: seq<Event>, op: Operation)
    ensures Run(h).Unlocked? && Run(h).session.Context().AllowOperation(op) <==> Exposable(h)
  {
    if Run(h).Unlocked? {
      var u := OpenSessionReads(h);
      assert Opened(h, u);
      if Exposable(h) {
        var v: nat :| Opened(h, v) && h[v].outcome.Primary?;
        OpenedIsUnique(h, u, v);
        LastRecordedIsUnique(h, NotDebugged, Run(h).session.runtime);
      }
    } else if Exposable(h) {
      var u: nat :| Opened(h, u);
      OpenedIsUnlocked(h, u);
    }
  }

  /** The second read asks for nothing more exactly when the history left no demand open. */
  lemma NothingNeededIffReauthenticated(h: seq<Event>, op: Operation)
    ensures Run(h).Unlocked? && !Run(h).session.NeedsReauthFor(op) <==> Reauthenticated(h)
  {
    if Run(h).Unlocked? {
      var u := OpenSessionReads(h);
      assert Opened(h, u);
      if !Run(h).session.strength.Strong? { UnclearedIsNeeded(Run(h).session, op); }
      if Reauthenticated(h) {
        var v: nat :| Opened(h, v) && h[v].strength.Strong? && DemandsCleared(h, v);
        OpenedIsUnique(h, u, v);
      }
    } else if Reauthenticated(h) {
      var u: nat :| Opened(h, u);
      OpenedIsUnlocked(h, u);
    }
  }

  /** Whatever happens between the two reads, an operation is authorized exactly when the session was exposable at
      the first and re-authenticated at the second; these may be different sessions. */
  lemma AuthorizedIff(h: seq<Event>, between: seq<Event>, op: Operation)
    ensures Authorization(Run(h), Run(h + between), op).Ok? <==> Exposable(h) && Reauthenticated(h + between)
    ensures between == [] ==> (Authorization(Run(h), Run(h + between), op).Ok? <==> Entitled(h))
  {
    AllowedIffExposable(h, op);
    NothingNeededIffReauthenticated(h + between, op);
    EntitledIffBoth(h);
    if between == [] { assert h + between == h; }
  }

  ghost predicate HasSession(h: seq<Event>) { exists u: nat :: Opened(h, u) }

  lemma UnlockedIffOpened(h: seq<Event>)
    ensures Run(h).Unlocked? <==> HasSession(h)
  {
    if Run(h).Unlocked? {
      var u := OpenSessionReads(h);
      assert Opened(h, u);
    }
    if u: nat :| Opened(h, u) { OpenedIsUnlocked(h, u); }
  }

  /** Each answer of an authorization, by the two histories; an authorized caller is told a primary session in which
      nothing was detected. */
  lemma AuthorizationAnswers(h: seq<Event>, between: seq<Event>, op: Operation)
    ensures Authorization(Run(h), Run(h + between), op) ==
              if !HasSession(h) then Err(VaultLocked)
              else if !Exposable(h) then Err(PolicyDenied)
              else if !HasSession(h + between) then Err(VaultLocked)
              else if !Reauthenticated(h + between) then Err(ReauthRequired)
              else Ok(PolicyContext(Primary, NotDebugged))
  {
    UnlockedIffOpened(h);
    UnlockedIffOpened(h + between);
    AllowedIffExposable(h, op);
    NothingNeededIffReauthenticated(h + between, op);
    if Exposable(h) { AllowedIsPrimary(Run(h).session.Context(), op); }
  }

  lemma AllowedIsPrimary(c: PolicyContext, op: Operation)
    requires c.AllowOperation(op)
    ensures c == PolicyContext(Primary, NotDebugged)
  {
  }

  /** With nothing in between, an operation is authorized exactly when the history entitles to it. */
  lemma AuthorizedIffEntitled(h: seq<Event>, op: Operation)
    ensures Authorization(Run(h), Run(h), op).Ok? <==> Entitled(h)
  {
    AuthorizedIff(h, [], op);
    assert h + [] == h;
  }

  /** A run whose second read meets another session: the call is authorized although a decoy session is open. */
  lemma AuthorizationCanMixSessions(json: bytes, op: Operation) returns (h: seq<Event>, between: seq<Event>)
    ensures Authorization(Run(h), Run(h + between), op).Ok?
    ensures Run(h + between).Unlocked? && Run(h + between).session.outcome.Decoy? && !Entitled(h + between)
  {
    h := [Event.Unlock(json, Strong, Primary, NotDebugged)];
    between := [Lock, Event.Unlock(json, Strong, Decoy, NotDebugged)];
    RunOfMore([], h[0]);
    assert [] + [h[0]] == h;
    RunOfMore(h, Lock);
    RunOfMore(h + [Lock], between[1]);
    assert h + [Lock] + [between[1]] == h + between;
    AuthorizedIffEntitled(h + between, op);
  }

  /** Entry operations change no authorization. */
  lemma RewritesDoNotMatter(h: seq<Event>, json: bytes, op: Operation)
    ensures Entitled(h + [Rewrite(json)]) <==> Entitled(h)
  {
    RunOfMore(h, Rewrite(json));
    AuthorizedIffEntitled(h, op);
    AuthorizedIffEntitled(h + [Rewrite(json)], op);
  }

  lemma UnclearedIsNeeded(s: Session, op: Operation)
    requires !s.strength.Strong?
    ensures s.NeedsReauthFor(op)
  {
  }

  lemma LastRecordedIsUnique(h: seq<Event>, a: RuntimeState, b: RuntimeState)
    requires LastRecorded(h, a) && LastRecorded(h, b)
    ensures a == b
  {
  }

  /** If the timer fires between the two reads the answer is never Ok. */
  lemma ExpiryNeverAuthorizes(h: seq<Event>, op: Operation)
    ensures Authorization(Run(h), Run(h + [Expire]), op).Err?
  {
    assert (h + [Expire])[..|h + [Expire]| - 1] == h;
  }

  /** Clearing the requirement never turns a convenience session into an authorized one. */
  lemma {:induction false} ClearsDoNotStrengthen(h: seq<Event>, u: nat, clears: nat, op: Operation)
    requires Opened(h, u) && !h[u].strength.Strong?
    ensures var g := h + seq(clears, _ => ClearReauth);
            Authorization(Run(g), Run(g), op).Err?
  {
    var g := h + seq(clears, _ => ClearReauth);
    assert Opened(g, u) && !g[u].strength.Strong?;
    AuthorizedIffEntitled(g, op);
  }
}
