/** Entry operations over the re-serialised plaintext buffer of an unlocked manager. */
module Crud {
  import opened Common
  import opened Policy
  import opened Entries
  import opened LockManager

  type Payload = seq<Entry>

  predicate AllReadable(p: Payload) { forall i :: 0 <= i < |p| ==> p[i].Invariant() }

  /** serde_json for the payload: what is written can be read back iff every entry keeps its type invariant. */
  datatype PayloadJson = PayloadJson(enc: Payload -> bytes, dec: bytes -> Option<Payload>) {
    ghost predicate Lawful() {
      && (forall p :: dec(enc(p)) == if AllReadable(p) then Some(p) else None)
      && (forall b :: dec(b).Some? ==> AllReadable(dec(b).value))
    }
  }

  datatype Summary = Summary(id: Id, entryType: EntryType, title: string)

  function ToSummary(e: Entry): Summary { Summary(e.meta.id, e.meta.entryType, e.secret.title) }

  function Summaries(p: Payload): seq<Summary> { seq(|p|, i requires 0 <= i < |p| => ToSummary(p[i])) }

  // --- The operations on a decoded payload ---

  /** Position of the first entry with this id, or the length. */
  function IndexById(p: Payload, id: Id): (i: nat)
    ensures i <= |p| && (i < |p| ==> p[i].meta.id == id) && forall j :: 0 <= j < i ==> p[j].meta.id != id
  {
    if p == [] || p[0].meta.id == id then 0 else 1 + IndexById(p[1..], id)
  }

  /** `retain` of every other id. */
  function Without(p: Payload, id: Id): Payload {
    if p == [] then [] else (if p[0].meta.id == id then [] else [p[0]]) + Without(p[1..], id)
  }

  datatype Op =
    | Add(entry: Entry)
    | Update(id: Id, entry: Entry)
    | UpdateFields(id: Id, update: EntryUpdate)
    | Delete(id: Id)

  /** The payload an operation leaves behind, also when it fails, and its result. */
  function OnPayload(p: Payload, op: Op): (Payload, Checked) {
    match op
    case Add(e) => if IndexById(p, e.meta.id) < |p| then (p, Err(DuplicateEntry)) else (p + [e], Ok(()))
    case Update(id, e) =>
      var i := IndexById(p, id);
      if i == |p| then (p, Err(EntryNotFound)) else (p[i := e], Ok(()))
    case UpdateFields(id, u) =>
      var i := IndexById(p, id);
      if i == |p| then (p, Err(EntryNotFound)) else (p[i := Apply(p[i], u).0], Apply(p[i], u).1)
    case Delete(id) =>
      (Without(p, id), if |Without(p, id)| == |p| then Err(EntryNotFound) else Ok(()))
  }

  /** Decode, operate, encode: the buffer is rewritten whether or not the operation succeeded. */
  function OnState(codec: PayloadJson, state: VaultState, op: Op): (VaultState, Checked) {
    if state.Locked? || codec.dec(state.session.json).None? then (state, Err(VaultLocked))
    else
      var o := OnPayload(codec.dec(state.session.json).value, op);
      (Unlocked(state.session.(json := codec.enc(o.0))), o.1)
  }

  function GetOnState(codec: PayloadJson, state: VaultState, id: Id): Result<Entry, EntryError> {
    if state.Locked? || codec.dec(state.session.json).None? then Err(VaultLocked)
    else
      var p := codec.dec(state.session.json).value;
      var i := IndexById(p, id);
      if i == |p| then Err(EntryNotFound) else Ok(p[i])
  }

  function ListOnState(codec: PayloadJson, state: VaultState): Option<seq<Summary>> {
    if state.Locked? || codec.dec(state.session.json).None? then None
    else Some(Summaries(codec.dec(state.session.json).value))
  }

  /** To the manager an entry operation is nothing, or one rewrite of the buffer. */
  ghost predicate OnlyRewrites(before: seq<Event>, after: seq<Event>) {
    after == before || exists json :: after == before + [Rewrite(json)]
  }

  // --- The program's loops ---

  method FindById(p: Payload, id: Id) returns (i: nat)
    ensures i == IndexById(p, id)
  {
    i := 0;
    while i < |p| && p[i].meta.id != id
      invariant i <= |p|
      invariant forall j :: 0 <= j < i ==> p[j].meta.id != id
    {
      i := i + 1;
    }
  }

  method RetainOthers(p: Payload, id: Id) returns (kept: Payload)
    ensures kept == Without(p, id)
  {
    kept := [];
    var i := 0;
    while i < |p|
      invariant i <= |p|
      invariant kept + Without(p[i..], id) == Without(p, id)
    {
      assert p[i..][1..] == p[i + 1..];
      if p[i].meta.id != id { kept := kept + [p[i]]; }
      i := i + 1;
    }
  }

  method AddEntry(codec: PayloadJson, m: VaultLockManager, e: Entry) returns (r: Checked)
    requires m.Valid()
    modifies m
    ensures m.Valid() && OnlyRewrites(old(m.history), m.history)
    ensures (m.state, r) == OnState(codec, old(m.state), Add(e))
  {
    if m.state.Locked? { return Err(VaultLocked); }
    var payload := codec.dec(m.state.session.json);
    if payload.None? { return Err(VaultLocked); }
    var entries := payload.value;

    var i := FindById(entries, e.meta.id);
    if i < |entries| {
      r := Err(DuplicateEntry);
    } else {
      entries := entries + [e];
      r := Ok(());
    }

    m.ReplaceJson(codec.enc(entries));
  }

  method UpdateEntry(codec: PayloadJson, m: VaultLockManager, id: Id, e: Entry) returns (r: Checked)
    requires m.Valid()
    modifies m
    ensures m.Valid() && OnlyRewrites(old(m.history), m.history)
    ensures (m.state, r) == OnState(codec, old(m.state), Update(id, e))
  {
    if m.state.Locked? { return Err(VaultLocked); }
    var payload := codec.dec(m.state.session.json);
    if payload.None? { return Err(VaultLocked); }
    var entries := payload.value;

    var i := FindById(entries, id);
    if i == |entries| {
      r := Err(EntryNotFound);
    } else {
      entries := entries[i := e];
      r := Ok(());
    }

    m.ReplaceJson(codec.enc(entries));
  }

  method UpdateEntryFields(codec: PayloadJson, m: VaultLockManager, id: Id, u: EntryUpdate) returns (r: Checked)
    requires m.Valid()
    modifies m
    ensures m.Valid() && OnlyRewrites(old(m.history), m.history)
    ensures (m.state, r) == OnState(codec, old(m.state), UpdateFields(id, u))
  {
    if m.state.Locked? { return Err(VaultLocked); }
    var payload := codec.dec(m.state.session.json);
    if payload.None? { return Err(VaultLocked); }
    var entries := payload.value;

    var i := FindById(entries, id);
    if i == |entries| {
      r := Err(EntryNotFound);
    } else {
      var slot := new VaultEntry(entries[i]);
      r := slot.ApplyUpdate(u);
      entries := entries[i := slot.Value()];
    }

    m.ReplaceJson(codec.enc(entries));
  }

  method DeleteEntry(codec: PayloadJson, m: VaultLockManager, id: Id) returns (r: Checked)
    requires m.Valid()
    modifies m
    ensures m.Valid() && OnlyRewrites(old(m.history), m.history)
    ensures (m.state, r) == OnState(codec, old(m.state), Delete(id))
  {
    if m.state.Locked? { return Err(VaultLocked); }
    var payload := codec.dec(m.state.session.json);
    if payload.None? { return Err(VaultLocked); }

    var kept := RetainOthers(payload.value, id);
    r := if |kept| == |payload.value| then Err(EntryNotFound) else Ok(());

    m.ReplaceJson(codec.enc(kept));
  }

  method ListEntries(codec: PayloadJson, m: VaultLockManager) returns (r: Option<seq<Summary>>)
    ensures r == ListOnState(codec, m.state)
  {
    if m.state.Locked? { return None; }
    var payload := codec.dec(m.state.session.json);
    if payload.None? { return None; }
    var out := [];
    for i := 0 to |payload.value|
      invariant out == Summaries(payload.value[..i])
    {
      out := out + [ToSummary(payload.value[i])];
    }
    assert payload.value[..|payload.value|] == payload.value;
    return Some(out);
  }

  method GetEntry(codec: PayloadJson, m: VaultLockManager, id: Id) returns (r: Result<Entry, EntryError>)
    ensures r == GetOnState(codec, m.state, id)
  {
    if m.state.Locked? { return Err(VaultLocked); }
    var payload := codec.dec(m.state.session.json);
    if payload.None? { return Err(VaultLocked); }
    var i := FindById(payload.value, id);
    if i == |payload.value| { return Err(EntryNotFound); }
    return Ok(payload.value[i]);
  }

  // ------------------------------------------------------------------------------------------
  // Refinement of an insertion-ordered map
  // ------------------------------------------------------------------------------------------

  datatype OrderedMap = OrderedMap(order: seq<Id>, entries: map<Id, Entry>)

  function Dropped(order: seq<Id>, id: Id): seq<Id> {
    if order == [] then [] else (if order[0] == id then [] else [order[0]]) + Dropped(order[1..], id)
  }

  /** One step of a session: an operation on entries, a read, or a change of lock state. */
  datatype Step =
    | Operate(op: Op)
    | Get(id: Id)
    | List
    | Relock
    | Reopen(json: bytes, strength: Strength, outcome: UnlockOutcome, runtime: RuntimeState)

  datatype Answer =
    | Changed(result: Checked)
    | Found(entry: Result<Entry, EntryError>)
    | Listing(items: Option<seq<Summary>>)
    | Done

  function OnMap(m: OrderedMap, op: Op): (OrderedMap, Checked) {
    match op
    case Add(e) =>
      if e.meta.id in m.entries then (m, Err(DuplicateEntry))
      else (OrderedMap(m.order + [e.meta.id], m.entries[e.meta.id := e]), Ok(()))
    case Update(id, e) =>
      if id !in m.entries then (m, Err(EntryNotFound)) else (m.(entries := m.entries[id := e]), Ok(()))
    case UpdateFields(id, u) =>
      if id !in m.entries then (m, Err(EntryNotFound))
      else (m.(entries := m.entries[id := Apply(m.entries[id], u).0]), Apply(m.entries[id], u).1)
    case Delete(id) =>
      if id !in m.entries then (m, Err(EntryNotFound))
      else (OrderedMap(Dropped(m.order, id), m.entries - {id}), Ok(()))
  }

  function Items(m: OrderedMap): seq<Summary>
    requires forall id :: id in m.order ==> id in m.entries
  {
    seq(|m.order|, i requires 0 <= i < |m.order| =>
      Summary(m.order[i], m.entries[m.order[i]].meta.entryType, m.entries[m.order[i]].secret.title))
  }

  predicate NoDuplicates(ids: seq<Id>) { forall i, j :: 0 <= i < j < |ids| ==> ids[i] != ids[j] }

  ghost predicate WellFormed(m: OrderedMap) {
    NoDuplicates(m.order) && (forall id :: id in m.order <==> id in m.entries)
  }

  function Ids(p: Payload): seq<Id> { seq(|p|, i requires 0 <= i < |p| => p[i].meta.id) }

  /** The ordered map a payload with distinct ids stands for. */
  ghost predicate Represents(p: Payload, m: OrderedMap) {
    && WellFormed(m) && m.order == Ids(p) && AllReadable(p)
    && forall i :: 0 <= i < |p| ==> p[i].meta.id in m.entries && m.entries[p[i].meta.id] == p[i]
  }

  /** The operation writes no entry that cannot be read back. */
  predicate LeavesReadable(m: OrderedMap, op: Op) {
    match op
    case Add(e) => e.meta.id !in m.entries ==> e.Invariant()
    case Update(id, e) => id in m.entries ==> e.Invariant()
    case UpdateFields(id, u) => id in m.entries ==> Apply(m.entries[id], u).0.Invariant()
    case Delete(_) => true
  }

  /** Readable entries stay so, and a whole-entry replacement keeps the id. */
  predicate Fit(m: OrderedMap, op: Op) {
    LeavesReadable(m, op) && (op.Update? && op.id in m.entries ==> op.entry.meta.id == op.id)
  }

  lemma IndexRepresents(p: Payload, m: OrderedMap, id: Id)
    requires Represents(p, m)
    ensures IndexById(p, id) < |p| <==> id in m.entries
    ensures id in m.entries ==> p[IndexById(p, id)] == m.entries[id]
  {
    if id in m.entries {
      assert id in Ids(p);
      var i :| 0 <= i < |p| && Ids(p)[i] == id;
      assert p[i].meta.id == id;
    }
  }

  lemma {:induction false} WithoutKeepsOthers(p: Payload, id: Id)
    ensures forall e :: e in Without(p, id) <==> e in p && e.meta.id != id
    ensures |Without(p, id)| <= |p| && (|Without(p, id)| == |p| <==> Without(p, id) == p)
  {
    if p != [] {
      WithoutKeepsOthers(p[1..], id);
      assert p == [p[0]] + p[1..];
    }
  }

  lemma {:induction false} WithoutDropsId(p: Payload, id: Id)
    ensures Ids(Without(p, id)) == Dropped(Ids(p), id)
  {
    if p != [] {
      WithoutDropsId(p[1..], id);
      assert Ids(p)[1..] == Ids(p[1..]);
      var first := if p[0].meta.id == id then [] else [p[0]];
      assert Ids(first + Without(p[1..], id)) == Ids(first) + Ids(Without(p[1..], id));
    }
  }

  lemma {:induction false} DroppedStaysDistinct(ids: seq<Id>, id: Id)
    requires NoDuplicates(ids)
    ensures NoDuplicates(Dropped(ids, id))
    ensures forall x :: x in Dropped(ids, id) <==> x in ids && x != id
  {
    if ids != [] {
      DroppedStaysDistinct(ids[1..], id);
      var rest := Dropped(ids[1..], id);
      forall i | 0 <= i < |rest| ensures rest[i] != ids[0] {
        assert rest[i] in ids[1..];
      }
    }
  }

  lemma DeleteRefines(p: Payload, m: OrderedMap, id: Id)
    requires Represents(p, m)
    ensures OnPayload(p, Delete(id)).1 == OnMap(m, Delete(id)).1
    ensures Represents(OnPayload(p, Delete(id)).0, OnMap(m, Delete(id)).0)
  {
    var q := Without(p, id);
    WithoutKeepsOthers(p, id);
    WithoutDropsId(p, id);
    DroppedStaysDistinct(m.order, id);
    forall i | 0 <= i < |q| ensures q[i] in p && q[i].meta.id != id { assert q[i] in q; }
    forall i | 0 <= i < |p| ensures p[i].meta.id in m.order { assert Ids(p)[i] == p[i].meta.id; }
    if id in m.entries {
      assert q != p by {
        var i :| 0 <= i < |p| && Ids(p)[i] == id;
        assert p[i] !in q;
      }
    } else {
      AllKept(p, id);
    }
  }

  lemma {:induction false} AllKept(p: Payload, id: Id)
    requires forall i :: 0 <= i < |p| ==> p[i].meta.id != id
    ensures Without(p, id) == p
  {
    if p != [] {
      AllKept(p[1..], id);
      assert p == [p[0]] + p[1..];
    }
  }

  lemma OperationRefines(p: Payload, m: OrderedMap, op: Op)
    requires Represents(p, m) && Fit(m, op)
    ensures OnPayload(p, op).1 == OnMap(m, op).1
    ensures Represents(OnPayload(p, op).0, OnMap(m, op).0)
  {
    match op
    case Add(e) =>
      IndexRepresents(p, m, e.meta.id);
      assert Ids(p + [e]) == Ids(p) + [e.meta.id];
    case Update(id, e) =>
      IndexRepresents(p, m, id);
      if id in m.entries { OverwriteRepresents(p, m, id, e); }
    case UpdateFields(id, u) =>
      IndexRepresents(p, m, id);
      if id in m.entries {
        UpdateStaysReadable(m.entries[id], u);
        OverwriteRepresents(p, m, id, Apply(m.entries[id], u).0);
      }
    case Delete(id) =>
      DeleteRefines(p, m, id);
  }

  lemma {:induction false} OverwriteRepresents(p: Payload, m: OrderedMap, id: Id, e: Entry)
    requires Represents(p, m) && e.meta.id == id && e.Invariant()
    ensures id in m.entries ==> IndexById(p, id) < |p|
    ensures id in m.entries ==> Represents(p[IndexById(p, id) := e], m.(entries := m.entries[id := e]))
  {
    IndexRepresents(p, m, id);
    if id in m.entries {
      var i := IndexById(p, id);
      assert Ids(p[i := e]) == Ids(p);
      forall j | 0 <= j < |p| && j != i ensures p[j].meta.id != id { assert Ids(p)[j] != Ids(p)[i]; }
    }
  }

  // --- Whole runs ---

  /** None is the locked vault. */
  function AbstractStep(codec: PayloadJson, a: Option<OrderedMap>, s: Step): (Option<OrderedMap>, Answer)
    requires a.Some? ==> WellFormed(a.value)
  {
    match s
    case Operate(op) =>
      if a.None? then (a, Changed(Err(VaultLocked)))
      else (Some(OnMap(a.value, op).0), Changed(OnMap(a.value, op).1))
    case Get(id) =>
      (a, Found(if a.None? then Err(VaultLocked)
                else if id in a.value.entries then Ok(a.value.entries[id]) else Err(EntryNotFound)))
    case List => (a, Listing(if a.None? then None else Some(Items(a.value))))
    case Relock => (None, Done)
    case Reopen(json, _, _, _) =>
      // None of the buffers a run is fit for fails to decode.
      (if codec.dec(json).None? then None else Some(MapOf(codec.dec(json).value)), Done)
  }

  function MapOf(p: Payload): OrderedMap { OrderedMap(Ids(p), ById(p)) }

  function ById(p: Payload): map<Id, Entry> {
    if p == [] then map[] else ById(p[..|p| - 1])[p[|p| - 1].meta.id := p[|p| - 1]]
  }

  lemma {:induction false} ByIdRepresents(p: Payload)
    requires AllReadable(p) && NoDuplicates(Ids(p))
    ensures Represents(p, OrderedMap(Ids(p), ById(p)))
  {
    if p != [] {
      var front, e := p[..|p| - 1], p[|p| - 1];
      assert Ids(p) == Ids(front) + [e.meta.id];
      forall i, j | 0 <= i < j < |Ids(front)| ensures Ids(front)[i] != Ids(front)[j] {
        assert Ids(p)[i] != Ids(p)[j];
      }
      ByIdRepresents(front);
      forall i | 0 <= i < |front| ensures front[i].meta.id != e.meta.id { assert Ids(p)[i] != Ids(p)[|front|]; }
      assert p == front + [e];
    }
  }

  function ConcreteStep(codec: PayloadJson, state: VaultState, s: Step): (VaultState, Answer) {
    match s
    case Operate(op) => (OnState(codec, state, op).0, Changed(OnState(codec, state, op).1))
    case Get(id) => (state, Found(GetOnState(codec, state, id)))
    case List => (state, Listing(ListOnState(codec, state)))
    case Relock => (Locked, Done)
    case Reopen(json, strength, outcome, runtime) => (NewSession(json, strength, outcome, runtime), Done)
  }

  /** Operations fit the map; a session opens on any buffer that decodes to entries of distinct ids. */
  predicate FitStep(codec: PayloadJson, a: Option<OrderedMap>, s: Step) {
    match s
    case Operate(op) => a.Some? ==> Fit(a.value, op)
    case Reopen(json, _, _, _) => codec.dec(json).Some? && NoDuplicates(Ids(codec.dec(json).value))
    case _ => true
  }

  /** Locked on both sides, or an unlocked buffer that decodes to a payload the map stands for. */
  ghost predicate Related(codec: PayloadJson, state: VaultState, a: Option<OrderedMap>) {
    if a.None? then state.Locked?
    else
      && state.Unlocked? && codec.dec(state.session.json).Some?
      && Represents(codec.dec(state.session.json).value, a.value)
  }

  lemma StepRefines(codec: PayloadJson, state: VaultState, a: Option<OrderedMap>, s: Step)
    requires codec.Lawful() && Related(codec, state, a) && FitStep(codec, a, s)
    ensures ConcreteStep(codec, state, s).1 == AbstractStep(codec, a, s).1
    ensures Related(codec, ConcreteStep(codec, state, s).0, AbstractStep(codec, a, s).0)
  {
    match s
    case Operate(op) =>
      if a.Some? {
        var p := codec.dec(state.session.json).value;
        OperationRefines(p, a.value, op);
        assert codec.dec(codec.enc(OnPayload(p, op).0)) == Some(OnPayload(p, op).0);
      }
    case Get(id) =>
      if a.Some? { IndexRepresents(codec.dec(state.session.json).value, a.value, id); }
    case List =>
      if a.Some? {
        var p := codec.dec(state.session.json).value;
        assert Summaries(p) == Items(a.value) by {
          forall i | 0 <= i < |p| ensures a.value.entries[a.value.order[i]] == p[i] {}
        }
      }
    case Relock =>
    case Reopen(json, _, _, _) =>
      ByIdRepresents(codec.dec(json).value);
  }

  /** The answers of a run. */
  ghost function ConcreteRun(codec: PayloadJson, state: VaultState, steps: seq<Step>): (answers: seq<Answer>)
    ensures |answers| == |steps|
    decreases steps
  {
    if steps == [] then []
    else
      var o := ConcreteStep(codec, state, steps[0]);
      [o.1] + ConcreteRun(codec, o.0, steps[1..])
  }

  /** The state a run ends in. */
  function ConcreteEnd(codec: PayloadJson, state: VaultState, steps: seq<Step>): VaultState
    decreases steps
  {
    if steps == [] then state else ConcreteEnd(codec, ConcreteStep(codec, state, steps[0]).0, steps[1..])
  }

  /** A fit step keeps the ids of a map distinct and its order complete. */
  lemma FitStepKeepsWellFormed(codec: PayloadJson, a: Option<OrderedMap>, s: Step)
    requires codec.Lawful() && (a.Some? ==> WellFormed(a.value)) && FitStep(codec, a, s)
    ensures AbstractStep(codec, a, s).0.Some? ==> WellFormed(AbstractStep(codec, a, s).0.value)
  {
    if s.Reopen? { ByIdRepresents(codec.dec(s.json).value); }
    if s.Operate? && s.op.Delete? && a.Some? { DroppedStaysDistinct(a.value.order, s.op.id); }
  }

  /** Every step is fit for the map it meets. */
  ghost predicate FitRun(codec: PayloadJson, a: Option<OrderedMap>, steps: seq<Step>)
    requires codec.Lawful() && (a.Some? ==> WellFormed(a.value))
    decreases steps
  {
    steps == []
    || (FitStep(codec, a, steps[0])
        && (FitStepKeepsWellFormed(codec, a, steps[0]); FitRun(codec, AbstractStep(codec, a, steps[0]).0, steps[1..])))
  }

  ghost function AbstractRun(codec: PayloadJson, a: Option<OrderedMap>, steps: seq<Step>): seq<Answer>
    requires codec.Lawful() && (a.Some? ==> WellFormed(a.value)) && FitRun(codec, a, steps)
    decreases steps
  {
    if steps == [] then []
    else
      FitStepKeepsWellFormed(codec, a, steps[0]);
      var o := AbstractStep(codec, a, steps[0]);
      [o.1] + AbstractRun(codec, o.0, steps[1..])
  }

  ghost function AbstractEnd(codec: PayloadJson, a: Option<OrderedMap>, steps: seq<Step>): Option<OrderedMap>
    requires codec.Lawful() && (a.Some? ==> WellFormed(a.value)) && FitRun(codec, a, steps)
    decreases steps
  {
    if steps == [] then a
    else
      FitStepKeepsWellFormed(codec, a, steps[0]);
      AbstractEnd(codec, AbstractStep(codec, a, steps[0]).0, steps[1..])
  }

  /** Every answer of every run is the ordered map's. The run ends related to the map: locked with it, or with a
      buffer that decodes to entries of distinct ids, which are the map's in its order. */
  lemma {:induction false} RunsRefineOrderedMap(codec: PayloadJson, state: VaultState, a: Option<OrderedMap>,
                                                steps: seq<Step>)
    requires codec.Lawful() && Related(codec, state, a)
    requires (a.Some? ==> WellFormed(a.value)) && FitRun(codec, a, steps)
    ensures ConcreteRun(codec, state, steps) == AbstractRun(codec, a, steps)
    ensures Related(codec, ConcreteEnd(codec, state, steps), AbstractEnd(codec, a, steps))
    ensures var end := ConcreteEnd(codec, state, steps);
            end.Unlocked? ==> codec.dec(end.session.json).Some? && NoDuplicates(Ids(codec.dec(end.session.json).value))
    decreases steps
  {
    if steps != [] {
      StepRefines(codec, state, a, steps[0]);
      FitStepKeepsWellFormed(codec, a, steps[0]);
      RunsRefineOrderedMap(codec, ConcreteStep(codec, state, steps[0]).0, AbstractStep(codec, a, steps[0]).0,
                           steps[1..]);
    }
  }

  /** What an update writes is what the entry then reads, and no other entry changes. */
  lemma UpdatedEntryReadsBack(codec: PayloadJson, state: VaultState, m: OrderedMap, id: Id, u: EntryUpdate, other: Id)
    requires codec.Lawful() && Related(codec, state, Some(m)) && id in m.entries
    requires OnState(codec, state, UpdateFields(id, u)).1.Ok?
    ensures GetOnState(codec, state, id) == Ok(m.entries[id])
    ensures var after := OnState(codec, state, UpdateFields(id, u)).0;
            && GetOnState(codec, after, id) == Ok(Apply(m.entries[id], u).0)
            && (other != id ==> GetOnState(codec, after, other) == GetOnState(codec, state, other))
  {
    var p := codec.dec(state.session.json).value;
    IndexRepresents(p, m, id);
    IndexRepresents(p, m, other);
    UpdateStaysReadable(m.entries[id], u);
    SucceededIsReadable(m.entries[id], u);
    OperationRefines(p, m, UpdateFields(id, u));
    var q, n := OnPayload(p, UpdateFields(id, u)).0, OnMap(m, UpdateFields(id, u)).0;
    assert codec.dec(codec.enc(q)) == Some(q);
    IndexRepresents(q, n, id);
    IndexRepresents(q, n, other);
  }

  lemma SucceededIsReadable(e: Entry, u: EntryUpdate)
    requires e.Invariant() && Apply(e, u).1.Ok?
    ensures Apply(e, u).0.Invariant()
  {
  }

  predicate Asks(s: Step) { s.Operate? || s.Get? || s.List? }

  predicate SaysLocked(answer: Answer) {
    answer == Changed(Err(VaultLocked)) || answer == Found(Err(VaultLocked)) || answer == Listing(None)
  }

  /** Over every fit run, a step that asks is told the vault is locked exactly when it is locked at that moment. */
  lemma {:induction false} RunsSayLockedIffLocked(codec: PayloadJson, state: VaultState, a: Option<OrderedMap>,
                                                  steps: seq<Step>, i: nat)
    requires codec.Lawful() && Related(codec, state, a)
    requires (a.Some? ==> WellFormed(a.value)) && FitRun(codec, a, steps)
    requires i < |steps| && Asks(steps[i])
    ensures SaysLocked(ConcreteRun(codec, state, steps)[i]) <==> ConcreteEnd(codec, state, steps[..i]).Locked?
    decreases steps
  {
    if i == 0 {
      AnswersLockedIffLocked(codec, state, a, steps[0]);
    } else {
      StepRefines(codec, state, a, steps[0]);
      FitStepKeepsWellFormed(codec, a, steps[0]);
      RunsSayLockedIffLocked(codec, ConcreteStep(codec, state, steps[0]).0, AbstractStep(codec, a, steps[0]).0,
                             steps[1..], i - 1);
      assert steps[..i][1..] == steps[1..][..i - 1];
    }
  }

  /** On a buffer that decodes, every operation and read reports a locked vault exactly when the vault is locked. */
  lemma AnswersLockedIffLocked(codec: PayloadJson, state: VaultState, a: Option<OrderedMap>, s: Step)
    requires Related(codec, state, a) && Asks(s)
    ensures SaysLocked(ConcreteStep(codec, state, s).1) <==> state.Locked?
  {
    if s.Operate? && state.Unlocked? { OperationsNeverReportLocked(codec.dec(state.session.json).value, s.op); }
  }

  lemma OperationsNeverReportLocked(p: Payload, op: Op)
    ensures OnPayload(p, op).1 != Err(VaultLocked)
  {
    if op.UpdateFields? && IndexById(p, op.id) < |p| { UpdatesNeverReportLocked(p[IndexById(p, op.id)], op.update); }
  }

  // --- What an unfit operation does ---

  /** After any operation the buffer still decodes exactly when the operation wrote no unreadable entry. */
  lemma BufferDecodesIffReadable(codec: PayloadJson, state: VaultState, m: OrderedMap, op: Op)
    requires codec.Lawful() && Related(codec, state, Some(m))
    ensures var after := OnState(codec, state, op).0;
            after.Unlocked? && (codec.dec(after.session.json).Some? <==> LeavesReadable(m, op))
  {
    var p := codec.dec(state.session.json).value;
    var q := OnPayload(p, op).0;
    PayloadReadableIff(p, m, op);
    assert codec.dec(codec.enc(q)) == if AllReadable(q) then Some(q) else None;
  }

  lemma PayloadReadableIff(p: Payload, m: OrderedMap, op: Op)
    requires Represents(p, m)
    ensures AllReadable(OnPayload(p, op).0) <==> LeavesReadable(m, op)
  {
    match op
    case Add(e) =>
      IndexRepresents(p, m, e.meta.id);
      AppendReadable(p, e);
    case Update(id, e) =>
      IndexRepresents(p, m, id);
      if id in m.entries { OverwriteReadable(p, IndexById(p, id), e); }
    case UpdateFields(id, u) =>
      IndexRepresents(p, m, id);
      if id in m.entries { OverwriteReadable(p, IndexById(p, id), Apply(m.entries[id], u).0); }
    case Delete(id) =>
      WithoutKeepsOthers(p, id);
      forall i | 0 <= i < |Without(p, id)| ensures Without(p, id)[i].Invariant() {
        assert Without(p, id)[i] in Without(p, id);
      }
  }

  lemma AppendReadable(p: Payload, e: Entry)
    requires AllReadable(p)
    ensures AllReadable(p + [e]) <==> e.Invariant()
  {
    assert (p + [e])[|p|] == e;
  }

  lemma OverwriteReadable(p: Payload, i: nat, e: Entry)
    requires AllReadable(p) && i < |p|
    ensures AllReadable(p[i := e]) <==> e.Invariant()
  {
    assert p[i := e][i] == e;
  }

  /** An unlocked buffer that no longer decodes. */
  predicate Stuck(codec: PayloadJson, state: VaultState) { state.Unlocked? && codec.dec(state.session.json).None? }

  /** Nothing that asks changes a stuck vault, and every answer is that it is locked. */
  lemma {:induction false} StuckVaultStaysStuck(codec: PayloadJson, state: VaultState, steps: seq<Step>)
    requires Stuck(codec, state) && forall s :: s in steps ==> Asks(s)
    ensures ConcreteEnd(codec, state, steps) == state
    ensures forall i :: 0 <= i < |steps| ==> SaysLocked(ConcreteRun(codec, state, steps)[i])
    decreases steps
  {
    if steps != [] {
      assert steps[0] in steps;
      StuckVaultStaysStuck(codec, state, steps[1..]);
    }
  }

  lemma AnswersIffStuck(codec: PayloadJson, state: VaultState, next: Step)
    requires state.Unlocked? && Asks(next)
    ensures SaysLocked(ConcreteStep(codec, state, next).1) <==> Stuck(codec, state)
  {
    if next.Operate? && !Stuck(codec, state) {
      OperationsNeverReportLocked(codec.dec(state.session.json).value, next.op);
    }
  }

  /** A field update leaves a stuck vault exactly when one of its steps spoils the entry, and then it fails. */
  lemma StuckIffSpoiled(codec: PayloadJson, state: VaultState, m: OrderedMap, id: Id, u: EntryUpdate)
    requires codec.Lawful() && Related(codec, state, Some(m)) && id in m.entries
    ensures m.entries[id].Invariant() && forall x :: x in AsSteps(u) ==> !x.Replace?
    ensures var (after, result) := OnState(codec, state, UpdateFields(id, u));
            && after.Unlocked?
            && (Stuck(codec, after) <==> SpoilsWithin(m.entries[id], AsSteps(u)))
            && (Stuck(codec, after) ==> result.Err?)
  {
    IndexRepresents(codec.dec(state.session.json).value, m, id);
    UpdateStaysReadable(m.entries[id], u);
    BufferDecodesIffReadable(codec, state, m, UpdateFields(id, u));
    if SpoilsWithin(m.entries[id], AsSteps(u)) { SpoilingFails(m.entries[id], u); }
  }

  /** After a field update an unlocked vault answers VaultLocked exactly when one of the update's steps spoiled the
      entry; and until it is locked or unlocked again, no later run of operations and reads is answered otherwise. */
  lemma SpoiledVaultAnswersLocked(codec: PayloadJson, state: VaultState, m: OrderedMap, id: Id, u: EntryUpdate,
                                  next: Step, more: seq<Step>)
    requires codec.Lawful() && Related(codec, state, Some(m)) && id in m.entries
    requires Asks(next) && forall s :: s in more ==> Asks(s)
    ensures m.entries[id].Invariant() && forall x :: x in AsSteps(u) ==> !x.Replace?
    ensures var after := OnState(codec, state, UpdateFields(id, u)).0;
            && after.Unlocked?
            && (SaysLocked(ConcreteStep(codec, after, next).1) <==> SpoilsWithin(m.entries[id], AsSteps(u)))
            && (SpoilsWithin(m.entries[id], AsSteps(u)) ==>
                  && ConcreteEnd(codec, after, more) == after
                  && forall i :: 0 <= i < |more| ==> SaysLocked(ConcreteRun(codec, after, more)[i]))
  {
    StuckIffSpoiled(codec, state, m, id, u);
    var after := OnState(codec, state, UpdateFields(id, u)).0;
    AnswersIffStuck(codec, after, next);
    if Stuck(codec, after) { StuckVaultStaysStuck(codec, after, more); }
  }

  /** A vault with one TOTP entry whose TOTP block is taken away: the update fails, and the unlocked vault no longer
      lists anything. */
  lemma RemovingTotpSticks(codec: PayloadJson, id: Id) returns (state: VaultState)
    requires codec.Lawful()
    ensures state.Unlocked? && ListOnState(codec, state).Some?
    ensures var (after, result) := OnState(codec, state, UpdateFields(id, SetTotp(None)));
            result == Err(InvalidType) && after.Unlocked? && ListOnState(codec, after) == None
  {
    var totp := TotpSecret(None, None, "A", 6, 30, Sha1);
    var e := Entry(EntryMeta(id, Totp), EntrySecret("t", None, None, "A", None, Some(totp)));
    assert totp.Validate().Ok?;
    var p := [e];
    state := NewSession(codec.enc(p), Strong, Primary, NotDebugged);
    assert codec.dec(codec.enc(p)) == Some(p);
    var q := OnPayload(p, UpdateFields(id, SetTotp(None))).0;
    assert IndexById(p, id) == 0 && !q[0].Invariant();
    assert codec.dec(codec.enc(q)) == None;
  }

  lemma SpoilingFails(e: Entry, u: EntryUpdate)
    requires e.Invariant() && (forall x :: x in AsSteps(u) ==> !x.Replace?) && SpoilsWithin(e, AsSteps(u))
    ensures Apply(e, u).1.Err?
  {
    RunStaysReadable(e, AsSteps(u));
    if u.Replace? { ReplaceIsComposition(e, u); }
  }
}
