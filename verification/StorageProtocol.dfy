/**
 Readers and writers of one vault path as a step machine.

 Any number of processes take the sidecar lock, read the vault in chunks, or write it through a
 fresh temporary file. Every step may fail, a process may crash between any two steps (the
 kernel then drops its advisory lock), and the machine may lose power.
*/
module StorageProtocol {
  import opened Common
  import opened Storage

  datatype ReaderPc =
    | RBegun
    | RLocked
    | ROpen(ino: nat, got: bytes)
    | RReturning(result: Result<bytes, StorageError>)
    | RGone

  /** `before` is what the vault held when the exclusive lock was granted. */
  datatype WriterPc =
    | WBegun
    | WLocked(before: Option<bytes>)
    | WCreated(before: Option<bytes>, ino: nat, written: nat)
    | WSynced(before: Option<bytes>, ino: nat)
    | WRenamed(before: Option<bytes>)
    | WCleanup(before: Option<bytes>, failed: Stage)
    | WReturning(before: Option<bytes>, result: Result<(), StorageError>)
    | WGone

  datatype Proc = Reader(rpc: ReaderPc) | Writer(content: bytes, temp: Name, wpc: WriterPc) {
    predicate HoldsShared() { Reader? && !rpc.RBegun? && !rpc.RGone? }
    predicate HoldsExclusive() { Writer? && !wpc.WBegun? && !wpc.WGone? }
    function Gone(): Proc { if Reader? then Reader(RGone) else Writer(content, temp, WGone) }
  }

  /** `committed` is the vault's content after the last successful rename or loss of power. */
  datatype Sys = Sys(target: Name, initial: Option<bytes>, fs: Fs, procs: seq<Proc>, committed: Option<bytes>)

  datatype ReaderAct = LockShared | Open | Read(n: nat) | FailRead | EndRead

  datatype WriterAct =
    | LockExclusive
    | CreateTemp(ok: bool)
    | Write(n: nat)
    | FailWrite
    | SyncTemp(ok: bool)
    | RenameOver(ok: bool)
    | SyncParent(ok: bool)
    | Cleanup(ok: bool)
    | EndWrite

  datatype Action =
    | StartReader
    | StartWriter(content: bytes, temp: Name)
    | ReaderStep(p: nat, r: ReaderAct)
    | WriterStep(p: nat, w: WriterAct)
    | Stop(p: nat)             // a crash, or an error before the lock is held
    | PowerLoss(after: Fs)

  predicate SameEntry(d: Dir, e: Dir, n: Name) { (n in d <==> n in e) && (n in d ==> d[n] == e[n]) }

  ghost predicate FromSomeVersion(fs: Fs, e: Dir, n: Name) {
    exists d :: d in fs.versions && SameEntry(d, e, n)
  }

  /** What a loss of power may leave: synced bytes, and for each name an entry no older than the last sync. */
  ghost predicate Survives(fs: Fs, after: Fs) {
    && |after.inodes| == |fs.inodes|
    && after.versions == {after.dir}
    && (forall i :: 0 <= i < |fs.inodes| ==>
          after.inodes[i].synced && (fs.inodes[i].synced ==> after.inodes[i] == fs.inodes[i]))
    && (forall n :: n in after.dir ==> after.dir[n] < |after.inodes|)
    && (forall n :: FromSomeVersion(fs, after.dir, n))
  }

  ghost predicate FreshTemp(s: Sys, temp: Name) {
    && temp != s.target
    && (forall d {:trigger d in s.fs.versions} :: d in s.fs.versions ==> temp !in d)
    && (forall p :: 0 <= p < |s.procs| && s.procs[p].Writer? ==> s.procs[p].temp != temp)
  }

  predicate CanRead(s: Sys, p: nat, r: ReaderAct) {
    && p < |s.procs| && s.procs[p].Reader?
    && var pc := s.procs[p].rpc;
      match r
      case LockShared => pc.RBegun? && forall q :: 0 <= q < |s.procs| ==> !s.procs[q].HoldsExclusive()
      case Open => pc.RLocked? && s.target in s.fs.dir
      case Read(n) =>
        pc.ROpen? && pc.ino < |s.fs.inodes| && |pc.got| + n <= |s.fs.inodes[pc.ino].data|
      case FailRead => pc.RLocked? || pc.ROpen?
      case EndRead => pc.RReturning?
  }

  predicate CanWrite(s: Sys, p: nat, w: WriterAct) {
    && p < |s.procs| && s.procs[p].Writer?
    && var pc := s.procs[p].wpc;
      match w
      case LockExclusive =>
        pc.WBegun? && forall q :: 0 <= q < |s.procs| ==> !s.procs[q].HoldsExclusive() && !s.procs[q].HoldsShared()
      case CreateTemp(ok) => pc.WLocked? && (ok ==> s.procs[p].temp !in s.fs.dir)
      case Write(n) => pc.WCreated? && pc.ino < |s.fs.inodes| && pc.written + n <= |s.procs[p].content|
      case FailWrite => pc.WCreated?
      case SyncTemp(_) => pc.WCreated? && pc.ino < |s.fs.inodes| && pc.written == |s.procs[p].content|
      case RenameOver(ok) => pc.WSynced? && (ok ==> s.procs[p].temp in s.fs.dir)
      case SyncParent(_) => pc.WRenamed?
      case Cleanup(_) => pc.WCleanup?
      case EndWrite => pc.WReturning?
  }

  ghost predicate Enabled(s: Sys, a: Action) {
    match a
    case StartReader => true
    case StartWriter(_, temp) => FreshTemp(s, temp)
    case ReaderStep(p, r) => CanRead(s, p, r)
    case WriterStep(p, w) => CanWrite(s, p, w)
    case Stop(p) => p < |s.procs|
    case PowerLoss(after) => Survives(s.fs, after)
  }

  /** A read returns when it has reached the end of the file it opened. */
  function AfterRead(s: Sys, p: nat, r: ReaderAct): ReaderPc
    requires CanRead(s, p, r)
  {
    match r
    case LockShared => RLocked
    case Open => ROpen(s.fs.dir[s.target], [])
    case Read(n) =>
      var ino, got := s.procs[p].rpc.ino, s.procs[p].rpc.got;
      var data := s.fs.inodes[ino].data;
      if |got| == |data| then RReturning(Ok(got)) else ROpen(ino, got + data[|got|..|got| + n])
    case FailRead => RReturning(Err(Refused))
    case EndRead => RGone
  }

  function AfterWrite(s: Sys, p: nat, w: WriterAct): WriterPc
    requires CanWrite(s, p, w)
  {
    var pc := s.procs[p].wpc;
    match w
    case LockExclusive => WLocked(s.fs.Bytes(s.target))
    case CreateTemp(ok) => if ok then WCreated(pc.before, |s.fs.inodes|, 0) else WCleanup(pc.before, CreateTempFile)
    case Write(n) => WCreated(pc.before, pc.ino, pc.written + n)
    case FailWrite => WCleanup(pc.before, WriteAll)
    case SyncTemp(ok) => if ok then WSynced(pc.before, pc.ino) else WCleanup(pc.before, SyncTempFile)
    case RenameOver(ok) => if ok then WRenamed(pc.before) else WCleanup(pc.before, RenameTemp)
    case SyncParent(ok) => if ok then WReturning(pc.before, Ok(())) else WCleanup(pc.before, SyncParentDir)
    case Cleanup(_) => WReturning(pc.before, Err(Io(pc.failed)))
    case EndWrite => WGone
  }

  function FsAfterWrite(s: Sys, p: nat, w: WriterAct): Fs
    requires CanWrite(s, p, w)
  {
    var proc := s.procs[p];
    match w
    case CreateTemp(true) => s.fs.Create(proc.temp)
    case Write(n) => s.fs.Append(proc.wpc.ino, proc.content[proc.wpc.written..proc.wpc.written + n])
    case SyncTemp(true) => s.fs.SyncFile(proc.wpc.ino)
    case RenameOver(true) => s.fs.Rename(proc.temp, s.target)
    case SyncParent(true) => s.fs.SyncDir()
    case Cleanup(true) => s.fs.Remove(proc.temp)
    case _ => s.fs
  }

  ghost function Do(s: Sys, a: Action): Sys
    requires Enabled(s, a)
  {
    match a
    case StartReader => s.(procs := s.procs + [Reader(RBegun)])
    case StartWriter(content, temp) => s.(procs := s.procs + [Writer(content, temp, WBegun)])
    case ReaderStep(p, r) => s.(procs := s.procs[p := Reader(AfterRead(s, p, r))])
    case WriterStep(p, w) =>
      s.(procs := s.procs[p := s.procs[p].(wpc := AfterWrite(s, p, w))],
         fs := FsAfterWrite(s, p, w),
         committed := if w == RenameOver(true) then Some(s.procs[p].content) else s.committed)
    case Stop(p) => s.(procs := s.procs[p := s.procs[p].Gone()])
    case PowerLoss(after) =>
      s.(fs := after, procs := seq(|s.procs|, p requires 0 <= p < |s.procs| => s.procs[p].Gone()),
         committed := after.Bytes(s.target))
  }

  /** A vault directory at rest: everything in it is on disk. */
  ghost predicate AtRest(fs: Fs) {
    fs.Valid() && fs.versions == {fs.dir} && forall i :: 0 <= i < |fs.inodes| ==> fs.inodes[i].synced
  }

  function Start(target: Name, fs: Fs): Sys { Sys(target, fs.Bytes(target), fs, [], fs.Bytes(target)) }

  ghost function Exec(start: Sys, acts: seq<Action>): Option<Sys> {
    if acts == [] then Some(start)
    else
      var before := Exec(start, acts[..|acts| - 1]);
      var a := acts[|acts| - 1];
      if before.Some? && Enabled(before.value, a) then Some(Do(before.value, a)) else None
  }

  // ------------------------------------------------------------------------------------------
  // What every step keeps
  // ------------------------------------------------------------------------------------------

  /** The initial bytes, or the complete bytes of one write. */
  ghost predicate Whole(s: Sys, data: Option<bytes>) {
    data == s.initial || exists p :: 0 <= p < |s.procs| && s.procs[p].Writer? && data == Some(s.procs[p].content)
  }

  /** Under this version of the directory the vault is whole and on disk. */
  ghost predicate VersionOk(s: Sys, d: Dir) {
    if s.target in d
    then d[s.target] < |s.fs.inodes| && s.fs.inodes[d[s.target]].synced
         && Whole(s, Some(s.fs.inodes[d[s.target]].data))
    else Whole(s, None)
  }

  ghost predicate VersionsOk(s: Sys) {
    forall d {:trigger VersionOk(s, d)} :: d in s.fs.versions ==> VersionOk(s, d)
  }

  ghost predicate Exclusive(s: Sys) {
    forall p, q :: 0 <= p < |s.procs| && 0 <= q < |s.procs| && p != q && s.procs[p].HoldsExclusive() ==>
      !s.procs[q].HoldsExclusive() && !s.procs[q].HoldsShared()
  }

  /** The inode a writer fills is its temporary file's, and never the vault's. */
  ghost predicate OwnInode(s: Sys, temp: Name, ino: nat) {
    && ino < |s.fs.inodes| && temp in s.fs.dir && s.fs.dir[temp] == ino
    && forall d {:trigger d in s.fs.versions} :: d in s.fs.versions && s.target in d ==> d[s.target] != ino
  }

  ghost predicate ReaderOk(s: Sys, pc: ReaderPc) {
    match pc
    case ROpen(ino, got) =>
      && s.target in s.fs.dir && s.fs.dir[s.target] == ino && ino < |s.fs.inodes|
      && got <= s.fs.inodes[ino].data
    case RReturning(Ok(data)) => s.committed == Some(data)
    case _ => true
  }

  ghost predicate WriterOk(s: Sys, w: Proc)
    requires w.Writer?
  {
    match w.wpc
    case WLocked(before) => s.committed == before
    case WCreated(before, ino, written) =>
      && s.committed == before && OwnInode(s, w.temp, ino)
      && written <= |w.content| && s.fs.inodes[ino].data == w.content[..written]
    case WSynced(before, ino) =>
      s.committed == before && OwnInode(s, w.temp, ino) && s.fs.inodes[ino] == Inode(w.content, true)
    case WRenamed(_) => s.committed == Some(w.content)
    case WCleanup(before, failed) => s.committed == if failed.SyncParentDir? then Some(w.content) else before
    case WReturning(before, result) =>
      s.committed == if result.Ok? || result == Err(Io(SyncParentDir)) then Some(w.content) else before
    case _ => true
  }

  ghost predicate ProcOk(s: Sys, p: nat)
    requires p < |s.procs|
  {
    (s.procs[p].Reader? ==> ReaderOk(s, s.procs[p].rpc))
    && (s.procs[p].Writer? ==> s.procs[p].temp != s.target && WriterOk(s, s.procs[p]))
  }

  ghost predicate Inv(s: Sys) {
    && s.fs.Valid() && s.committed == s.fs.Bytes(s.target)
    && VersionsOk(s) && Exclusive(s)
    && forall p :: 0 <= p < |s.procs| ==> ProcOk(s, p)
  }

  lemma ProcessesOnlyGrow(s: Sys, a: Action, data: Option<bytes>)
    requires Enabled(s, a) && Whole(s, data)
    ensures Whole(Do(s, a), data)
  {
    if data != s.initial {
      var p :| 0 <= p < |s.procs| && s.procs[p].Writer? && data == Some(s.procs[p].content);
      var s' := Do(s, a);
      assert p < |s'.procs| && s'.procs[p].Writer? && s'.procs[p].content == s.procs[p].content;
    }
  }

  lemma StepKeepsExclusive(s: Sys, a: Action)
    requires Inv(s) && Enabled(s, a)
    ensures Exclusive(Do(s, a))
  {
  }

  lemma WriteKeepsFs(s: Sys, p: nat, w: WriterAct)
    requires Inv(s) && CanWrite(s, p, w)
    ensures var s' := Do(s, WriterStep(p, w));
            s'.fs.Valid() && s'.committed == s'.fs.Bytes(s.target)
  {
    assert ProcOk(s, p);
  }

  lemma WriteKeepsVersions(s: Sys, p: nat, w: WriterAct)
    requires Inv(s) && CanWrite(s, p, w)
    ensures VersionsOk(Do(s, WriterStep(p, w)))
  {
    var s' := Do(s, WriterStep(p, w));
    assert ProcOk(s, p);
    forall d | d in s'.fs.versions ensures VersionOk(s', d) {
      if w == RenameOver(true) && d !in s.fs.versions {
        assert s'.procs[p].content == s.procs[p].content;
      } else {
        var e := if d in s.fs.versions then d else s.fs.dir;
        assert VersionOk(s, e);
        assert s.target in d <==> s.target in e;
        ProcessesOnlyGrow(s, WriterStep(p, w), if s.target in e then Some(s.fs.inodes[e[s.target]].data) else None);
      }
    }
  }

  lemma WriteKeepsProcs(s: Sys, p: nat, w: WriterAct, q: nat)
    requires Inv(s) && CanWrite(s, p, w) && q < |s.procs|
    ensures ProcOk(Do(s, WriterStep(p, w)), q)
  {
    assert ProcOk(s, p) && ProcOk(s, q);
  }

  lemma PowerLossKeepsInv(s: Sys, after: Fs)
    requires Inv(s) && Survives(s.fs, after)
    ensures Inv(Do(s, PowerLoss(after)))
  {
    var s' := Do(s, PowerLoss(after));
    assert FromSomeVersion(s.fs, after.dir, s.target);
    var d :| d in s.fs.versions && SameEntry(d, after.dir, s.target);
    assert VersionOk(s, d);
    ProcessesOnlyGrow(s, PowerLoss(after), if s.target in d then Some(s.fs.inodes[d[s.target]].data) else None);
    assert VersionOk(s', after.dir);
    forall q | 0 <= q < |s'.procs| ensures ProcOk(s', q) { assert ProcOk(s, q); }
  }

  lemma ReadKeepsReader(s: Sys, p: nat, r: ReaderAct)
    requires Inv(s) && CanRead(s, p, r)
    ensures ReaderOk(s, AfterRead(s, p, r))
  {
    assert ProcOk(s, p);
    if r.Read? {
      var data, got := s.fs.inodes[s.procs[p].rpc.ino].data, s.procs[p].rpc.got;
      if |got| == |data| { assert got == data; }
    }
  }

  lemma QuietStepKeepsInv(s: Sys, a: Action)
    requires Inv(s) && Enabled(s, a) && !a.WriterStep? && !a.PowerLoss?
    ensures Inv(Do(s, a))
  {
    var s' := Do(s, a);
    StepKeepsExclusive(s, a);
    forall d | d in s'.fs.versions ensures VersionOk(s', d) {
      assert VersionOk(s, d);
      ProcessesOnlyGrow(s, a, if s.target in d then Some(s.fs.inodes[d[s.target]].data) else None);
    }
    forall q | 0 <= q < |s'.procs| ensures ProcOk(s', q) {
      if a.ReaderStep? && q == a.p { ReadKeepsReader(s, a.p, a.r); }
      if q < |s.procs| { assert ProcOk(s, q); }
    }
  }

  lemma StepKeepsInv(s: Sys, a: Action)
    requires Inv(s) && Enabled(s, a)
    ensures Inv(Do(s, a))
  {
    if a.PowerLoss? {
      PowerLossKeepsInv(s, a.after);
    } else if a.WriterStep? {
      StepKeepsExclusive(s, a);
      WriteKeepsFs(s, a.p, a.w);
      WriteKeepsVersions(s, a.p, a.w);
      forall q | 0 <= q < |s.procs| ensures ProcOk(Do(s, a), q) { WriteKeepsProcs(s, a.p, a.w, q); }
    } else {
      QuietStepKeepsInv(s, a);
    }
  }

  lemma {:induction false} RunKeepsInv(target: Name, fs: Fs, acts: seq<Action>)
    requires AtRest(fs) && Exec(Start(target, fs), acts).Some?
    ensures Inv(Exec(Start(target, fs), acts).value)
    ensures Exec(Start(target, fs), acts).value.initial == fs.Bytes(target)
  {
    if acts == [] {
      assert VersionOk(Start(target, fs), fs.dir);
    } else {
      RunKeepsInv(target, fs, acts[..|acts| - 1]);
      StepKeepsInv(Exec(Start(target, fs), acts[..|acts| - 1]).value, acts[|acts| - 1]);
    }
  }

  // ------------------------------------------------------------------------------------------
  // The promises of the storage layer, over every run
  // ------------------------------------------------------------------------------------------

  /** After any failures, crashes and losses of power the vault is its initial bytes or one whole write. */
  lemma VaultIsAlwaysWhole(target: Name, fs: Fs, acts: seq<Action>)
    requires AtRest(fs) && Exec(Start(target, fs), acts).Some?
    ensures var s := Exec(Start(target, fs), acts).value;
            s.fs.Bytes(target) == fs.Bytes(target)
            || exists p :: 0 <= p < |s.procs| && s.procs[p].Writer? && s.fs.Bytes(target) == Some(s.procs[p].content)
  {
    RunKeepsInv(target, fs, acts);
    var s := Exec(Start(target, fs), acts).value;
    TargetIsFixed(Start(target, fs), acts);
    assert VersionOk(s, s.fs.dir);
  }

  lemma {:induction false} TargetIsFixed(start: Sys, acts: seq<Action>)
    requires Exec(start, acts).Some?
    ensures Exec(start, acts).value.target == start.target
  {
    if acts != [] { TargetIsFixed(start, acts[..|acts| - 1]); }
  }

  /** The bytes of the last successful rename, or what the last loss of power left. */
  ghost function LastCommit(start: Sys, acts: seq<Action>): Option<bytes>
    requires Exec(start, acts).Some?
  {
    if acts == [] then start.fs.Bytes(start.target)
    else
      var s, a := Exec(start, acts[..|acts| - 1]).value, acts[|acts| - 1];
      match a
      case WriterStep(p, RenameOver(true)) => Some(s.procs[p].content)
      case PowerLoss(after) => after.Bytes(s.target)
      case _ => LastCommit(start, acts[..|acts| - 1])
  }

  lemma {:induction false} CommittedIsLastCommit(start: Sys, acts: seq<Action>)
    requires start.committed == start.fs.Bytes(start.target) && Exec(start, acts).Some?
    ensures Exec(start, acts).value.committed == LastCommit(start, acts)
  {
    if acts != [] { CommittedIsLastCommit(start, acts[..|acts| - 1]); }
  }

  /** A read that returns bytes returns exactly what the last rename put there. */
  lemma LockedReadSeesLastRename(target: Name, fs: Fs, acts: seq<Action>, p: nat)
    requires AtRest(fs) && Exec(Start(target, fs), acts).Some?
    requires var s := Exec(Start(target, fs), acts).value;
             p < |s.procs| && s.procs[p].Reader? && s.procs[p].rpc.RReturning? && s.procs[p].rpc.result.Ok?
    ensures var s := Exec(Start(target, fs), acts).value;
            Some(s.procs[p].rpc.result.value) == LastCommit(Start(target, fs), acts) == s.fs.Bytes(target)
  {
    RunKeepsInv(target, fs, acts);
    CommittedIsLastCommit(Start(target, fs), acts);
    TargetIsFixed(Start(target, fs), acts);
    assert ProcOk(Exec(Start(target, fs), acts).value, p);
  }

  /** A failure up to the rename leaves the old bytes; a failed directory sync, and success, the new ones. */
  lemma ReturnedWriteTellsTheBytes(target: Name, fs: Fs, acts: seq<Action>, p: nat)
    requires AtRest(fs) && Exec(Start(target, fs), acts).Some?
    requires var s := Exec(Start(target, fs), acts).value;
             p < |s.procs| && s.procs[p].Writer? && s.procs[p].wpc.WReturning?
    ensures var s := Exec(Start(target, fs), acts).value;
            var w := s.procs[p];
            s.fs.Bytes(target) == if w.wpc.result.Ok? || w.wpc.result == Err(Io(SyncParentDir))
                                  then Some(w.content) else w.wpc.before
  {
    RunKeepsInv(target, fs, acts);
    TargetIsFixed(Start(target, fs), acts);
    assert ProcOk(Exec(Start(target, fs), acts).value, p);
  }

  predicate Renames(a: Action) { a.WriterStep? && a.w == RenameOver(true) }

  lemma DurableUntilRename(s: Sys, a: Action, data: bytes)
    requires Inv(s) && Enabled(s, a) && !Renames(a) && s.fs.Durable(s.target, data)
    ensures Do(s, a).fs.Durable(s.target, data)
  {
    var s' := Do(s, a);
    if a.PowerLoss? {
      assert FromSomeVersion(s.fs, a.after.dir, s.target);
    } else if a.WriterStep? {
      assert ProcOk(s, a.p);
      forall d | d in s'.fs.versions
        ensures s.target in d && d[s.target] < |s'.fs.inodes| && s'.fs.inodes[d[s.target]] == Inode(data, true)
      {
        var e := if d in s.fs.versions then d else s.fs.dir;
        assert e in s.fs.versions;
      }
    }
  }

  /** Bytes of a write whose directory sync succeeded survive everything, power loss included, until a later rename. */
  lemma {:induction false} SuccessfulWriteSurvives(target: Name, fs: Fs, acts: seq<Action>, p: nat, more: seq<Action>)
    requires AtRest(fs) && Exec(Start(target, fs), acts + [WriterStep(p, SyncParent(true))] + more).Some?
    requires forall k :: 0 <= k < |more| ==> !Renames(more[k])
    ensures Exec(Start(target, fs), acts).Some?
    ensures var s, s' := Exec(Start(target, fs), acts).value,
                         Exec(Start(target, fs), acts + [WriterStep(p, SyncParent(true))] + more).value;
            && p < |s.procs| && s.procs[p].Writer?
            && s'.fs.Bytes(target) == Some(s.procs[p].content)
            && s'.fs.Durable(target, s.procs[p].content)
    decreases |more|
  {
    var start, sync := Start(target, fs), acts + [WriterStep(p, SyncParent(true))];
    var all := sync + more;
    RunKeepsInv(target, fs, all);
    TargetIsFixed(start, all);
    if more == [] {
      assert all[..|all| - 1] == acts && all[|all| - 1] == WriterStep(p, SyncParent(true));
      RunKeepsInv(target, fs, acts);
      var s := Exec(start, acts).value;
      assert ProcOk(s, p) && VersionOk(s, s.fs.dir);
      TargetIsFixed(start, acts);
    } else {
      var front, a := more[..|more| - 1], more[|more| - 1];
      assert all[..|all| - 1] == sync + front && all[|all| - 1] == a;
      SuccessfulWriteSurvives(target, fs, acts, p, front);
      RunKeepsInv(target, fs, sync + front);
      TargetIsFixed(start, sync + front);
      var s := Exec(start, acts).value;
      DurableUntilRename(Exec(start, sync + front).value, a, s.procs[p].content);
      var s' := Exec(start, all).value;
      assert s'.fs.dir in s'.fs.versions;
    }
  }

  lemma OkComesFromSync(s: Sys, a: Action, p: nat)
    requires Enabled(s, a) && p < |Do(s, a).procs| && HasReturnedOk(Do(s, a), p)
    ensures a == WriterStep(p, SyncParent(true)) || HasReturnedOk(s, p)
    ensures p < |s.procs| && s.procs[p].Writer? && s.procs[p].content == Do(s, a).procs[p].content
  {
  }

  /** Writer `p` is about to hand back Ok, still under its lock. */
  predicate HasReturnedOk(s: Sys, p: nat) {
    p < |s.procs| && s.procs[p].Writer? && s.procs[p].wpc.WReturning? && s.procs[p].wpc.result.Ok?
  }

  /** A write returns Ok only with its bytes in place and durable, to survive everything until a later rename. */
  lemma {:induction false} OkMeansDurable(target: Name, fs: Fs, acts: seq<Action>, p: nat)
    requires AtRest(fs) && Exec(Start(target, fs), acts).Some? && HasReturnedOk(Exec(Start(target, fs), acts).value, p)
    ensures var s := Exec(Start(target, fs), acts).value;
            s.fs.Durable(target, s.procs[p].content) && s.fs.Bytes(target) == Some(s.procs[p].content)
    decreases |acts|
  {
    var start, front, a := Start(target, fs), acts[..|acts| - 1], acts[|acts| - 1];
    var s := Exec(start, front).value;
    OkComesFromSync(s, a, p);
    RunKeepsInv(target, fs, front);
    RunKeepsInv(target, fs, acts);
    TargetIsFixed(start, front);
    TargetIsFixed(start, acts);
    assert acts == front + [a];
    if a == WriterStep(p, SyncParent(true)) {
      assert acts + [] == acts;
      SuccessfulWriteSurvives(target, fs, front, p, []);
    } else {
      OkMeansDurable(target, fs, front, p);
      assert !Renames(a);
      DurableUntilRename(s, a, s.procs[p].content);
      var s' := Exec(start, acts).value;
      assert s'.fs.dir in s'.fs.versions;
    }
  }
}
