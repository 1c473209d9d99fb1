/** Transactional vault storage: the file system it runs on and the single-writer method. */
module Storage {
  import opened Common

  type Name = string

  /** `synced` says that the current bytes survive a loss of power. */
  datatype Inode = Inode(data: bytes, synced: bool)

  type Dir = map<Name, nat>

  /**
   The directory of one vault. `versions` holds every state of the directory since it was last
   synced: after a loss of power each name may be found as in any of them.
  */
  datatype Fs = Fs(inodes: seq<Inode>, dir: Dir, versions: set<Dir>) {

    ghost predicate Valid() {
      && dir in versions
      && (forall d, n :: d in versions && n in d ==> d[n] < |inodes|)
    }

    function Bytes(n: Name): Option<bytes> {
      if n in dir && dir[n] < |inodes| then Some(inodes[dir[n]].data) else None
    }

    function WithDir(d: Dir): Fs { this.(dir := d, versions := versions + {d}) }

    /** `create_new`: the caller has seen that the name is free. */
    function Create(n: Name): Fs
    {
      Fs(inodes + [Inode([], false)], dir[n := |inodes|], versions + {dir[n := |inodes|]})
    }

    function Append(ino: nat, more: bytes): Fs
      requires ino < |inodes|
    {
      this.(inodes := inodes[ino := Inode(inodes[ino].data + more, false)])
    }

    function SyncFile(ino: nat): Fs
      requires ino < |inodes|
    {
      this.(inodes := inodes[ino := inodes[ino].(synced := true)])
    }

    function Rename(from: Name, to: Name): Fs
      requires from in dir
    {
      WithDir((dir - {from})[to := dir[from]])
    }

    function Remove(n: Name): Fs { WithDir(dir - {n}) }

    function SyncDir(): Fs { this.(versions := {dir}) }

    /** Every state the directory may be found in holds exactly these bytes under `n`, on disk. */
    ghost predicate Durable(n: Name, data: bytes) {
      forall d :: d in versions ==> n in d && d[n] < |inodes| && inodes[d[n]] == Inode(data, true)
    }
  }

  /** The step of a write that failed. */
  datatype Stage = CreateTempFile | WriteAll | SyncTempFile | RenameTemp | SyncParentDir | RemoveFile

  datatype StorageError = InvalidPath | Refused | Io(stage: Stage)

  // Names derived from the vault's file name.

  function LockName(base: Name): Name { base + ".lock" }

  function TempName(base: Name, suffix: string): Name { "." + base + ".tmp." + suffix }

  /** The sidecar, the temporary file and the vault never share a name; distinct suffixes never collide. */
  lemma DerivedNamesDiffer(base: Name, suffix: string, suffix': string)
    requires |suffix| == 36 && |suffix'| == 36
    ensures LockName(base) != base && TempName(base, suffix) != base && TempName(base, suffix) != LockName(base)
    ensures TempName(base, suffix) == TempName(base, suffix') ==> suffix == suffix'
    ensures LockName("main.vlt") == "main.vlt.lock" && TempName("main.vlt", "0") == ".main.vlt.tmp.0"
  {
    assert TempName(base, suffix)[|base| + 6..] == suffix;
    assert TempName(base, suffix')[|base| + 6..] == suffix';
  }

  /** The temporary file complete and on disk, the vault untouched. */
  function Prepared(fs: Fs, temp: Name, content: bytes): Fs {
    fs.Create(temp).Append(|fs.inodes|, content).SyncFile(|fs.inodes|)
  }

  lemma PreparedKeepsOthers(fs: Fs, temp: Name, content: bytes)
    requires fs.Valid() && temp !in fs.dir
    ensures var p := Prepared(fs, temp, content);
            && p.Valid() && temp in p.dir
            && p.inodes == fs.inodes + [Inode(content, true)] && p.dir == fs.dir[temp := |fs.inodes|]
            && (forall n :: n != temp ==> p.Bytes(n) == fs.Bytes(n))
  {
    assert [] + content == content;
  }

  lemma RenameReplaces(fs: Fs, temp: Name, path: Name, content: bytes)
    requires fs.Valid() && temp !in fs.dir && temp != path
    ensures var done := Prepared(fs, temp, content).Rename(temp, path);
            && done.Valid() && temp !in done.dir && done.SyncDir().Valid()
            && done.Bytes(path) == Some(content) && done.SyncDir().Durable(path, content)
            && (forall n :: n != path && n != temp ==> done.Bytes(n) == fs.Bytes(n))
  {
    PreparedKeepsOthers(fs, temp, content);
  }

  /** The first step of a write that fails, if any does. */
  function FirstFailure(failing: set<Stage>): Option<Stage> {
    if CreateTempFile in failing then Some(CreateTempFile)
    else if WriteAll in failing then Some(WriteAll)
    else if SyncTempFile in failing then Some(SyncTempFile)
    else if RenameTemp in failing then Some(RenameTemp)
    else if SyncParentDir in failing then Some(SyncParentDir)
    else None
  }

  /** The backend of one vault directory; `failing` holds the steps that fail. */
  class StorageBackend {
    var fs: Fs
    const failing: set<Stage>

    constructor (fs: Fs, failing: set<Stage>)
      ensures this.fs == fs && this.failing == failing
    {
      this.fs := fs;
      this.failing := failing;
    }

    /** A failing `write_all` may leave any prefix of the bytes in the temporary file. */
    method WriteThroughTemp(path: Name, temp: Name, content: bytes, torn: nat) returns (r: Result<(), StorageError>)
      requires fs.Valid() && temp !in fs.dir && temp != path && torn <= |content|
      modifies this
      ensures fs.Valid()
      ensures r == match FirstFailure(failing) case None => Ok(()) case Some(stage) => Err(Io(stage))
      ensures r.Ok? ==> fs.Durable(path, content)
      ensures r.Ok? || r == Err(Io(SyncParentDir)) ==> fs.Bytes(path) == Some(content) && temp !in fs.dir
      ensures r.Err? && r.error != Io(SyncParentDir) ==> fs.Bytes(path) == old(fs).Bytes(path)
      ensures forall n :: n != path && n != temp ==> fs.Bytes(n) == old(fs).Bytes(n)
    {
      PreparedKeepsOthers(fs, temp, content);
      RenameReplaces(fs, temp, path, content);

      if CreateTempFile in failing { return Err(Io(CreateTempFile)); }
      var ino := |fs.inodes|;
      fs := fs.Create(temp);

      if WriteAll in failing {
        fs := fs.Append(ino, content[..torn]);
        return Err(Io(WriteAll));
      }
      fs := fs.Append(ino, content);

      if SyncTempFile in failing { return Err(Io(SyncTempFile)); }
      fs := fs.SyncFile(ino);

      if RenameTemp in failing { return Err(Io(RenameTemp)); }
      fs := fs.Rename(temp, path);

      if SyncParentDir in failing { return Err(Io(SyncParentDir)); }
      fs := fs.SyncDir();
      return Ok(());
    }

    /**
     Write the vault through a temporary file; the caller holds the exclusive lock.
     A failure up to the rename leaves the old bytes, a failed directory sync the new ones.
    */
    method WriteVaultAtomicWithBackend(path: Name, temp: Name, content: bytes, torn: nat)
      returns (r: Result<(), StorageError>)
      requires fs.Valid() && temp !in fs.dir && temp != path && torn <= |content|
      modifies this
      ensures fs.Valid()
      ensures r == match FirstFailure(failing) case None => Ok(()) case Some(stage) => Err(Io(stage))
      ensures fs.Bytes(path) == if r.Ok? || r == Err(Io(SyncParentDir)) then Some(content) else old(fs).Bytes(path)
      ensures r.Ok? ==> fs.Durable(path, content)
      ensures r.Ok? || RemoveFile !in failing ==> temp !in fs.dir
      ensures forall n :: n != path && n != temp ==> fs.Bytes(n) == old(fs).Bytes(n)
    {
      r := WriteThroughTemp(path, temp, content, torn);
      if r.Err? {
        if RemoveFile !in failing { fs := fs.Remove(temp); }
      }
    }
  }
}
