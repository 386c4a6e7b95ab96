// The sequential code of the file-backed store: blob reads and writes on one file, header
// stamping, and a flock handle that reopens after a fork. Each method is tied to the functions
// that the concurrent machines of Sections and FlockStore use as steps.

module FileStore {
  import opened Bytes
  import opened Databases
  import opened Codecs
  import opened Sections
  import opened FlockStore
  import RwLocks

  /** A header that does not match is replaced by an empty, stamped store. */
  function Stamped(file: seq<byte>): seq<byte> {
    if ClassifyMagic(file) == HeaderOk then file else MAGIC
  }

  lemma SlicesJoin(buf: seq<byte>, done: nat, n: nat)
    requires done + n <= |buf|
    ensures buf[..done] + buf[done..done + n] == buf[..done + n]
  {
  }

  lemma NextChunk(file: seq<byte>, offset: nat, buf: seq<byte>, done: nat, n: nat)
    requires done + n <= |buf|
    ensures WriteAt(WriteAt(file, offset, buf[..done]), offset + done, buf[done..done + n])
            == WriteAt(file, offset, buf[..done + n])
  {
    var a, b := buf[..done], buf[done..done + n];
    SlicesJoin(buf, done, n);
    WriteAtTwice(file, offset, a, b);
  }

  /** The file a path names. */
  class Inode {
    var data: seq<byte>

    constructor (data: seq<byte>)
      ensures this.data == data
    {
      this.data := data;
    }

    method Truncate(n: nat)
      modifies this
      ensures data == SetLen(old(data), n)
    {
      data := SetLen(data, n);
    }

    /** `write_all_at`: pwrite until everything is out, however little each call writes. */
    method WriteAllAt(buf: seq<byte>, offset: nat)
      modifies this
      ensures data == WriteAt(old(data), offset, buf)
    {
      var done := 0;
      while done < |buf|
        invariant done <= |buf|
        invariant data == WriteAt(old(data), offset, buf[..done])
      {
        var n: nat :| 0 < n <= |buf| - done;
        NextChunk(old(data), offset, buf, done, n);
        data := WriteAt(data, offset + done, buf[done..done + n]);
        done := done + n;
      }
      assert buf[..done] == buf;
    }

    method ReadExactAt(offset: nat, n: nat) returns (r: Option<seq<byte>>)
      ensures r == if offset + n <= |data| then Some(data[offset..offset + n]) else None
    {
      r := if offset + n <= |data| then Some(data[offset..offset + n]) else None;
    }

    /** The outer None is an I/O error, the inner one a file without a blob. */
    method ReadBlobAt(offset: nat) returns (r: Option<Option<seq<byte>>>)
      ensures r == Some(if |data| < offset + 8 then None else Some(data[offset..]))
    {
      var len := |data|;
      if len <= offset { return Some(None); }
      var buf := ReadExactAt(offset, len - offset);
      if buf == None { return None; }
      assert buf.value == data[offset..];
      if |buf.value| < 8 { return Some(None); }
      return Some(buf);
    }

    method ReadBlobInto(c: Codec, offset: nat) returns (r: Option<Database>)
      ensures r == LoadBlob(c, data, offset)
    {
      var blob := ReadBlobAt(offset);
      if blob.value == None { return Some(EMPTY_DATABASE); }
      r := c.dec(blob.value.value);
    }

    method WriteBlobAt(c: Codec, d: Database, offset: nat)
      modifies this
      ensures data == StoreBlob(c, old(data), offset, d)
    {
      var bytes := c.enc(d);
      Truncate(offset + |bytes|);
      WriteAllAt(bytes, offset);
    }

    method InitMagicAndTruncate()
      modifies this
      ensures data == MAGIC
    {
      WriteAllAt(MAGIC, 0);
      Truncate(MAGIC_SIZE);
    }

    method InitOrCheckMagic()
      modifies this
      ensures data == Stamped(old(data))
    {
      var header := ReadExactAt(0, MAGIC_SIZE);
      if header == Some(MAGIC) { return; }
      InitMagicAndTruncate();
    }
  }

  /** What is done through an open file. */
  datatype Access = Took(mode: Mode) | ReadBlob | WroteBlob | Released

  /** An open file description with the lock it holds; `accesses` records the order of its use. */
  class OpenFile {
    const inode: Inode
    const opener: Pid
    var mode: Mode
    ghost var accesses: seq<Access>

    constructor (inode: Inode, opener: Pid)
      ensures this.inode == inode && this.opener == opener && mode == Unlocked && accesses == []
    {
      this.inode, this.opener, this.mode, this.accesses := inode, opener, Unlocked, [];
    }

    method Flock(mode: Mode)
      modifies this
      ensures this.mode == mode && accesses == old(accesses) + [Took(mode)]
    {
      this.mode := mode;
      accesses := accesses + [Took(mode)];
    }

    method Unlock()
      modifies this
      ensures mode == Unlocked && accesses == old(accesses) + [Released]
    {
      mode := Unlocked;
      accesses := accesses + [Released];
    }

    method ReadBlobInto(c: Codec, offset: nat) returns (r: Option<Database>)
      modifies this`accesses
      ensures r == LoadBlob(c, inode.data, offset) && accesses == old(accesses) + [ReadBlob]
    {
      r := inode.ReadBlobInto(c, offset);
      accesses := accesses + [ReadBlob];
    }

    method WriteBlobAt(c: Codec, d: Database, offset: nat)
      modifies this`accesses, inode
      ensures inode.data == StoreBlob(c, old(inode.data), offset, d) && accesses == old(accesses) + [WroteBlob]
    {
      inode.WriteBlobAt(c, d, offset);
      accesses := accesses + [WroteBlob];
    }
  }

  /** One process's handle on the store, with the PID recorded when its file was opened. */
  class FlockBackend {
    const path: Inode
    var file: OpenFile
    var pid: Pid

    ghost predicate Valid()
      reads this, file
    {
      file.inode == path && file.opener == pid && file.mode == Unlocked
    }

    /** The file as the next operation of process `current` finds it. */
    ghost function Seen(current: Pid): seq<byte>
      reads this, path
    {
      if pid == current then path.data else Stamped(path.data)
    }

    constructor Open(path: Inode, current: Pid)
      modifies path
      ensures Valid() && fresh(file) && this.path == path && pid == current
      ensures path.data == Stamped(old(path.data))
    {
      this.path, this.pid := path, current;
      this.file := new OpenFile(path, current);
      new;
      path.InitOrCheckMagic();
    }

    method Refresh(current: Pid)
      requires Valid()
      modifies this, path
      ensures Valid() && pid == current && path.data == old(Seen(current))
      ensures if old(pid) == current then file == old(file) else fresh(file) && file.accesses == []
      ensures old(pid) == current ==> file.accesses == old(file.accesses)
    {
      if pid != current {
        var reopened := new OpenFile(path, current);
        path.InitOrCheckMagic();
        file := reopened;
        pid := current;
      }
    }

    /** What the current file has seen when an operation of `current` begins. */
    ghost function Before(current: Pid): seq<Access>
      reads this, file
    {
      if pid == current then file.accesses else []
    }

    method Read(c: Codec, current: Pid) returns (r: Option<Database>)
      requires Valid()
      modifies this, path, file
      ensures Valid() && pid == current && path.data == old(Seen(current))
      ensures file == old(file) || fresh(file)
      ensures r == LoadBlob(c, old(Seen(current)), MAGIC_SIZE)
      ensures file.accesses == old(Before(current)) + [Took(LockSh), ReadBlob, Released]
    {
      Refresh(current);
      file.Flock(LockSh);
      r := file.ReadBlobInto(c, MAGIC_SIZE);
      file.Unlock();
    }

    /** None reports an error; the file is then as `refresh` left it. */
    method WithWrite(c: Codec, current: Pid, update: Database -> Database) returns (ok: bool)
      requires Valid()
      modifies this, path, file
      ensures Valid() && pid == current
      ensures file == old(file) || fresh(file)
      ensures match LoadBlob(c, old(Seen(current)), MAGIC_SIZE)
              case Some(d) => ok && path.data == StoreBlob(c, old(Seen(current)), MAGIC_SIZE, update(d))
              case None => !ok && path.data == old(Seen(current))
      ensures file.accesses == old(Before(current)) + [Took(LockEx), ReadBlob]
                               + (if ok then [WroteBlob] else []) + [Released]
    {
      Refresh(current);
      file.Flock(LockEx);
      var repr := file.ReadBlobInto(c, MAGIC_SIZE);
      ok := repr.Some?;
      if ok {
        file.WriteBlobAt(c, update(repr.value), MAGIC_SIZE);
      }
      file.Unlock();
    }
  }

  /** The memfd store: the file starts with the mapped lock, and the blob follows it. */
  class MemfdBackend {
    const inode: Inode
    const lock: RwLocks.RwLock
    const blobOffset: nat

    constructor (inode: Inode, lock: RwLocks.RwLock, blobOffset: nat)
      ensures this.inode == inode && this.lock == lock && this.blobOffset == blobOffset
    {
      this.inode, this.lock, this.blobOffset := inode, lock, blobOffset;
    }

    method Read(c: Codec) returns (r: Option<Database>)
      requires !lock.word.writer
      modifies lock
      ensures r == LoadBlob(c, inode.data, blobOffset) && lock.word == old(lock.word)
    {
      lock.ReadLock();
      r := inode.ReadBlobInto(c, blobOffset);
      lock.Unlock();
    }

    method WithWrite(c: Codec, update: Database -> Database) returns (ok: bool)
      requires lock.word == RwLocks.RwWord(0, false)
      modifies lock, inode
      ensures lock.word == old(lock.word)
      ensures match LoadBlob(c, old(inode.data), blobOffset)
              case Some(d) => ok && inode.data == StoreBlob(c, old(inode.data), blobOffset, update(d))
              case None => !ok && inode.data == old(inode.data)
    {
      lock.WriteLock();
      var repr := inode.ReadBlobInto(c, blobOffset);
      ok := repr.Some?;
      if ok {
        inode.WriteBlobAt(c, update(repr.value), blobOffset);
      }
      lock.Unlock();
    }
  }

  /**
   * A write that found the store readable leaves a stamped file from which any process, reopening
   * or not, reads back exactly the updated database.
   */
  lemma WrittenStoreReadsBack(c: Codec, file: seq<byte>, update: Database -> Database)
    requires Faithful(c) && MAGIC <= file && LoadBlob(c, file, MAGIC_SIZE).Some?
    ensures var after := StoreBlob(c, file, MAGIC_SIZE, update(LoadBlob(c, file, MAGIC_SIZE).value));
            && MAGIC <= after && Stamped(after) == after
            && LoadBlob(c, Stamped(after), MAGIC_SIZE) == Some(update(LoadBlob(c, file, MAGIC_SIZE).value))
  {
    var d := update(LoadBlob(c, file, MAGIC_SIZE).value);
    StoreThenLoad(c, file, MAGIC_SIZE, d);
    var after := StoreBlob(c, file, MAGIC_SIZE, d);
    assert after[..MAGIC_SIZE] == file[..MAGIC_SIZE] == MAGIC;
  }

  /**
   * Opening a store: a file that starts with the magic is taken as it is, and reads as empty until it
   * holds a length's worth of bytes more. Any other file, empty or foreign, becomes a store without a
   * single one of its bytes, which reads as empty. Opening again changes nothing.
   */
  lemma OpenedStoreReads(c: Codec, file: seq<byte>)
    ensures MAGIC <= file ==> Stamped(file) == file
    ensures MAGIC <= file && |file| < |MAGIC| + 8 ==> LoadBlob(c, Stamped(file), |MAGIC|) == Some(map[])
    ensures !(MAGIC <= file) ==>
              && Stamped(file) == MAGIC && LoadBlob(c, Stamped(file), |MAGIC|) == Some(map[])
              && Stamped(file) == SetLen(WriteAt(file, 0, MAGIC), MAGIC_SIZE)
    ensures Stamped(Stamped(file)) == Stamped(file)
  {
    assert MAGIC[..MAGIC_SIZE] == MAGIC;
    assert |file| >= MAGIC_SIZE ==> (MAGIC <= file <==> file[..MAGIC_SIZE] == MAGIC);
    assert SetLen(WriteAt(file, 0, MAGIC), MAGIC_SIZE) == MAGIC;
  }

  /** The two steps of the machine that stamp a file do the same. */
  lemma StampingIsStamped(c: Codec, s: State, t: State, u: State, p: Pid)
    requires NextStep(c, s, t, p, StampMagic) && NextStep(c, t, u, p, Truncate)
    ensures u.shared.file == Stamped(s.shared.file) == MAGIC
  {
    assert SetLen(WriteAt(s.shared.file, 0, MAGIC), MAGIC_SIZE) == MAGIC;
  }
}
