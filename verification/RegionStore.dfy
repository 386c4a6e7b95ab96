// The bounded store (-M): a length-prefixed blob in a region of fixed size.

module RegionStore {
  import opened Bytes
  import opened Databases
  import opened Codecs
  import RwLocks

  /** `size_of::<u64>()` */
  const LEN_SIZE := 8

  // ----- The length prefix is little-endian (`to_ne_bytes`) -----

  lemma {:induction false} ZeroLength(s: seq<byte>)
    requires forall i :: 0 <= i < |s| ==> s[i] == 0
    ensures FromBytes(s) == 0
  {
    if s != [] { ZeroLength(s[1..]); }
  }

  // ----- What the region holds -----

  /** None when the bytes do not decode. */
  function Load(c: Codec, mem: seq<byte>, offset: nat): Option<Database> {
    var dataOffset := offset + LEN_SIZE;
    if |mem| < dataOffset then Some(EMPTY_DATABASE)
    else
      var blobLen := FromBytes(mem[offset..dataOffset]);
      if blobLen == 0 || |mem| - dataOffset < blobLen || blobLen < 8 then Some(EMPTY_DATABASE)
      else c.dec(mem[dataOffset..dataOffset + blobLen])
  }

  predicate Fits(c: Codec, size: nat, offset: nat, d: Database) {
    offset + LEN_SIZE + |c.enc(d)| <= size
  }

  /** The region holds the length and the whole of the blob, from the offset on. */
  ghost predicate HoldsBlob(c: Codec, mem: seq<byte>, offset: nat, d: Database) {
    exists before: seq<byte>, after: seq<byte> ::
      |before| == offset && mem == before + ToBytes(|c.enc(d)|, 8) + c.enc(d) + after
  }

  /** Some region of this size does. */
  ghost predicate HasRoom(c: Codec, size: nat, offset: nat, d: Database) {
    exists mem: seq<byte> :: |mem| == size && HoldsBlob(c, mem, offset, d)
  }

  /** The bounds test of the code refuses a blob exactly when no region of this size could hold it. */
  lemma FitsIff(c: Codec, size: nat, offset: nat, d: Database)
    ensures Fits(c, size, offset, d) <==> HasRoom(c, size, offset, d)
  {
    if Fits(c, size, offset, d) {
      var before, len := Zeros(offset), ToBytes(|c.enc(d)|, LEN_SIZE);
      var after := Zeros(size - (offset + LEN_SIZE + |c.enc(d)|));
      var mem := before + len + c.enc(d) + after;
      assert |mem| == size && HoldsBlob(c, mem, offset, d);
    }
  }

  /** The bounds test of `open`. */
  predicate Openable(size: nat, offset: nat) {
    offset + LEN_SIZE + LEN_SIZE <= size
  }

  /** A region is opened exactly when it has room for the smallest blob that reads back, one of 8 bytes. */
  lemma OpenableIff(c: Codec, size: nat, offset: nat, d: Database)
    requires |c.enc(d)| == 8
    ensures Openable(size, offset) <==> HasRoom(c, size, offset, d)
  {
    FitsIff(c, size, offset, d);
  }

  function Store(c: Codec, mem: seq<byte>, offset: nat, d: Database): seq<byte>
    requires Fits(c, |mem|, offset, d)
  {
    var blob := c.enc(d);
    mem[..offset] + ToBytes(|blob|, LEN_SIZE) + blob + mem[offset + LEN_SIZE + |blob|..]
  }

  lemma StoreThenLoad(c: Codec, mem: seq<byte>, offset: nat, d: Database)
    requires Faithful(c) && |mem| < U64_LIMIT && Fits(c, |mem|, offset, d)
    ensures Load(c, Store(c, mem, offset, d), offset) == Some(d)
    ensures |Store(c, mem, offset, d)| == |mem| && HoldsBlob(c, Store(c, mem, offset, d), offset, d)
  {
    var after, blob := Store(c, mem, offset, d), c.enc(d);
    assert c.dec(blob) == Some(d) && |blob| >= 8;
    assert after[offset..offset + LEN_SIZE] == ToBytes(|blob|, LEN_SIZE);
    assert after[offset + LEN_SIZE..offset + LEN_SIZE + |blob|] == blob;
    Power8();
    LengthRoundTrip(|blob|, LEN_SIZE);
  }

  lemma ZeroedRegionIsEmpty(c: Codec, mem: seq<byte>, offset: nat)
    requires forall i :: 0 <= i < |mem| ==> mem[i] == 0
    ensures Load(c, mem, offset) == Some(EMPTY_DATABASE)
  {
    if offset + LEN_SIZE <= |mem| { ZeroLength(mem[offset..offset + LEN_SIZE]); }
  }

  // ----- Runs of with_write -----

  datatype Update = Update(apply: Database -> Database)

  /** The region after one with_write: unchanged when the new blob does not fit. */
  function WriteOne(c: Codec, mem: seq<byte>, offset: nat, u: Update): seq<byte> {
    match Load(c, mem, offset)
    case None => mem
    case Some(d) => if Fits(c, |mem|, offset, u.apply(d)) then Store(c, mem, offset, u.apply(d)) else mem
  }

  function WriteMany(c: Codec, mem: seq<byte>, offset: nat, updates: seq<Update>): seq<byte> {
    if updates == [] then mem
    else WriteOne(c, WriteMany(c, mem, offset, updates[..|updates| - 1]), offset, updates[|updates| - 1])
  }

  /** The updates that took effect, in order: exactly those whose result some region of this size can hold. */
  ghost function FoldFitting(c: Codec, size: nat, offset: nat, d: Database, updates: seq<Update>): Database {
    if updates == [] then d
    else
      var before := FoldFitting(c, size, offset, d, updates[..|updates| - 1]);
      var after := updates[|updates| - 1].apply(before);
      if HasRoom(c, size, offset, after) then after else before
  }

  /** Any run of writes leaves the fold of the successful ones, and never moves a byte below. */
  lemma {:induction false} RunIsFold(c: Codec, mem: seq<byte>, offset: nat, updates: seq<Update>)
    requires Faithful(c) && |mem| < U64_LIMIT && offset <= |mem| && Load(c, mem, offset).Some?
    ensures var after := WriteMany(c, mem, offset, updates);
            && |after| == |mem| && after[..offset] == mem[..offset]
            && Load(c, after, offset) == Some(FoldFitting(c, |mem|, offset, Load(c, mem, offset).value, updates))
  {
    if updates != [] {
      var most, last := updates[..|updates| - 1], updates[|updates| - 1];
      RunIsFold(c, mem, offset, most);
      var before := WriteMany(c, mem, offset, most);
      var d := last.apply(Load(c, before, offset).value);
      FitsIff(c, |mem|, offset, d);
      if Fits(c, |mem|, offset, d) { StoreThenLoad(c, before, offset, d); }
    }
  }

  // ----- The code -----

  class MmapBackend {
    const mem: array<byte>
    const lock: RwLocks.RwLock
    const lenOffset: nat

    ghost predicate Valid() {
      Openable(mem.Length, lenOffset) && mem.Length < U64_LIMIT
    }

    constructor (mem: array<byte>, lock: RwLocks.RwLock, lenOffset: nat)
      requires Openable(mem.Length, lenOffset) && mem.Length < U64_LIMIT
      ensures Valid() && this.mem == mem && this.lock == lock && this.lenOffset == lenOffset
    {
      this.mem, this.lock, this.lenOffset := mem, lock, lenOffset;
    }

    /** A region without room for the length and 8 bytes more is refused. */
    static method Open(mem: array<byte>, lock: RwLocks.RwLock, lenOffset: nat) returns (r: Option<MmapBackend>)
      requires mem.Length < U64_LIMIT
      ensures r.Some? <==> Openable(mem.Length, lenOffset)
      ensures r.Some? ==>
                r.value.Valid() && r.value.mem == mem && r.value.lock == lock && r.value.lenOffset == lenOffset
    {
      if mem.Length < lenOffset + LEN_SIZE + LEN_SIZE { return None; }
      var backend := new MmapBackend(mem, lock, lenOffset);
      r := Some(backend);
    }

    method ReadBlob(c: Codec) returns (r: Option<Database>)
      requires Valid()
      ensures r == Load(c, mem[..], lenOffset)
    {
      var dataOffset := lenOffset + LEN_SIZE;
      var avail := mem.Length - dataOffset;
      assert mem[..][lenOffset..dataOffset] == mem[lenOffset..dataOffset];
      var blobLen := FromBytes(mem[lenOffset..dataOffset]);
      if blobLen == 0 || avail < blobLen { return Some(EMPTY_DATABASE); }
      var blob := mem[dataOffset..dataOffset + blobLen];
      assert blob == mem[..][dataOffset..dataOffset + blobLen];
      if |blob| < 8 { return Some(EMPTY_DATABASE); }
      r := c.dec(blob);
    }

    /** `copy_from_slice` into the region. */
    method CopyIn(at: nat, s: seq<byte>)
      requires at + |s| <= mem.Length
      modifies mem
      ensures mem[..] == old(mem[..at]) + s + old(mem[at + |s|..])
    {
      var i := 0;
      while i < |s|
        invariant i <= |s|
        invariant forall k :: 0 <= k < mem.Length ==> mem[k] == if at <= k < at + i then s[k - at] else old(mem[k])
      {
        mem[at + i] := s[i];
        i := i + 1;
      }
    }

    /** False is `OutOfMemory`: then no byte has changed. */
    method WriteBlob(c: Codec, d: Database) returns (ok: bool)
      requires Valid()
      modifies mem
      ensures ok <==> HasRoom(c, mem.Length, lenOffset, d)
      ensures ok <==> Fits(c, mem.Length, lenOffset, d)
      ensures mem[..] == if ok then Store(c, old(mem[..]), lenOffset, d) else old(mem[..])
    {
      FitsIff(c, mem.Length, lenOffset, d);
      var bytes := c.enc(d);
      var dataOffset := lenOffset + LEN_SIZE;
      var end := dataOffset + |bytes|;
      if end > mem.Length { return false; }
      CopyIn(lenOffset, ToBytes(|bytes|, LEN_SIZE));
      ghost var mid := mem[..];
      CopyIn(dataOffset, bytes);
      assert mid[..dataOffset] == old(mem[..lenOffset]) + ToBytes(|bytes|, LEN_SIZE);
      assert mid[end..] == old(mem[..])[end..];
      return true;
    }

    method Read(c: Codec) returns (r: Option<Database>)
      requires Valid() && !lock.word.writer
      modifies lock
      ensures r == Load(c, mem[..], lenOffset) && lock.word == old(lock.word)
    {
      lock.ReadLock();
      r := ReadBlob(c);
      lock.Unlock();
    }

    method WithWrite(c: Codec, u: Update) returns (ok: bool)
      requires Valid() && lock.word == RwLocks.RwWord(0, false)
      modifies lock, mem
      ensures lock.word == old(lock.word)
      ensures mem[..] == WriteOne(c, old(mem[..]), lenOffset, u)
      ensures ok <==> (Load(c, old(mem[..]), lenOffset).Some?
                       && HasRoom(c, mem.Length, lenOffset, u.apply(Load(c, old(mem[..]), lenOffset).value)))
    {
      lock.WriteLock();
      var repr := ReadBlob(c);
      ok := repr.Some?;
      if ok {
        ok := WriteBlob(c, u.apply(repr.value));
      }
      lock.Unlock();
    }
  }
}
