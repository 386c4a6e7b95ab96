// What happens inside the lock of the bounded store (-M), interleaved like Sections: the length and
// the blob are read one after the other, and written in chunks of any size. The region never grows;
// a write whose result does not fit leaves it alone and fails.

module RegionSections {
  import opened Bytes
  import opened Databases
  import opened Codecs
  import opened Sections
  import opened RegionStore

  /** What is written: the length, then the blob. */
  function Image(c: Codec, d: Database): seq<byte> {
    ToBytes(|c.enc(d)|, LEN_SIZE) + c.enc(d)
  }

  /** The database in the region, given the length that was read before. */
  function ReadRegion(c: Codec, mem: seq<byte>, offset: nat, len: nat): Phase {
    var start := offset + LEN_SIZE;
    if len == 0 || |mem| < start + len || len < 8 then Loaded(EMPTY_DATABASE)
    else match c.dec(mem[start..start + len])
      case Some(d) => Loaded(d)
      case None => Failed
  }

  ghost predicate Inner(c: Codec, offset: nat, s: Shared, t: Shared, p: Pid, m: Move) {
    && p in s.inside && offset + LEN_SIZE <= |s.file|
    && var a := s.inside[p];
       match m
       case Stat =>
         && a.phase.Entered?
         && t == s.(inside := s.inside[p := a.(phase := Sized(FromBytes(s.file[offset..offset + LEN_SIZE])))])
       case Load =>
         && a.phase.Sized?
         && t == s.(inside := s.inside[p := a.(phase := ReadRegion(c, s.file, offset, a.phase.len))])
       case Resize =>
         && a.phase.Loaded? && a.op.WriteOp?
         && var target := a.op.update(a.phase.db);
            t == s.(inside := s.inside[p := a.(phase :=
              if Fits(c, |s.file|, offset, target) then Writing(target, 0) else Failed)])
       case WriteChunk(size) =>
         && a.phase.Writing? && 0 < size <= |Image(c, a.phase.target)| - a.phase.written
         && var k := a.phase.written;
            t == s.(file := WriteAt(s.file, offset + k, Image(c, a.phase.target)[k..k + size]),
                    inside := s.inside[p := a.(phase := a.phase.(written := k + size))])
  }

  ghost predicate Leave(c: Codec, s: Shared, t: Shared, p: Pid) {
    && p in s.inside
    && t.inside == s.inside - {p} && t.file == s.file
    && var a := s.inside[p];
       match a.phase
       case Loaded(d) => a.op.ReadOp? && t.history == s.history + [Returned(p, d)]
       case Writing(d, k) =>
         a.op.WriteOp? && k == |Image(c, d)| && t.history == s.history + [Committed(p, a.op.update)]
       case Failed => t.history == s.history
       case _ => false
  }

  // ----- The invariant -----

  ghost predicate PhaseOk(c: Codec, offset: nat, file: seq<byte>, now: Database, a: Active)
    requires offset + LEN_SIZE <= |file|
  {
    match a.phase
    case Entered => true
    case Sized(len) => len == FromBytes(file[offset..offset + LEN_SIZE])
    case Loaded(d) => d == now
    case Writing(d, k) =>
      && a.op.WriteOp? && d == a.op.update(now) && Fits(c, |file|, offset, d)
      && k <= |Image(c, d)| && file[offset..offset + k] == Image(c, d)[..k]
    case Failed => a.op.WriteOp? && !Fits(c, |file|, offset, a.op.update(now))
  }

  ghost predicate Inv(c: Codec, prefix: seq<byte>, initial: Database, s: Shared) {
    && var (offset, now) := (|prefix|, Replay(initial, s.history));
    && Legal(initial, s.history)
    && prefix <= s.file && offset + LEN_SIZE + 8 <= |s.file| < U64_LIMIT
    && Exclusive(s.inside)
    && (NobodyWriting(s) ==> RegionStore.Load(c, s.file, offset) == Some(now))
    && (forall p :: p in s.inside ==> PhaseOk(c, offset, s.file, now, s.inside[p]))
  }

  lemma EnterKeepsInv(c: Codec, prefix: seq<byte>, initial: Database, s: Shared, t: Shared, p: Pid, op: Op)
    requires Inv(c, prefix, initial, s) && Enter(s, t, p, op) && CanEnter(s.inside, op)
    ensures Inv(c, prefix, initial, t)
  {
    if NobodyWriting(t) {
      forall q | q in s.inside ensures !s.inside[q].phase.Writing? { assert t.inside[q] == s.inside[q]; }
    }
  }

  lemma ReadSucceeds(c: Codec, prefix: seq<byte>, initial: Database, s: Shared, p: Pid)
    requires Inv(c, prefix, initial, s) && p in s.inside && s.inside[p].phase.Sized?
    ensures NobodyWriting(s)
    ensures ReadRegion(c, s.file, |prefix|, s.inside[p].phase.len) == Loaded(Replay(initial, s.history))
  {
    assert PhaseOk(c, |prefix|, s.file, Replay(initial, s.history), s.inside[p]);
    forall q | q in s.inside ensures !s.inside[q].phase.Writing? {
      assert PhaseOk(c, |prefix|, s.file, Replay(initial, s.history), s.inside[q]);
    }
  }

  lemma ReadingKeepsInv(c: Codec, prefix: seq<byte>, initial: Database, s: Shared, t: Shared, p: Pid, m: Move)
    requires Inv(c, prefix, initial, s) && Inner(c, |prefix|, s, t, p, m) && !m.WriteChunk?
    ensures Inv(c, prefix, initial, t)
  {
    assert PhaseOk(c, |prefix|, s.file, Replay(initial, s.history), s.inside[p]);
    if m.Load? { ReadSucceeds(c, prefix, initial, s, p); }
    if m.Resize? { WriterIsAlone(s, p); }
    forall q | q in s.inside && q != p ensures t.inside[q] == s.inside[q] {}
    if NobodyWriting(t) {
      forall q | q in s.inside ensures !s.inside[q].phase.Writing? { assert q in t.inside; }
    }
  }

  /** A chunk extends the written part of the image, and moves nothing else. */
  lemma ChunkExtends(c: Codec, offset: nat, file: seq<byte>, d: Database, k: nat, size: nat)
    requires k + size <= |Image(c, d)| && Fits(c, |file|, offset, d)
    requires file[offset..offset + k] == Image(c, d)[..k]
    ensures var next := WriteAt(file, offset + k, Image(c, d)[k..k + size]);
            && |next| == |file| && next[..offset] == file[..offset]
            && next[offset..offset + k + size] == Image(c, d)[..k + size]
  {
    var next := WriteAt(file, offset + k, Image(c, d)[k..k + size]);
    forall i | 0 <= i < k + size ensures next[offset + i] == Image(c, d)[i] {
      if i < k { assert file[offset..offset + k][i] == Image(c, d)[..k][i]; }
    }
  }

  lemma ChunkStep(c: Codec, offset: nat, s: Shared, t: Shared, p: Pid, m: Move)
    requires Inner(c, offset, s, t, p, m) && m.WriteChunk?
    ensures var a := s.inside[p];
            && a.phase.Writing? && a.phase.written + m.size <= |Image(c, a.phase.target)|
            && t.file == WriteAt(s.file, offset + a.phase.written,
                                 Image(c, a.phase.target)[a.phase.written..a.phase.written + m.size])
            && t.inside == s.inside[p := a.(phase := Writing(a.phase.target, a.phase.written + m.size))]
            && t.history == s.history
  {
  }

  /** The writer's own facts after it has written a chunk. */
  lemma WriterGoesOn(c: Codec, prefix: seq<byte>, initial: Database, s: Shared, t: Shared, p: Pid, m: Move)
    requires Inv(c, prefix, initial, s) && Inner(c, |prefix|, s, t, p, m) && m.WriteChunk?
    ensures prefix <= t.file && |t.file| == |s.file| && t.inside[p].phase.Writing?
    ensures PhaseOk(c, |prefix|, t.file, Replay(initial, s.history), t.inside[p])
  {
    ChunkStep(c, |prefix|, s, t, p, m);
    assert PhaseOk(c, |prefix|, s.file, Replay(initial, s.history), s.inside[p]);
    ChunkWritten(c, |prefix|, s.file, Replay(initial, s.history), s.inside[p], m.size);
    assert s.file[..|prefix|] == prefix;
  }

  lemma ChunkWritten(c: Codec, offset: nat, file: seq<byte>, now: Database, a: Active, size: nat)
    requires offset + LEN_SIZE <= |file| && PhaseOk(c, offset, file, now, a) && a.phase.Writing?
    requires a.phase.written + size <= |Image(c, a.phase.target)|
    ensures var k := a.phase.written;
            var next := WriteAt(file, offset + k, Image(c, a.phase.target)[k..k + size]);
            && |next| == |file| && next[..offset] == file[..offset]
            && PhaseOk(c, offset, next, now, a.(phase := Writing(a.phase.target, k + size)))
  {
    ChunkExtends(c, offset, file, a.phase.target, a.phase.written, size);
  }

  lemma WritingKeepsInv(c: Codec, prefix: seq<byte>, initial: Database, s: Shared, t: Shared, p: Pid, m: Move)
    requires Inv(c, prefix, initial, s) && Inner(c, |prefix|, s, t, p, m) && m.WriteChunk?
    ensures Inv(c, prefix, initial, t)
  {
    assert PhaseOk(c, |prefix|, s.file, Replay(initial, s.history), s.inside[p]);
    WriterIsAlone(s, p);
    assert t.inside.Keys == {p};
    WriterGoesOn(c, prefix, initial, s, t, p, m);
  }

  lemma InnerKeepsInv(c: Codec, prefix: seq<byte>, initial: Database, s: Shared, t: Shared, p: Pid, m: Move)
    requires Inv(c, prefix, initial, s) && Inner(c, |prefix|, s, t, p, m)
    ensures Inv(c, prefix, initial, t)
  {
    if m.WriteChunk? {
      WritingKeepsInv(c, prefix, initial, s, t, p, m);
    } else {
      ReadingKeepsInv(c, prefix, initial, s, t, p, m);
    }
  }

  /** Once the whole image is in place, the region holds the database. */
  lemma ImageLoads(c: Codec, mem: seq<byte>, offset: nat, d: Database)
    requires Faithful(c) && |mem| < U64_LIMIT && Fits(c, |mem|, offset, d)
    requires mem[offset..offset + |Image(c, d)|] == Image(c, d)
    ensures RegionStore.Load(c, mem, offset) == Some(d)
  {
    var len, blob := ToBytes(|c.enc(d)|, LEN_SIZE), c.enc(d);
    var rest := mem[offset + LEN_SIZE + |blob|..];
    AroundPart(mem, offset, len + blob);
    Regroup(mem[..offset], len, blob, rest);
    assert RegionStore.Store(c, mem, offset, d) == mem[..offset] + len + blob + rest;
    RegionStore.StoreThenLoad(c, mem, offset, d);
  }

  /** The rest of the section when a writer, who was alone, has left. */
  lemma WriterLeaves(c: Codec, prefix: seq<byte>, initial: Database, s: Shared, t: Shared, p: Pid)
    requires Faithful(c)
    requires Inv(c, prefix, initial, s) && Leave(c, s, t, p) && s.inside[p].phase.Writing?
    ensures t.inside == map[] && Legal(initial, t.history)
    ensures t.history == s.history + [Committed(p, s.inside[p].op.update)]
    ensures RegionStore.Load(c, t.file, |prefix|) == Some(Replay(initial, t.history))
  {
    var a := s.inside[p];
    assert PhaseOk(c, |prefix|, s.file, Replay(initial, s.history), a);
    WriterIsAlone(s, p);
    LegalExtends(initial, s.history, t.history);
    ImageLoads(c, s.file, |prefix|, a.phase.target);
    assert t.inside.Keys == {};
  }

  /** When anyone else has left, nobody who stays has moved. */
  lemma OthersStay(c: Codec, s: Shared, t: Shared, p: Pid)
    requires Leave(c, s, t, p) && !s.inside[p].phase.Writing?
    ensures forall q :: q in t.inside ==> q in s.inside && t.inside[q] == s.inside[q]
    ensures Exclusive(s.inside) ==> Exclusive(t.inside)
    ensures NobodyWriting(t) ==> NobodyWriting(s)
  {
    if NobodyWriting(t) {
      forall q | q in s.inside ensures !s.inside[q].phase.Writing? { assert q == p || q in t.inside; }
    }
  }

  lemma LeaveKeepsInv(c: Codec, prefix: seq<byte>, initial: Database, s: Shared, t: Shared, p: Pid)
    requires Faithful(c)
    requires Inv(c, prefix, initial, s) && Leave(c, s, t, p)
    ensures Inv(c, prefix, initial, t)
    ensures match s.inside[p].op
            case ReadOp => t.history == s.history + [Returned(p, Replay(initial, s.history))]
            case WriteOp(f) =>
              if s.inside[p].phase.Failed? then t.history == s.history
              else t.history == s.history + [Committed(p, f)]
                   && Replay(initial, t.history) == f(Replay(initial, s.history))
  {
    assert PhaseOk(c, |prefix|, s.file, Replay(initial, s.history), s.inside[p]);
    if s.inside[p].phase.Writing? {
      WriterLeaves(c, prefix, initial, s, t, p);
    } else {
      LegalExtends(initial, s.history, t.history);
      OthersStay(c, s, t, p);
    }
  }

  lemma PrefixIsFree(c: Codec, prefix: seq<byte>, other: seq<byte>, initial: Database, s: Shared)
    requires Inv(c, prefix, initial, s) && |other| == |prefix|
    ensures Inv(c, other, initial, s.(file := other + s.file[|prefix|..]))
  {
    var n, file, now := |prefix|, other + s.file[|prefix|..], Replay(initial, s.history);
    assert |file| == |s.file| && forall i, j :: n <= i <= j <= |file| ==> file[i..j] == s.file[i..j];
    forall p | p in s.inside ensures PhaseOk(c, n, file, now, s.inside[p]) {
      assert PhaseOk(c, n, s.file, now, s.inside[p]);
    }
  }

  // ----- An operation comes to its end -----

  /** How far into its section a process is. */
  function Progress(c: Codec, a: Active): nat {
    match a.phase
    case Entered => 0
    case Sized(_) => 1
    case Loaded(_) => 2
    case Writing(d, k) => if k < |Image(c, d)| then 3 else 4
    case Failed => 4
  }

  /** What a process inside does next: None is to leave. */
  function NextMove(c: Codec, a: Active): Option<Move> {
    match a.phase
    case Entered => Some(Stat)
    case Sized(_) => Some(Load)
    case Loaded(_) => if a.op.WriteOp? then Some(Resize) else None
    case Writing(d, k) => if k < |Image(c, d)| then Some(WriteChunk(|Image(c, d)| - k)) else None
    case Failed => None
  }

  ghost predicate InnerSteps(c: Codec, offset: nat, trace: seq<Shared>, p: Pid) {
    forall k :: 0 <= k < |trace| - 1 ==> InnerStep(c, offset, trace, p, k)
  }

  ghost predicate InnerStep(c: Codec, offset: nat, trace: seq<Shared>, p: Pid, k: nat)
    requires k + 1 < |trace|
  {
    Moves(c, offset, trace[k], trace[k + 1], p)
  }

  ghost predicate Moves(c: Codec, offset: nat, s: Shared, t: Shared, p: Pid) {
    exists m :: Inner(c, offset, s, t, p, m)
  }

  /** It can make its next move, and the move takes it further. */
  lemma CanMove(c: Codec, prefix: seq<byte>, initial: Database, s: Shared, p: Pid) returns (t: Shared)
    requires Inv(c, prefix, initial, s) && p in s.inside && NextMove(c, s.inside[p]).Some?
    ensures Inner(c, |prefix|, s, t, p, NextMove(c, s.inside[p]).value)
    ensures p in t.inside && t.inside[p].op == s.inside[p].op && t.history == s.history && |t.file| == |s.file|
    ensures Progress(c, t.inside[p]) > Progress(c, s.inside[p])
  {
    var a, n := s.inside[p], |prefix|;
    assert PhaseOk(c, n, s.file, Replay(initial, s.history), a);
    match a.phase {
      case Entered =>
        t := s.(inside := s.inside[p := a.(phase := Sized(FromBytes(s.file[n..n + LEN_SIZE])))]);
      case Sized(len) =>
        ReadSucceeds(c, prefix, initial, s, p);
        t := s.(inside := s.inside[p := a.(phase := ReadRegion(c, s.file, n, len))]);
      case Loaded(d) =>
        var target := a.op.update(d);
        var phase := if Fits(c, |s.file|, n, target) then Writing(target, 0) else Failed;
        t := s.(inside := s.inside[p := a.(phase := phase)]);
      case Writing(d, k) =>
        t := s.(file := WriteAt(s.file, n + k, Image(c, d)[k..|Image(c, d)|]),
                inside := s.inside[p := a.(phase := Writing(d, |Image(c, d)|))]);
    }
  }

  lemma CanLeave(c: Codec, prefix: seq<byte>, initial: Database, s: Shared, p: Pid) returns (t: Shared)
    requires Inv(c, prefix, initial, s) && p in s.inside && NextMove(c, s.inside[p]).None?
    ensures Leave(c, s, t, p) && |t.file| == |s.file|
    ensures s.inside[p].op.ReadOp? ==> t.history == s.history + [Returned(p, Replay(initial, s.history))]
    ensures s.inside[p].op.WriteOp? ==>
              var f := s.inside[p].op.update;
              t.history == s.history + if HasRoom(c, |s.file|, |prefix|, f(Replay(initial, s.history)))
                                       then [Committed(p, f)] else []
  {
    var a, now := s.inside[p], Replay(initial, s.history);
    assert PhaseOk(c, |prefix|, s.file, now, a);
    var event := match a.op
                 case ReadOp => [Returned(p, now)]
                 case WriteOp(f) => if a.phase.Failed? then [] else [Committed(p, f)];
    if a.op.WriteOp? { FitsIff(c, |s.file|, |prefix|, a.op.update(now)); }
    t := Shared(s.file, s.inside - {p}, s.history + event);
  }

  lemma StepsJoin(c: Codec, offset: nat, s: Shared, rest: seq<Shared>, p: Pid)
    requires |rest| > 0 && Moves(c, offset, s, rest[0], p) && InnerSteps(c, offset, rest, p)
    ensures InnerSteps(c, offset, [s] + rest, p)
  {
    forall k | 0 <= k < |rest| ensures InnerStep(c, offset, [s] + rest, p, k) {
      if k > 0 { assert InnerStep(c, offset, rest, p, k - 1); }
    }
  }

  /**
   * From wherever it is inside the lock, a process can go on to its end in at most four moves of its
   * own: a read returns the current database, and a write is committed exactly when some region of
   * this size could hold its result.
   */
  lemma {:induction false} SectionCompletes(c: Codec, prefix: seq<byte>, initial: Database, s: Shared, p: Pid)
    returns (trace: seq<Shared>, t: Shared)
    requires Faithful(c) && Inv(c, prefix, initial, s) && p in s.inside
    ensures 0 < |trace| <= 5 - Progress(c, s.inside[p]) && trace[0] == s && InnerSteps(c, |prefix|, trace, p)
    ensures Leave(c, trace[|trace| - 1], t, p) && Inv(c, prefix, initial, t) && |t.file| == |s.file|
    ensures s.inside[p].op.ReadOp? ==> t.history == s.history + [Returned(p, Replay(initial, s.history))]
    ensures s.inside[p].op.WriteOp? ==>
              var f := s.inside[p].op.update;
              t.history == s.history + if HasRoom(c, |s.file|, |prefix|, f(Replay(initial, s.history)))
                                       then [Committed(p, f)] else []
    decreases 5 - Progress(c, s.inside[p])
  {
    if NextMove(c, s.inside[p]).None? {
      t := CanLeave(c, prefix, initial, s, p);
      trace := [s];
      LeaveKeepsInv(c, prefix, initial, s, t, p);
    } else {
      var next := CanMove(c, prefix, initial, s, p);
      InnerKeepsInv(c, prefix, initial, s, next, p, NextMove(c, s.inside[p]).value);
      var rest;
      rest, t := SectionCompletes(c, prefix, initial, next, p);
      StepsJoin(c, |prefix|, s, rest, p);
      trace := [s] + rest;
    }
  }
}
