// What happens inside the lock of a file-backed store, interleaved over any number of processes.
//
// A process that holds the lock stats the file, reads the blob, decodes it and, when it writes,
// resizes the file and writes the new blob in chunks of any size. Each of these is one step, so
// that other processes run between any two of them. The lock itself is left to FlockStore and
// RwLockStore: they show that they admit a process only when CanEnter holds.

module Sections {
  import opened Bytes
  import opened Databases
  import opened Codecs

  type Pid = nat

  /** `read`, or `with_write` of a closure. */
  datatype Op = ReadOp | WriteOp(update: Database -> Database)

  /** How far a process inside the lock has come. */
  datatype Phase =
    | Entered
    | Sized(len: nat)
    | Loaded(db: Database)
    | Writing(target: Database, written: nat)
    | Failed

  datatype Active = Active(op: Op, phase: Phase)

  /** What an operation that completed did, in the order in which locks were released. */
  datatype Event =
    | Committed(writer: Pid, update: Database -> Database)
    | Returned(reader: Pid, db: Database)

  datatype Shared = Shared(file: seq<byte>, inside: map<Pid, Active>, history: seq<Event>)

  // ----- The blob in the file -----

  /** The database stored from `offset` on, or None when the bytes there do not decode. */
  function LoadBlob(c: Codec, file: seq<byte>, offset: nat): Option<Database> {
    if |file| < offset + 8 then Some(EMPTY_DATABASE) else c.dec(file[offset..])
  }

  /** The file after set_len and all chunks of a write of `d`. */
  function StoreBlob(c: Codec, file: seq<byte>, offset: nat, d: Database): seq<byte> {
    WriteAt(SetLen(file, offset + |c.enc(d)|), offset, c.enc(d))
  }

  /** A blob written at `offset` reads back, whatever was there, and nothing below moves. */
  lemma StoreThenLoad(c: Codec, file: seq<byte>, offset: nat, d: Database)
    requires Faithful(c) && offset <= |file|
    ensures LoadBlob(c, StoreBlob(c, file, offset, d), offset) == Some(d)
    ensures StoreBlob(c, file, offset, d)[..offset] == file[..offset]
    ensures |StoreBlob(c, file, offset, d)| == offset + |c.enc(d)|
  {
    assert c.dec(c.enc(d)) == Some(d);
    assert StoreBlob(c, file, offset, d)[offset..] == c.enc(d);
  }

  // ----- Steps -----

  datatype Move = Stat | Load | Resize | WriteChunk(size: nat)

  ghost predicate CanEnter(inside: map<Pid, Active>, op: Op) {
    match op
    case ReadOp => forall q :: q in inside ==> inside[q].op.ReadOp?
    case WriteOp(_) => inside == map[]
  }

  ghost predicate Enter(s: Shared, t: Shared, p: Pid, op: Op) {
    && p !in s.inside
    && t == s.(inside := s.inside[p := Active(op, Entered)])
  }

  function ReadBuffer(c: Codec, file: seq<byte>, offset: nat, len: nat): Phase {
    if len <= offset then Loaded(EMPTY_DATABASE)
    else if |file| < len then Failed
    else if len - offset < 8 then Loaded(EMPTY_DATABASE)
    else match c.dec(file[offset..len])
      case Some(d) => Loaded(d)
      case None => Failed
  }

  ghost predicate Inner(c: Codec, offset: nat, s: Shared, t: Shared, p: Pid, m: Move) {
    && p in s.inside
    && var a := s.inside[p];
       match m
       case Stat =>
         && a.phase.Entered?
         && t == s.(inside := s.inside[p := a.(phase := Sized(|s.file|))])
       case Load =>
         && a.phase.Sized?
         && t == s.(inside := s.inside[p := a.(phase := ReadBuffer(c, s.file, offset, a.phase.len))])
       case Resize =>
         && a.phase.Loaded? && a.op.WriteOp?
         && var target := a.op.update(a.phase.db);
            t == s.(file := SetLen(s.file, offset + |c.enc(target)|),
                    inside := s.inside[p := a.(phase := Writing(target, 0))])
       case WriteChunk(size) =>
         && a.phase.Writing? && 0 < size <= |c.enc(a.phase.target)| - a.phase.written
         && var k := a.phase.written;
            t == s.(file := WriteAt(s.file, offset + k, c.enc(a.phase.target)[k..k + size]),
                    inside := s.inside[p := a.(phase := a.phase.(written := k + size))])
  }

  /** The lock is released: the operation took effect, or it failed and reported an error. */
  ghost predicate Leave(c: Codec, s: Shared, t: Shared, p: Pid) {
    && p in s.inside
    && t.inside == s.inside - {p} && t.file == s.file
    && var a := s.inside[p];
       match a.phase
       case Loaded(d) => a.op.ReadOp? && t.history == s.history + [Returned(p, d)]
       case Writing(d, k) =>
         a.op.WriteOp? && k == |c.enc(d)| && t.history == s.history + [Committed(p, a.op.update)]
       case Failed => t.history == s.history
       case _ => false
  }

  /** The process dies inside the lock, but not in the middle of a write. */
  ghost predicate Die(s: Shared, t: Shared, p: Pid) {
    && p in s.inside && !s.inside[p].phase.Writing?
    && t == s.(inside := s.inside - {p})
  }

  // ----- The sequential specification -----

  /** The database after the committed closures, in the order of their locks. */
  function Replay(initial: Database, history: seq<Event>): Database {
    if history == [] then initial
    else
      var before := Replay(initial, history[..|history| - 1]);
      match history[|history| - 1]
      case Committed(_, f) => f(before)
      case Returned(_, _) => before
  }

  /** Every read returned the database current at its place in the history. */
  ghost predicate Legal(initial: Database, history: seq<Event>) {
    forall k :: 0 <= k < |history| && history[k].Returned? ==> history[k].db == Replay(initial, history[..k])
  }

  // ----- The invariant -----

  ghost predicate Exclusive(inside: map<Pid, Active>) {
    forall p, q :: p in inside && q in inside && p != q ==> inside[p].op.ReadOp?
  }

  ghost predicate NobodyWriting(s: Shared) {
    forall p :: p in s.inside ==> !s.inside[p].phase.Writing?
  }

  ghost predicate PhaseOk(c: Codec, offset: nat, file: seq<byte>, now: Database, a: Active) {
    match a.phase
    case Entered => true
    case Sized(len) => len == |file|
    case Loaded(d) => d == now
    case Writing(d, k) =>
      && a.op.WriteOp? && d == a.op.update(now)
      && k <= |c.enc(d)| && |file| == offset + |c.enc(d)|
      && file[offset..offset + k] == c.enc(d)[..k]
    case Failed => false
  }

  /** `prefix` is what the file holds below the blob: the magic header, or the mapped rwlock. */
  ghost predicate Inv(c: Codec, prefix: seq<byte>, initial: Database, s: Shared) {
    && var offset := |prefix|;
       var now := Replay(initial, s.history);
    && Legal(initial, s.history)
    && prefix <= s.file
    && Exclusive(s.inside)
    && (NobodyWriting(s) ==> LoadBlob(c, s.file, offset) == Some(now))
    && (forall p :: p in s.inside ==> PhaseOk(c, offset, s.file, now, s.inside[p]))
  }

  lemma EnterKeepsInv(c: Codec, prefix: seq<byte>, initial: Database, s: Shared, t: Shared, p: Pid, op: Op)
    requires Inv(c, prefix, initial, s) && Enter(s, t, p, op) && CanEnter(s.inside, op)
    ensures Inv(c, prefix, initial, t)
  {
    if NobodyWriting(t) {
      forall q | q in s.inside ensures !s.inside[q].phase.Writing? { assert t.inside[q] == s.inside[q]; }
    }
  }

  lemma LoadSucceeds(c: Codec, prefix: seq<byte>, initial: Database, s: Shared, p: Pid)
    requires Inv(c, prefix, initial, s) && p in s.inside && s.inside[p].phase.Sized? 
    ensures NobodyWriting(s)
    ensures ReadBuffer(c, s.file, |prefix|, s.inside[p].phase.len) == Loaded(Replay(initial, s.history))
  {
    assert s.file[|prefix|..] == s.file[|prefix|..|s.file|];
  }

  lemma InnerKeepsInv(c: Codec, prefix: seq<byte>, initial: Database, s: Shared, t: Shared, p: Pid, m: Move)
    requires Faithful(c)
    requires Inv(c, prefix, initial, s) && Inner(c, |prefix|, s, t, p, m)
    ensures Inv(c, prefix, initial, t)
  {
    if m.Stat? || m.Load? {
      ReadingKeepsInv(c, prefix, initial, s, t, p, m);
    } else {
      WritingKeepsInv(c, prefix, initial, s, t, p, m);
    }
  }

  lemma ReadingKeepsInv(c: Codec, prefix: seq<byte>, initial: Database, s: Shared, t: Shared, p: Pid, m: Move)
    requires Inv(c, prefix, initial, s) && Inner(c, |prefix|, s, t, p, m) && (m.Stat? || m.Load?)
    ensures Inv(c, prefix, initial, t)
  {
    if m.Load? { LoadSucceeds(c, prefix, initial, s, p); }
    forall q | q in s.inside && q != p ensures t.inside[q] == s.inside[q] {}
    if NobodyWriting(t) {
      forall q | q in s.inside ensures !s.inside[q].phase.Writing? { assert q in t.inside; }
    }
  }

  lemma WritingKeepsInv(c: Codec, prefix: seq<byte>, initial: Database, s: Shared, t: Shared, p: Pid, m: Move)
    requires Inv(c, prefix, initial, s) && Inner(c, |prefix|, s, t, p, m) && (m.Resize? || m.WriteChunk?)
    ensures Inv(c, prefix, initial, t)
  {
    WriterIsAlone(s, p);
    assert t.inside.Keys == {p};
    WriterGoesOn(c, prefix, initial, s, t, p, m);
  }

  /** The writer's own facts after one of its writes. */
  lemma WriterGoesOn(c: Codec, prefix: seq<byte>, initial: Database, s: Shared, t: Shared, p: Pid, m: Move)
    requires Inv(c, prefix, initial, s) && Inner(c, |prefix|, s, t, p, m) && (m.Resize? || m.WriteChunk?)
    ensures prefix <= t.file && t.inside[p].phase.Writing?
    ensures PhaseOk(c, |prefix|, t.file, Replay(initial, s.history), t.inside[p])
  {
    assert PhaseOk(c, |prefix|, s.file, Replay(initial, s.history), s.inside[p]);
    if m.Resize? {
      ResizeStarts(c, prefix, s, t, p);
    } else {
      ChunkWritten(c, |prefix|, s.file, Replay(initial, s.history), s.inside[p], m.size);
      assert s.file[..|prefix|] == prefix;
    }
  }

  lemma ChunkWritten(c: Codec, offset: nat, file: seq<byte>, now: Database, a: Active, size: nat)
    requires PhaseOk(c, offset, file, now, a) && a.phase.Writing?
    requires a.phase.written + size <= |c.enc(a.phase.target)|
    ensures var k := a.phase.written;
            var next := WriteAt(file, offset + k, c.enc(a.phase.target)[k..k + size]);
            && |next| == |file| && next[..offset] == file[..offset]
            && PhaseOk(c, offset, next, now, a.(phase := Writing(a.phase.target, k + size)))
  {
    ChunkExtends(c, offset, file, a.phase.target, a.phase.written, size);
  }

  lemma ResizeStarts(c: Codec, prefix: seq<byte>, s: Shared, t: Shared, p: Pid)
    requires prefix <= s.file && Inner(c, |prefix|, s, t, p, Resize)
    ensures prefix <= t.file && |t.file| == |prefix| + |c.enc(t.inside[p].phase.target)|
    ensures t.inside[p].phase == Writing(s.inside[p].op.update(s.inside[p].phase.db), 0)
  {
  }

  lemma WriterIsAlone(s: Shared, p: Pid)
    requires Exclusive(s.inside) && p in s.inside && s.inside[p].op.WriteOp?
    ensures s.inside.Keys == {p}
  {
  }

  lemma ChunkExtends(c: Codec, offset: nat, file: seq<byte>, d: Database, k: nat, size: nat)
    requires k + size <= |c.enc(d)| && |file| == offset + |c.enc(d)|
    requires file[offset..offset + k] == c.enc(d)[..k]
    ensures var next := WriteAt(file, offset + k, c.enc(d)[k..k + size]);
            && |next| == |file| && next[..offset] == file[..offset]
            && next[offset..offset + k + size] == c.enc(d)[..k + size]
  {
    var next := WriteAt(file, offset + k, c.enc(d)[k..k + size]);
    forall i | 0 <= i < k + size ensures next[offset + i] == c.enc(d)[i] {
      if i < k { assert file[offset..offset + k][i] == c.enc(d)[..k][i]; }
    }
  }

  /** The section when a writer, who was alone, has left. */
  lemma WriterLeaves(c: Codec, prefix: seq<byte>, initial: Database, s: Shared, t: Shared, p: Pid)
    requires Faithful(c)
    requires Inv(c, prefix, initial, s) && Leave(c, s, t, p) && s.inside[p].phase.Writing?
    ensures t.inside == map[] && Legal(initial, t.history)
    ensures t.history == s.history + [Committed(p, s.inside[p].op.update)]
    ensures LoadBlob(c, t.file, |prefix|) == Some(Replay(initial, t.history))
  {
    var d := s.inside[p].phase.target;
    assert PhaseOk(c, |prefix|, s.file, Replay(initial, s.history), s.inside[p]);
    WriterIsAlone(s, p);
    LegalExtends(initial, s.history, t.history);
    assert c.dec(c.enc(d)) == Some(d);
    assert s.file[|prefix|..] == s.file[|prefix|..|prefix| + |c.enc(d)|] == c.enc(d);
    assert t.inside.Keys == {};
  }

  /** When anyone else has left, nobody who stays has moved. */
  lemma OthersStay(c: Codec, s: Shared, t: Shared, p: Pid)
    requires Leave(c, s, t, p) && !s.inside[p].phase.Writing?
    ensures forall q :: q in t.inside ==> q in s.inside && t.inside[q] == s.inside[q]
    ensures Exclusive(s.inside) ==> Exclusive(t.inside)
    ensures NobodyWriting(t) ==> NobodyWriting(s)
  {
    if NobodyWriting(t) {
      forall q | q in s.inside ensures !s.inside[q].phase.Writing? { assert q == p || q in t.inside; }
    }
  }

  lemma LeaveKeepsInv(c: Codec, prefix: seq<byte>, initial: Database, s: Shared, t: Shared, p: Pid)
    requires Faithful(c)
    requires Inv(c, prefix, initial, s) && Leave(c, s, t, p)
    ensures Inv(c, prefix, initial, t)
    ensures |t.history| == |s.history| + 1 && t.history[..|s.history|] == s.history
    ensures match s.inside[p].op
            case ReadOp => t.history[|s.history|] == Returned(p, Replay(initial, s.history))
            case WriteOp(f) =>
              && t.history[|s.history|] == Committed(p, f)
              && Replay(initial, t.history) == f(Replay(initial, s.history))
  {
    assert PhaseOk(c, |prefix|, s.file, Replay(initial, s.history), s.inside[p]);
    if s.inside[p].phase.Writing? {
      WriterLeaves(c, prefix, initial, s, t, p);
    } else {
      LegalExtends(initial, s.history, t.history);
      OthersStay(c, s, t, p);
    }
  }

  /** However it was cut into chunks, a finished write leaves what the sequential code leaves. */
  lemma FinishedWriteIsStoreBlob(c: Codec, prefix: seq<byte>, initial: Database, s: Shared, p: Pid, before: seq<byte>)
    requires Faithful(c)
    requires Inv(c, prefix, initial, s) && p in s.inside && s.inside[p].phase.Writing?
    requires s.inside[p].phase.written == |c.enc(s.inside[p].phase.target)| && prefix <= before
    ensures s.file == StoreBlob(c, before, |prefix|, s.inside[p].op.update(Replay(initial, s.history)))
  {
    var d := s.inside[p].phase.target;
    assert PhaseOk(c, |prefix|, s.file, Replay(initial, s.history), s.inside[p]);
    StoreThenLoad(c, before, |prefix|, d);
    assert s.file == prefix + c.enc(d);
    assert StoreBlob(c, before, |prefix|, d)[|prefix|..] == c.enc(d);
  }

  lemma LegalExtends(initial: Database, h: seq<Event>, k: seq<Event>)
    requires Legal(initial, h)
    requires k == h || (|k| == |h| + 1 && k[..|h|] == h && (k[|h|].Returned? ==> k[|h|].db == Replay(initial, h)))
    ensures Legal(initial, k)
  {
    forall i | 0 <= i < |k| && k[i].Returned? ensures k[i].db == Replay(initial, k[..i]) {
      if i < |h| { assert k[..i] == h[..i] && k[i] == h[i]; }
    }
  }

  /** Bytes below the blob may be replaced by as many others: the blob does not depend on them. */
  lemma PrefixIsFree(c: Codec, prefix: seq<byte>, other: seq<byte>, initial: Database, s: Shared)
    requires Inv(c, prefix, initial, s) && |other| == |prefix|
    ensures Inv(c, other, initial, s.(file := other + s.file[|prefix|..]))
  {
    var n, file := |prefix|, other + s.file[|prefix|..];
    assert file[n..] == s.file[n..] && |file| == |s.file|;
    forall p | p in s.inside ensures PhaseOk(c, n, file, Replay(initial, s.history), s.inside[p]) {
      var a := s.inside[p];
      if a.phase.Writing? {
        assert file[n..n + a.phase.written] == s.file[n..n + a.phase.written];
      }
    }
  }

  lemma DieKeepsInv(c: Codec, prefix: seq<byte>, initial: Database, s: Shared, t: Shared, p: Pid)
    requires Inv(c, prefix, initial, s) && Die(s, t, p)
    ensures Inv(c, prefix, initial, t)
  {
    if NobodyWriting(t) {
      forall q | q in s.inside ensures !s.inside[q].phase.Writing? { assert q == p || q in t.inside; }
    }
  }

  // ----- An operation comes to its end -----

  /** How far into its section a process is. */
  function Progress(c: Codec, a: Active): nat {
    match a.phase
    case Entered => 0
    case Sized(_) => 1
    case Loaded(_) => 2
    case Writing(d, k) => if k < |c.enc(d)| then 3 else 4
    case Failed => 4
  }

  ghost predicate InnerSteps(c: Codec, offset: nat, trace: seq<Shared>, p: Pid) {
    forall k :: 0 <= k < |trace| - 1 ==> InnerStep(c, offset, trace, p, k)
  }

  ghost predicate InnerStep(c: Codec, offset: nat, trace: seq<Shared>, p: Pid, k: nat)
    requires k + 1 < |trace|
  {
    Moves(c, offset, trace[k], trace[k + 1], p)
  }

  ghost predicate Moves(c: Codec, offset: nat, s: Shared, t: Shared, p: Pid) {
    exists m :: Inner(c, offset, s, t, p, m)
  }

  /** What a process inside does next: None is to leave. */
  function NextMove(c: Codec, a: Active): Option<Move> {
    match a.phase
    case Entered => Some(Stat)
    case Sized(_) => Some(Load)
    case Loaded(_) => if a.op.WriteOp? then Some(Resize) else None
    case Writing(d, k) => if k < |c.enc(d)| then Some(WriteChunk(|c.enc(d)| - k)) else None
    case Failed => None
  }

  /** It can make that move, and the move takes it further. */
  lemma CanMove(c: Codec, prefix: seq<byte>, initial: Database, s: Shared, p: Pid) returns (t: Shared)
    requires Inv(c, prefix, initial, s) && p in s.inside && NextMove(c, s.inside[p]).Some?
    ensures Inner(c, |prefix|, s, t, p, NextMove(c, s.inside[p]).value)
    ensures p in t.inside && t.inside[p].op == s.inside[p].op && t.history == s.history
    ensures Progress(c, t.inside[p]) > Progress(c, s.inside[p])
  {
    var a, n := s.inside[p], |prefix|;
    match a.phase {
      case Entered =>
        t := s.(inside := s.inside[p := a.(phase := Sized(|s.file|))]);
      case Sized(len) =>
        LoadSucceeds(c, prefix, initial, s, p);
        t := s.(inside := s.inside[p := a.(phase := ReadBuffer(c, s.file, n, len))]);
      case Loaded(d) =>
        var target := a.op.update(d);
        t := s.(file := SetLen(s.file, n + |c.enc(target)|), inside := s.inside[p := a.(phase := Writing(target, 0))]);
      case Writing(d, k) =>
        t := s.(file := WriteAt(s.file, n + k, c.enc(d)[k..|c.enc(d)|]),
                inside := s.inside[p := a.(phase := Writing(d, |c.enc(d)|))]);
    }
  }

  lemma CanLeave(c: Codec, prefix: seq<byte>, initial: Database, s: Shared, p: Pid) returns (t: Shared)
    requires Inv(c, prefix, initial, s) && p in s.inside && NextMove(c, s.inside[p]).None?
    ensures Leave(c, s, t, p)
  {
    var a := s.inside[p];
    assert PhaseOk(c, |prefix|, s.file, Replay(initial, s.history), a);
    var e := if a.op.ReadOp? then Returned(p, a.phase.db) else Committed(p, a.op.update);
    t := Shared(s.file, s.inside - {p}, s.history + [e]);
  }

  lemma StepsJoin(c: Codec, offset: nat, s: Shared, rest: seq<Shared>, p: Pid)
    requires |rest| > 0 && Moves(c, offset, s, rest[0], p) && InnerSteps(c, offset, rest, p)
    ensures InnerSteps(c, offset, [s] + rest, p)
  {
    forall k | 0 <= k < |rest| ensures InnerStep(c, offset, [s] + rest, p, k) {
      if k > 0 { assert InnerStep(c, offset, rest, p, k - 1); }
    }
  }

  /**
   * From wherever it is inside the lock, a process can go on to its end: at most four moves of its
   * own, whatever it has done already, after which it leaves (see LeaveKeepsInv) with its own
   * operation, and nobody else's, in the history.
   */
  lemma {:induction false} SectionCompletes(c: Codec, prefix: seq<byte>, initial: Database, s: Shared, p: Pid)
    returns (trace: seq<Shared>, t: Shared)
    requires Faithful(c) && Inv(c, prefix, initial, s) && p in s.inside
    ensures 0 < |trace| <= 5 - Progress(c, s.inside[p]) && trace[0] == s && InnerSteps(c, |prefix|, trace, p)
    ensures Leave(c, trace[|trace| - 1], t, p) && Inv(c, prefix, initial, t)
    ensures t.history == s.history + [if s.inside[p].op.ReadOp? then Returned(p, Replay(initial, s.history))
                                      else Committed(p, s.inside[p].op.update)]
    decreases 5 - Progress(c, s.inside[p])
  {
    if NextMove(c, s.inside[p]).None? {
      t := CanLeave(c, prefix, initial, s, p);
      trace := [s];
      LeaveKeepsInv(c, prefix, initial, s, t, p);
    } else {
      var next := CanMove(c, prefix, initial, s, p);
      InnerKeepsInv(c, prefix, initial, s, next, p, NextMove(c, s.inside[p]).value);
      var rest;
      rest, t := SectionCompletes(c, prefix, initial, next, p);
      StepsJoin(c, |prefix|, s, rest, p);
      trace := [s] + rest;
    }
  }
}
