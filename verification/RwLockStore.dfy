// The stores behind a process-shared rwlock that every forked child maps: the memfd store (-n),
// whose blob is in a growable file, and the bounded store (-M), whose blob is in a region of fixed
// size. The lock is a word at the start of the file or region itself, which counts its readers: who
// is admitted is decided by bytes that a blob write could reach. A process may die anywhere except
// while it holds the lock.

module RwLockStore {
  import opened Bytes
  import opened Databases
  import opened Codecs
  import opened RwLocks
  import opened Sections
  import RegionSections
  import RegionStore

  /** How the lock is kept in `size` bytes, with room for `most` readers, and what follows it. */
  datatype Layout = Layout(bounded: bool, size: nat, most: nat, enc: RwWord -> seq<byte>, dec: seq<byte> -> RwWord)

  ghost predicate Sound(l: Layout) {
    forall w: RwWord :: w.readers <= l.most ==> |l.enc(w)| == l.size && l.dec(l.enc(w)) == w
  }

  function WordIn(l: Layout, file: seq<byte>): RwWord
    requires l.size <= |file|
  {
    l.dec(file[..l.size])
  }

  function PutWord(l: Layout, file: seq<byte>, w: RwWord): seq<byte>
    requires l.size <= |file|
  {
    l.enc(w) + file[l.size..]
  }

  // ----- The two kinds of store -----

  function LoadOf(c: Codec, l: Layout, file: seq<byte>): Option<Database> {
    if l.bounded then RegionStore.Load(c, file, l.size) else LoadBlob(c, file, l.size)
  }

  ghost predicate InnerOf(c: Codec, l: Layout, s: Shared, t: Shared, p: Pid, m: Move) {
    if l.bounded then RegionSections.Inner(c, l.size, s, t, p, m) else Inner(c, l.size, s, t, p, m)
  }

  ghost predicate LeaveOf(c: Codec, l: Layout, s: Shared, t: Shared, p: Pid) {
    if l.bounded then RegionSections.Leave(c, s, t, p) else Leave(c, s, t, p)
  }

  ghost predicate InvOf(c: Codec, l: Layout, prefix: seq<byte>, initial: Database, s: Shared) {
    if l.bounded then RegionSections.Inv(c, prefix, initial, s) else Inv(c, prefix, initial, s)
  }

  // ----- Steps -----

  datatype Pc = Idle | Waiting(op: Op) | Holding

  datatype State = State(procs: map<Pid, Pc>, shared: Shared)

  datatype Step =
    | Fork(child: Pid)
    | Exit
    | Begin(op: Op)
    | Acquire
    | Inside(m: Move)
    | Release

  /** The word after the lock is granted; None while it is not. */
  function Granted(l: Layout, w: RwWord, op: Op): Option<RwWord> {
    match op
    case ReadOp => if !w.writer && w.readers < l.most then Some(RwWord(w.readers + 1, false)) else None
    case WriteOp(_) => if w == FREE then Some(RwWord(0, true)) else None
  }

  ghost predicate NextStep(c: Codec, l: Layout, s: State, t: State, p: Pid, step: Step) {
    && p in s.procs && l.size <= |s.shared.file|
    && var pc := s.procs[p];
       var word := WordIn(l, s.shared.file);
       match step
       case Fork(child) =>
         pc.Idle? && child !in s.procs && t == s.(procs := s.procs[child := Idle])
       case Exit =>
         !pc.Holding? && t == s.(procs := s.procs - {p})
       case Begin(op) =>
         pc.Idle? && t == s.(procs := s.procs[p := Waiting(op)])
       case Acquire =>
         && pc.Waiting? && Granted(l, word, pc.op).Some?
         && Enter(s.shared.(file := PutWord(l, s.shared.file, Granted(l, word, pc.op).value)), t.shared, p, pc.op)
         && t.procs == s.procs[p := Holding]
       case Inside(m) =>
         && pc.Holding? && InnerOf(c, l, s.shared, t.shared, p, m)
         && t == s.(shared := t.shared)
       case Release =>
         && pc.Holding?
         && LeaveOf(c, l, s.shared.(file := PutWord(l, s.shared.file, Released(word))), t.shared, p)
         && t.procs == s.procs[p := Idle]
  }

  ghost predicate Next(c: Codec, l: Layout, s: State, t: State) {
    exists p, step :: NextStep(c, l, s, t, p, step)
  }

  /** A store as `open` leaves it, or as any earlier run did: one process, lock free. */
  ghost predicate Init(c: Codec, l: Layout, s: State) {
    && (exists p :: s.procs == map[p := Idle])
    && s.shared.inside == map[] && s.shared.history == []
    && l.enc(FREE) <= s.shared.file && LoadOf(c, l, s.shared.file).Some?
    && (l.bounded ==> l.size + 16 <= |s.shared.file| < U64_LIMIT)
  }

  ghost predicate Run(c: Codec, l: Layout, trace: seq<State>) {
    && |trace| > 0 && Init(c, l, trace[0])
    && forall i :: 0 <= i < |trace| - 1 ==> Follows(c, l, trace, i)
  }

  ghost predicate Follows(c: Codec, l: Layout, trace: seq<State>, i: nat)
    requires i + 1 < |trace|
  {
    Next(c, l, trace[i], trace[i + 1])
  }

  // ----- The invariant -----

  ghost function Readers(inside: map<Pid, Active>): set<Pid> {
    set p | p in inside && inside[p].op.ReadOp?
  }

  /** The word counts exactly the processes inside. */
  ghost predicate Counts(w: RwWord, inside: map<Pid, Active>) {
    && w.readers == |Readers(inside)|
    && (w.writer <==> exists p :: p in inside && inside[p].op.WriteOp?)
  }

  ghost predicate Holders(s: State) {
    && s.shared.inside.Keys <= s.procs.Keys
    && (forall p :: p in s.procs ==> (s.procs[p].Holding? <==> p in s.shared.inside))
  }

  /** The file starts with this word, which counts the processes inside. */
  ghost predicate WordOk(l: Layout, w: RwWord, s: Shared) {
    w.readers <= l.most && |l.enc(w)| == l.size && l.enc(w) <= s.file && Counts(w, s.inside)
  }

  ghost predicate StateInv(c: Codec, l: Layout, initial: Database, s: State, w: RwWord) {
    InvOf(c, l, l.enc(w), initial, s.shared) && WordOk(l, w, s.shared) && Holders(s)
  }

  lemma WordIsRead(l: Layout, w: RwWord, s: Shared)
    requires Sound(l) && WordOk(l, w, s)
    ensures l.size <= |s.file| && WordIn(l, s.file) == w
  {
    assert s.file[..l.size] == l.enc(w);
  }

  lemma WordAdmits(w: RwWord, inside: map<Pid, Active>, op: Op)
    requires Counts(w, inside)
    requires !w.writer && (op.WriteOp? ==> w.readers == 0)
    ensures CanEnter(inside, op)
  {
    assert inside.Keys == Readers(inside);
    assert op.WriteOp? ==> inside.Keys == {};
  }

  lemma AcquireCounts(w: RwWord, inside: map<Pid, Active>, p: Pid, op: Op, l: Layout)
    requires Counts(w, inside) && p !in inside && Granted(l, w, op).Some?
    ensures Counts(Granted(l, w, op).value, inside[p := Active(op, Entered)])
  {
    var after := inside[p := Active(op, Entered)];
    assert p in after;
    if op.ReadOp? {
      assert Readers(after) == Readers(inside) + {p};
      assert p !in Readers(inside);
      assert forall q :: q in inside ==> after[q] == inside[q];
    } else {
      WordAdmits(w, inside, op);
      assert Readers(after) == {};
    }
  }

  lemma ReleaseCounts(w: RwWord, s: Shared, p: Pid)
    requires Counts(w, s.inside) && Exclusive(s.inside) && p in s.inside
    ensures Counts(Released(w), s.inside - {p})
  {
    var before, after := s.inside, s.inside - {p};
    if before[p].op.ReadOp? {
      assert Readers(after) == Readers(before) - {p};
      assert p in Readers(before);
      assert forall q :: q in before ==> before[q].op.ReadOp?;
    } else {
      WriterIsAlone(s, p);
      assert after.Keys == {} && Readers(after) == {};
    }
  }

  /** Taking and releasing the lock rewrites the word and nothing of the blob. */
  lemma WordChanges(c: Codec, l: Layout, initial: Database, s: Shared, w: RwWord, v: RwWord)
    requires Sound(l) && InvOf(c, l, l.enc(w), initial, s) && WordOk(l, w, s) && v.readers <= l.most
    ensures InvOf(c, l, l.enc(v), initial, s.(file := PutWord(l, s.file, v)))
    ensures |l.enc(v)| == l.size
  {
    if l.bounded {
      RegionSections.PrefixIsFree(c, l.enc(w), l.enc(v), initial, s);
    } else {
      PrefixIsFree(c, l.enc(w), l.enc(v), initial, s);
    }
  }

  lemma AcquireKeepsInv(c: Codec, l: Layout, initial: Database, s: State, t: State, p: Pid, w: RwWord)
    requires Sound(l) && StateInv(c, l, initial, s, w) && NextStep(c, l, s, t, p, Acquire)
    ensures Granted(l, w, s.procs[p].op).Some? && StateInv(c, l, initial, t, Granted(l, w, s.procs[p].op).value)
  {
    WordIsRead(l, w, s.shared);
    var op := s.procs[p].op;
    var v := Granted(l, w, op).value;
    WordAdmits(w, s.shared.inside, op);
    WordChanges(c, l, initial, s.shared, w, v);
    var changed := s.shared.(file := PutWord(l, s.shared.file, v));
    if l.bounded {
      RegionSections.EnterKeepsInv(c, l.enc(v), initial, changed, t.shared, p, op);
    } else {
      EnterKeepsInv(c, l.enc(v), initial, changed, t.shared, p, op);
    }
    AcquireCounts(w, s.shared.inside, p, op, l);
  }

  lemma ReleaseKeepsInv(c: Codec, l: Layout, initial: Database, s: State, t: State, p: Pid, w: RwWord)
    requires Faithful(c) && Sound(l) && StateInv(c, l, initial, s, w) && NextStep(c, l, s, t, p, Release)
    ensures StateInv(c, l, initial, t, Released(w))
  {
    WordIsRead(l, w, s.shared);
    var v := Released(w);
    WordChanges(c, l, initial, s.shared, w, v);
    var changed := s.shared.(file := PutWord(l, s.shared.file, v));
    if l.bounded {
      RegionSections.LeaveKeepsInv(c, l.enc(v), initial, changed, t.shared, p);
    } else {
      LeaveKeepsInv(c, l.enc(v), initial, changed, t.shared, p);
    }
    ReleaseCounts(w, s.shared, p);
  }

  lemma InnerOfKeepsInv(c: Codec, l: Layout, prefix: seq<byte>, initial: Database, s: Shared, t: Shared,
                        p: Pid, m: Move)
    requires Faithful(c) && InvOf(c, l, prefix, initial, s) && InnerOf(c, l, s, t, p, m) && |prefix| == l.size
    ensures InvOf(c, l, prefix, initial, t) && prefix <= t.file
  {
    if l.bounded {
      RegionSections.InnerKeepsInv(c, prefix, initial, s, t, p, m);
    } else {
      InnerKeepsInv(c, prefix, initial, s, t, p, m);
    }
  }

  lemma InnerOfKeepsOps(c: Codec, l: Layout, s: Shared, t: Shared, p: Pid, m: Move)
    requires InnerOf(c, l, s, t, p, m)
    ensures t.inside.Keys == s.inside.Keys && forall q :: q in s.inside ==> t.inside[q].op == s.inside[q].op
    ensures Readers(t.inside) == Readers(s.inside)
  {
    assert t.inside.Keys == s.inside.Keys;
    assert forall q :: q in s.inside ==> t.inside[q].op == s.inside[q].op;
  }

  /** No step inside the lock, blob writes included, reaches the word. */
  lemma InsideKeepsInv(c: Codec, l: Layout, initial: Database, s: State, t: State, p: Pid, m: Move, w: RwWord)
    requires Faithful(c) && StateInv(c, l, initial, s, w) && NextStep(c, l, s, t, p, Inside(m))
    ensures StateInv(c, l, initial, t, w)
  {
    InnerOfKeepsInv(c, l, l.enc(w), initial, s.shared, t.shared, p, m);
    InnerOfKeepsOps(c, l, s.shared, t.shared, p, m);
  }

  lemma StepKeepsInv(c: Codec, l: Layout, initial: Database, s: State, t: State, p: Pid, step: Step, w: RwWord)
    returns (v: RwWord)
    requires Faithful(c) && Sound(l)
    requires StateInv(c, l, initial, s, w) && NextStep(c, l, s, t, p, step)
    ensures StateInv(c, l, initial, t, v)
  {
    v := w;
    match step {
      case Acquire =>
        AcquireKeepsInv(c, l, initial, s, t, p, w);
        v := Granted(l, w, s.procs[p].op).value;
      case Inside(m) => InsideKeepsInv(c, l, initial, s, t, p, m, w);
      case Release =>
        ReleaseKeepsInv(c, l, initial, s, t, p, w);
        v := Released(w);
      case _ =>
    }
  }

  function InitialDatabase(c: Codec, l: Layout, s: State): Database
    requires LoadOf(c, l, s.shared.file).Some?
  {
    LoadOf(c, l, s.shared.file).value
  }

  lemma {:induction false} RunKeepsInv(c: Codec, l: Layout, trace: seq<State>, n: nat) returns (w: RwWord)
    requires Faithful(c) && Sound(l) && Run(c, l, trace) && n < |trace|
    ensures StateInv(c, l, InitialDatabase(c, l, trace[0]), trace[n], w)
  {
    if n == 0 {
      w := FREE;
      assert Readers(trace[0].shared.inside) == {};
      assert |l.enc(w)| == l.size;
    } else {
      var before := RunKeepsInv(c, l, trace, n - 1);
      assert Follows(c, l, trace, n - 1);
      var p, step :| NextStep(c, l, trace[n - 1], trace[n], p, step);
      w := StepKeepsInv(c, l, InitialDatabase(c, l, trace[0]), trace[n - 1], trace[n], p, step, before);
    }
  }

  /** What a process inside the lock may have come to. */
  ghost predicate Correct(c: Codec, l: Layout, file: seq<byte>, now: Database, a: Active) {
    && (a.phase.Loaded? ==> a.phase.db == now)
    && (a.phase.Failed? ==>
          l.bounded && a.op.WriteOp? && !RegionStore.HasRoom(c, |file|, l.size, a.op.update(now)))
  }

  /**
   * Both stores are linearizable. At every moment the word that the file starts with counts the
   * processes inside, so exclusion rests on no blob write reaching it, and none does. An operation
   * fails only when it is a write whose result no region of this size could hold.
   */
  lemma Linearizable(c: Codec, l: Layout, trace: seq<State>, n: nat)
    requires Faithful(c) && Sound(l) && Run(c, l, trace) && n < |trace|
    ensures var (s, initial) := (trace[n].shared, InitialDatabase(c, l, trace[0]));
            && l.size <= |s.file| && Counts(WordIn(l, s.file), s.inside)
            && Exclusive(s.inside)
            && (NobodyWriting(s) ==> LoadOf(c, l, s.file) == Some(Replay(initial, s.history)))
            && Legal(initial, s.history)
            && forall p :: p in s.inside ==> Correct(c, l, s.file, Replay(initial, s.history), s.inside[p])
  {
    var w := RunKeepsInv(c, l, trace, n);
    var s, initial := trace[n].shared, InitialDatabase(c, l, trace[0]);
    WordIsRead(l, w, s);
    forall p | p in s.inside ensures Correct(c, l, s.file, Replay(initial, s.history), s.inside[p]) {
      if l.bounded {
        assert RegionSections.PhaseOk(c, l.size, s.file, Replay(initial, s.history), s.inside[p]);
        if s.inside[p].op.WriteOp? {
          RegionStore.FitsIff(c, |s.file|, l.size, s.inside[p].op.update(Replay(initial, s.history)));
        }
      } else {
        assert PhaseOk(c, l.size, s.file, Replay(initial, s.history), s.inside[p]);
      }
    }
  }

  // ----- Nobody is stuck -----

  /** The word admits a caller exactly when nobody inside conflicts with it, and a reader is counted. */
  lemma GrantedIff(l: Layout, w: RwWord, inside: map<Pid, Active>, op: Op)
    requires Counts(w, inside)
    ensures Granted(l, w, op).Some?
            <==> CanEnter(inside, op) && (op.ReadOp? ==> |Readers(inside)| < l.most)
  {
    if Granted(l, w, op).Some? { WordAdmits(w, inside, op); }
    if CanEnter(inside, op) && op.WriteOp? { assert Readers(inside) == {}; }
  }

  /** In every run: a process that waits can take the lock exactly then. */
  lemma AcquireEnabledIff(c: Codec, l: Layout, trace: seq<State>, n: nat, p: Pid)
    requires Faithful(c) && Sound(l) && Run(c, l, trace) && n < |trace|
    requires p in trace[n].procs && trace[n].procs[p].Waiting?
    ensures (exists t :: NextStep(c, l, trace[n], t, p, Acquire))
            <==> && CanEnter(trace[n].shared.inside, trace[n].procs[p].op)
                 && (trace[n].procs[p].op.ReadOp? ==> |Readers(trace[n].shared.inside)| < l.most)
  {
    var w := RunKeepsInv(c, l, trace, n);
    var s, op := trace[n], trace[n].procs[p].op;
    WordIsRead(l, w, s.shared);
    GrantedIff(l, w, s.shared.inside, op);
    var v := Granted(l, w, op);
    if v.Some? {
      var t := State(s.procs[p := Holding],
                     Shared(PutWord(l, s.shared.file, v.value), s.shared.inside[p := Active(op, Entered)],
                            s.shared.history));
      assert NextStep(c, l, s, t, p, Acquire);
    }
  }

  ghost predicate CanStep(c: Codec, l: Layout, s: State, p: Pid) {
    exists t, step: Step :: !step.Exit? && NextStep(c, l, s, t, p, step)
  }

  /** And a process that holds the lock can always go on, to the release. */
  lemma HolderCanStep(c: Codec, l: Layout, trace: seq<State>, n: nat, p: Pid)
    requires Faithful(c) && Sound(l) && Run(c, l, trace) && n < |trace|
    requires p in trace[n].procs && trace[n].procs[p].Holding?
    ensures CanStep(c, l, trace[n], p)
  {
    var w := RunKeepsInv(c, l, trace, n);
    var s, initial := trace[n], InitialDatabase(c, l, trace[0]);
    WordIsRead(l, w, s.shared);
    var m := if l.bounded then RegionSections.NextMove(c, s.shared.inside[p]) else NextMove(c, s.shared.inside[p]);
    if m.Some? {
      var shared := MoveOf(c, l, l.enc(w), initial, s.shared, p, m.value);
      assert NextStep(c, l, s, s.(shared := shared), p, Inside(m.value));
    } else {
      var v := Released(w);
      WordChanges(c, l, initial, s.shared, w, v);
      var shared := LeaveOfExists(c, l, l.enc(v), initial, s.shared.(file := PutWord(l, s.shared.file, v)), p);
      assert NextStep(c, l, s, State(s.procs[p := Idle], shared), p, Release);
    }
  }

  lemma MoveOf(c: Codec, l: Layout, prefix: seq<byte>, initial: Database, s: Shared, p: Pid, m: Move)
    returns (t: Shared)
    requires InvOf(c, l, prefix, initial, s) && p in s.inside && |prefix| == l.size
    requires Some(m) == if l.bounded then RegionSections.NextMove(c, s.inside[p]) else NextMove(c, s.inside[p])
    ensures InnerOf(c, l, s, t, p, m)
  {
    if l.bounded {
      t := RegionSections.CanMove(c, prefix, initial, s, p);
    } else {
      t := CanMove(c, prefix, initial, s, p);
    }
  }

  lemma LeaveOfExists(c: Codec, l: Layout, prefix: seq<byte>, initial: Database, s: Shared, p: Pid)
    returns (t: Shared)
    requires InvOf(c, l, prefix, initial, s) && p in s.inside
    requires (if l.bounded then RegionSections.NextMove(c, s.inside[p]) else NextMove(c, s.inside[p])) == None
    ensures LeaveOf(c, l, s, t, p)
  {
    if l.bounded {
      t := RegionSections.CanLeave(c, prefix, initial, s, p);
    } else {
      t := CanLeave(c, prefix, initial, s, p);
    }
  }

  /**
   * A process between operations may fork, begin any operation and exit, and one that waits may exit;
   * none of this touches the store or another process.
   */
  lemma IdleIsFree(c: Codec, l: Layout, s: State, p: Pid, child: Pid, op: Op, t: State)
    requires p in s.procs && l.size <= |s.shared.file|
    ensures s.procs[p].Idle? && child !in s.procs ==>
              (NextStep(c, l, s, t, p, Fork(child))
               <==> t.shared == s.shared && t.procs - {child} == s.procs && child in t.procs && t.procs[child].Idle?)
    ensures s.procs[p].Idle? ==>
              (NextStep(c, l, s, t, p, Begin(op))
               <==> t.shared == s.shared && t.procs - {p} == s.procs - {p} && p in t.procs && t.procs[p] == Waiting(op))
    ensures !s.procs[p].Holding? ==>
              (NextStep(c, l, s, t, p, Exit) <==> t.shared == s.shared && t.procs == s.procs - {p})
  {
    if child !in s.procs && child in t.procs && t.procs - {child} == s.procs {
      assert s.procs - {child} == s.procs;
      PutBack(s.procs, t.procs, child);
    }
    if p in t.procs && t.procs - {p} == s.procs - {p} { PutBack(s.procs, t.procs, p); }
  }

  lemma PutBack(before: map<Pid, Pc>, after: map<Pid, Pc>, p: Pid)
    requires p in after && after - {p} == before - {p}
    ensures after == before[p := after[p]]
  {
    forall q | q != p ensures q in after <==> q in before {
      assert q in after - {p} <==> q in before - {p};
    }
    forall q | q != p && q in before ensures q in after && after[q] == before[q] {
      assert (after - {p})[q] == (before - {p})[q];
    }
  }

  /** The hypothesis on the layout can be met, in the 56 bytes of a pthread_rwlock_t. */
  lemma SoundLayoutExists(bounded: bool) returns (l: Layout)
    ensures Sound(l) && l.bounded == bounded && l.size == 56 && l.most == 0xFFFF_FFFF
  {
    var enc := (w: RwWord) => ToBytes(2 * w.readers + if w.writer then 1 else 0, 8) + Zeros(48);
    var dec := (s: seq<byte>) =>
      if |s| < 8 then FREE else RwWord(Half(FromBytes(s[..8])), FromBytes(s[..8]) % 2 == 1);
    l := Layout(bounded, 56, 0xFFFF_FFFF, enc, dec);
    forall w: RwWord | w.readers <= l.most ensures |enc(w)| == 56 && dec(enc(w)) == w {
      var n := 2 * w.readers + if w.writer then 1 else 0;
      Power8();
      LengthRoundTrip(n, 8);
      assert enc(w)[..8] == ToBytes(n, 8);
    }
  }

  function Half(n: int): nat {
    if n < 0 then 0 else n / 2
  }
}
