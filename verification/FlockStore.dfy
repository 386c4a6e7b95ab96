// The flock-backed store (-s and -F) as a machine of processes that fork, die, open, close,
// reopen and lock concurrently.
//
// flock(2) locks belong to open file descriptions (OFDs). A forked child inherits the OFDs of its
// parent, so a lock taken through an inherited descriptor excludes nobody that shares it. A handle
// therefore remembers the PID that opened it, and is reopened when the PID differs.

module FlockStore {
  import opened Bytes
  import opened Databases
  import opened Codecs
  import opened Sections

  type OfdId = nat
  type HandleId = nat

  const MAGIC_SIZE := 32

  /** "L_builtin shm v1" and NUL padding. */
  const MAGIC: seq<byte> :=
    [0x4C, 0x5F, 0x62, 0x75, 0x69, 0x6C, 0x74, 0x69, 0x6E, 0x20, 0x73, 0x68, 0x6D, 0x20, 0x76, 0x31] + Zeros(16)

  datatype MagicStatus = HeaderOk | Fresh | Mismatch

  function ClassifyMagic(file: seq<byte>): MagicStatus {
    if |file| < MAGIC_SIZE then Fresh
    else if file[..MAGIC_SIZE] == MAGIC then HeaderOk
    else Mismatch
  }

  datatype Mode = Unlocked | LockSh | LockEx

  /** The kernel's side: who opened the description, and the lock it holds. */
  datatype Ofd = Ofd(opener: Pid, mode: Mode)

  /** A process's side: the descriptor and the PID recorded when it was opened. */
  datatype Handle = Handle(ofd: OfdId, pid: Pid)

  datatype Pc =
    | Idle
    | Refreshing(h: HandleId, op: Op)
    | Checking(h: HandleId, ofd: OfdId, next: Option<Op>)
    | Stamping(h: HandleId, ofd: OfdId, next: Option<Op>)
    | Waiting(h: HandleId, op: Op)
    | Holding(h: HandleId)

  datatype Proc = Proc(handles: map<HandleId, Handle>, pc: Pc)

  datatype State = State(procs: map<Pid, Proc>, ofds: map<OfdId, Ofd>, shared: Shared)

  datatype Step =
    | Fork(child: Pid)
    | Kill
    | Open(h: HandleId, newOfd: OfdId)
    | Close(h: HandleId)
    | Begin(h: HandleId, op: Op)
    | SamePid
    | Reopen(newOfd: OfdId)
    | HeaderFine
    | StampMagic
    | Truncate
    | Lock
    | Inside(m: Move)
    | Unlock

  // ----- The kernel -----

  function Wanted(op: Op): Mode {
    if op.ReadOp? then LockSh else LockEx
  }

  predicate Compatible(a: Mode, b: Mode) {
    a == Unlocked || b == Unlocked || (a == LockSh && b == LockSh)
  }

  /** flock grants a lock, or converts the caller's own, when no other description objects. */
  ghost predicate Grantable(ofds: map<OfdId, Ofd>, o: OfdId, mode: Mode) {
    forall x :: x in ofds && x != o ==> Compatible(ofds[x].mode, mode)
  }

  ghost predicate Referenced(procs: map<Pid, Proc>, o: OfdId) {
    exists p :: p in procs && UsesOfd(procs[p], o)
  }

  ghost predicate UsesOfd(proc: Proc, o: OfdId) {
    || ((proc.pc.Checking? || proc.pc.Stamping?) && proc.pc.ofd == o)
    || exists h :: h in proc.handles && proc.handles[h].ofd == o
  }

  /** A description, and the lock on it, goes away with its last descriptor. */
  ghost function Collect(procs: map<Pid, Proc>, ofds: map<OfdId, Ofd>): map<OfdId, Ofd> {
    map o | o in ofds && Referenced(procs, o) :: ofds[o]
  }

  // ----- Steps -----

  ghost function SetPc(s: State, p: Pid, pc: Pc): State
    requires p in s.procs
  {
    s.(procs := s.procs[p := s.procs[p].(pc := pc)])
  }

  /** The new description replaces the handle's old one, which is closed. */
  ghost function Install(s: State, p: Pid): State
    requires p in s.procs && (s.procs[p].pc.Checking? || s.procs[p].pc.Stamping?)
  {
    var pc := s.procs[p].pc;
    var after := match pc.next case None => Idle case Some(op) => Waiting(pc.h, op);
    var procs := s.procs[p := Proc(s.procs[p].handles[pc.h := Handle(pc.ofd, p)], after)];
    s.(procs := procs, ofds := Collect(procs, s.ofds))
  }

  ghost predicate NextStep(c: Codec, s: State, t: State, p: Pid, step: Step) {
    && p in s.procs
    && var me := s.procs[p];
       match step
       case Fork(child) =>
         && me.pc.Idle? && child !in s.procs
         && t == s.(procs := s.procs[child := me])
       case Kill =>
         var procs := s.procs - {p};
         && (p in s.shared.inside ==> Die(s.shared, t.shared, p))
         && (p !in s.shared.inside ==> t.shared == s.shared)
         && t.procs == procs && t.ofds == Collect(procs, s.ofds)
       case Open(h, o) =>
         && me.pc.Idle? && h !in me.handles && o !in s.ofds
         && t == SetPc(s, p, Checking(h, o, None)).(ofds := s.ofds[o := Ofd(p, Unlocked)])
       case Close(h) =>
         && me.pc.Idle? && h in me.handles
         && var procs := s.procs[p := me.(handles := me.handles - {h})];
            t == s.(procs := procs, ofds := Collect(procs, s.ofds))
       case Begin(h, op) =>
         && me.pc.Idle? && h in me.handles
         && t == SetPc(s, p, Refreshing(h, op))
       case SamePid =>
         && me.pc.Refreshing? && me.pc.h in me.handles && me.handles[me.pc.h].pid == p
         && t == SetPc(s, p, Waiting(me.pc.h, me.pc.op))
       case Reopen(o) =>
         && me.pc.Refreshing? && me.pc.h in me.handles && me.handles[me.pc.h].pid != p && o !in s.ofds
         && t == SetPc(s, p, Checking(me.pc.h, o, Some(me.pc.op))).(ofds := s.ofds[o := Ofd(p, Unlocked)])
       case HeaderFine =>
         && me.pc.Checking? && ClassifyMagic(s.shared.file) == HeaderOk
         && t == Install(s, p)
       case StampMagic =>
         && me.pc.Checking? && ClassifyMagic(s.shared.file) != HeaderOk
         && t == SetPc(s, p, Stamping(me.pc.h, me.pc.ofd, me.pc.next)).(
                   shared := s.shared.(file := WriteAt(s.shared.file, 0, MAGIC)))
       case Truncate =>
         && me.pc.Stamping?
         && t == Install(s, p).(shared := s.shared.(file := SetLen(s.shared.file, MAGIC_SIZE)))
       case Lock =>
         && me.pc.Waiting? && me.pc.h in me.handles && me.handles[me.pc.h].ofd in s.ofds
         && var o := me.handles[me.pc.h].ofd;
            && Grantable(s.ofds, o, Wanted(me.pc.op))
            && Enter(s.shared, t.shared, p, me.pc.op)
            && t.ofds == s.ofds[o := s.ofds[o].(mode := Wanted(me.pc.op))]
            && t.procs == s.procs[p := me.(pc := Holding(me.pc.h))]
       case Inside(m) =>
         && me.pc.Holding?
         && Inner(c, MAGIC_SIZE, s.shared, t.shared, p, m)
         && t == s.(shared := t.shared)
       case Unlock =>
         && me.pc.Holding? && me.pc.h in me.handles && me.handles[me.pc.h].ofd in s.ofds
         && var o := me.handles[me.pc.h].ofd;
            && Leave(c, s.shared, t.shared, p)
            && t.ofds == s.ofds[o := s.ofds[o].(mode := Unlocked)]
            && t.procs == s.procs[p := me.(pc := Idle)]
  }

  ghost predicate Next(c: Codec, s: State, t: State) {
    exists p, step :: NextStep(c, s, t, p, step)
  }

  /** One shell, and a file that an earlier bind has stamped. */
  ghost predicate Init(c: Codec, s: State) {
    && (exists p :: s.procs == map[p := Proc(map[], Idle)])
    && s.ofds == map[]
    && s.shared.inside == map[] && s.shared.history == []
    && MAGIC <= s.shared.file && LoadBlob(c, s.shared.file, MAGIC_SIZE).Some?
  }

  ghost predicate Run(c: Codec, trace: seq<State>) {
    && |trace| > 0 && Init(c, trace[0])
    && forall i :: 0 <= i < |trace| - 1 ==> Follows(c, trace, i)
  }

  ghost predicate Follows(c: Codec, trace: seq<State>, i: nat)
    requires i + 1 < |trace|
  {
    Next(c, trace[i], trace[i + 1])
  }

  // ----- The invariant -----

  /** A recorded PID is the PID that opened the description. */
  ghost predicate HandleOk(ofds: map<OfdId, Ofd>, x: Handle) {
    x.ofd in ofds && ofds[x.ofd].opener == x.pid
  }

  ghost predicate ProcOk(s: State, p: Pid)
    requires p in s.procs
  {
    var me := s.procs[p];
    && (forall h :: h in me.handles ==> HandleOk(s.ofds, me.handles[h]))
    && (me.pc.Refreshing? ==> me.pc.h in me.handles)
    && (me.pc.Checking? ==> me.pc.ofd in s.ofds && s.ofds[me.pc.ofd].opener == p)
    && !me.pc.Stamping?
    && (me.pc.Waiting? || me.pc.Holding? ==> me.pc.h in me.handles && me.handles[me.pc.h].pid == p)
    && (me.pc.Holding? <==> p in s.shared.inside)
    && (me.pc.Holding? ==> s.ofds[me.handles[me.pc.h].ofd].mode == Wanted(s.shared.inside[p].op))
  }

  ghost predicate StateInv(c: Codec, initial: Database, s: State) {
    && Inv(c, MAGIC, initial, s.shared)
    && s.shared.inside.Keys <= s.procs.Keys
    && forall p :: p in s.procs ==> ProcOk(s, p)
  }

  /** Two processes past `refresh` never lock through the same description. */
  lemma DistinctOfds(c: Codec, initial: Database, s: State, p: Pid, q: Pid)
    requires StateInv(c, initial, s) && p in s.procs && q in s.procs && p != q
    requires s.procs[p].pc.Waiting? || s.procs[p].pc.Holding?
    requires s.procs[q].pc.Waiting? || s.procs[q].pc.Holding?
    ensures s.procs[p].handles[s.procs[p].pc.h].ofd != s.procs[q].handles[s.procs[q].pc.h].ofd
  {
    assert ProcOk(s, p) && ProcOk(s, q);
  }

  /** What the kernel grants is exclusion among processes, because no description is shared. */
  lemma GrantExcludes(c: Codec, initial: Database, s: State, p: Pid)
    requires StateInv(c, initial, s) && p in s.procs && s.procs[p].pc.Waiting?
    requires Grantable(s.ofds, s.procs[p].handles[s.procs[p].pc.h].ofd, Wanted(s.procs[p].pc.op))
    ensures CanEnter(s.shared.inside, s.procs[p].pc.op)
  {
    assert ProcOk(s, p);
    var op := s.procs[p].pc.op;
    forall q | q in s.shared.inside ensures op.ReadOp? && s.shared.inside[q].op.ReadOp? {
      assert ProcOk(s, q);
      DistinctOfds(c, initial, s, p, q);
      assert Compatible(s.ofds[s.procs[q].handles[s.procs[q].pc.h].ofd].mode, Wanted(op));
    }
  }

  lemma CollectKeeps(procs: map<Pid, Proc>, ofds: map<OfdId, Ofd>, p: Pid, o: OfdId)
    requires p in procs && UsesOfd(procs[p], o) && o in ofds
    ensures o in Collect(procs, ofds) && Collect(procs, ofds)[o] == ofds[o]
  {
    assert Referenced(procs, o);
  }

  ghost predicate SameInside(s: State, t: State, q: Pid) {
    && (q in s.shared.inside <==> q in t.shared.inside)
    && (q in s.shared.inside ==> s.shared.inside[q].op == t.shared.inside[q].op)
  }

  /** A process that did not move keeps its facts when its descriptions and its lock stay. */
  lemma Unmoved(s: State, t: State, q: Pid)
    requires q in s.procs && q in t.procs && t.procs[q] == s.procs[q]
    requires ProcOk(s, q) && SameInside(s, t, q)
    requires forall o :: o in s.ofds && UsesOfd(s.procs[q], o) ==> o in t.ofds && t.ofds[o].opener == s.ofds[o].opener
    requires s.procs[q].pc.Holding? ==>
               var o := s.procs[q].handles[s.procs[q].pc.h].ofd;
               o in t.ofds && t.ofds[o].mode == s.ofds[o].mode
    ensures ProcOk(t, q)
  {
    forall h | h in s.procs[q].handles ensures HandleOk(t.ofds, t.procs[q].handles[h]) {
      assert HandleOk(s.ofds, s.procs[q].handles[h]);
      assert UsesOfd(s.procs[q], s.procs[q].handles[h].ofd);
    }
  }

  /** The same, when the only loss is that unreferenced descriptions are collected. */
  lemma UnmovedByCollect(s: State, t: State, q: Pid)
    requires q in s.procs && q in t.procs && t.procs[q] == s.procs[q]
    requires ProcOk(s, q) && SameInside(s, t, q)
    requires t.ofds == Collect(t.procs, s.ofds)
    ensures ProcOk(t, q)
  {
    forall o | o in s.ofds && UsesOfd(s.procs[q], o) ensures o in t.ofds && t.ofds[o] == s.ofds[o] {
      CollectKeeps(t.procs, s.ofds, q, o);
    }
    if s.procs[q].pc.Holding? {
      var h := s.procs[q].pc.h;
      assert HandleOk(s.ofds, s.procs[q].handles[h]) && UsesOfd(s.procs[q], s.procs[q].handles[h].ofd);
    }
    Unmoved(s, t, q);
  }

  /** Steps that only open, close or forget descriptors. */
  lemma BookkeepingKeepsInv(c: Codec, initial: Database, s: State, t: State, p: Pid, step: Step)
    requires StateInv(c, initial, s) && NextStep(c, s, t, p, step)
    requires step.Fork? || step.Open? || step.Close? || step.Begin? || step.SamePid? || step.Reopen?
    ensures StateInv(c, initial, t)
  {
    assert ProcOk(s, p);
    forall q | q in t.procs ensures ProcOk(t, q) {
      if step.Fork? && q == step.child {
        forall h | h in t.procs[q].handles ensures HandleOk(t.ofds, t.procs[q].handles[h]) {
          assert HandleOk(s.ofds, s.procs[p].handles[h]);
        }
      } else if q == p {
        forall h | h in t.procs[q].handles ensures HandleOk(t.ofds, t.procs[q].handles[h]) {
          assert HandleOk(s.ofds, s.procs[p].handles[h]);
          if step.Close? {
            assert UsesOfd(t.procs[p], t.procs[p].handles[h].ofd);
            CollectKeeps(t.procs, s.ofds, p, t.procs[p].handles[h].ofd);
          }
        }
      } else if step.Close? {
        UnmovedByCollect(s, t, q);
      } else {
        Unmoved(s, t, q);
      }
    }
  }

  lemma KillKeepsInv(c: Codec, initial: Database, s: State, t: State, p: Pid)
    requires StateInv(c, initial, s) && NextStep(c, s, t, p, Kill)
    ensures StateInv(c, initial, t)
  {
    if p in s.shared.inside { DieKeepsInv(c, MAGIC, initial, s.shared, t.shared, p); }
    forall q | q in t.procs ensures ProcOk(t, q) {
      assert ProcOk(s, q);
      UnmovedByCollect(s, t, q);
    }
  }

  /** The header is intact at every moment, so a reopen never touches the file. */
  lemma HeaderAlwaysFine(c: Codec, initial: Database, s: Shared)
    requires Inv(c, MAGIC, initial, s)
    ensures ClassifyMagic(s.file) == HeaderOk
  {
    assert s.file[..MAGIC_SIZE] == MAGIC;
  }

  lemma HeaderFineKeepsInv(c: Codec, initial: Database, s: State, t: State, p: Pid)
    requires StateInv(c, initial, s) && NextStep(c, s, t, p, HeaderFine)
    ensures StateInv(c, initial, t)
  {
    assert ProcOk(s, p);
    var pc := s.procs[p].pc;
    forall q | q in t.procs ensures ProcOk(t, q) {
      assert ProcOk(s, q);
      if q != p {
        UnmovedByCollect(s, t, q);
      } else {
        forall h | h in t.procs[p].handles ensures HandleOk(t.ofds, t.procs[p].handles[h]) {
          assert h != pc.h ==> HandleOk(s.ofds, s.procs[p].handles[h]);
          assert UsesOfd(t.procs[p], t.procs[p].handles[h].ofd);
          CollectKeeps(t.procs, s.ofds, p, t.procs[p].handles[h].ofd);
        }
      }
    }
  }

  /** The processes that stand by while p takes or releases its lock. */
  lemma OthersUnmoved(c: Codec, initial: Database, s: State, t: State, p: Pid, o: OfdId)
    requires StateInv(c, initial, s) && p in s.procs && (s.procs[p].pc.Waiting? || s.procs[p].pc.Holding?)
    requires o == s.procs[p].handles[s.procs[p].pc.h].ofd && o in s.ofds
    requires t.ofds.Keys == s.ofds.Keys && t.ofds[o].opener == s.ofds[o].opener
    requires forall x :: x in s.ofds && x != o ==> t.ofds[x] == s.ofds[x]
    requires t.procs.Keys == s.procs.Keys
    requires forall q :: q in s.procs && q != p ==> t.procs[q] == s.procs[q] && SameInside(s, t, q)
    ensures forall q :: q in t.procs && q != p ==> ProcOk(t, q)
  {
    forall q | q in t.procs && q != p ensures ProcOk(t, q) {
      assert ProcOk(s, q);
      if s.procs[q].pc.Holding? {
        assert HandleOk(s.ofds, s.procs[q].handles[s.procs[q].pc.h]);
        DistinctOfds(c, initial, s, p, q);
      }
      Unmoved(s, t, q);
    }
  }

  lemma HandlesStayOk(s: State, t: State, p: Pid)
    requires p in s.procs && ProcOk(s, p) && p in t.procs && t.procs[p].handles == s.procs[p].handles
    requires forall x :: x in s.ofds ==> x in t.ofds && t.ofds[x].opener == s.ofds[x].opener
    ensures forall h :: h in t.procs[p].handles ==> HandleOk(t.ofds, t.procs[p].handles[h])
  {
    forall h | h in t.procs[p].handles ensures HandleOk(t.ofds, t.procs[p].handles[h]) {
      assert HandleOk(s.ofds, s.procs[p].handles[h]);
    }
  }

  lemma LockKeepsInv(c: Codec, initial: Database, s: State, t: State, p: Pid)
    requires StateInv(c, initial, s) && NextStep(c, s, t, p, Lock)
    ensures StateInv(c, initial, t)
  {
    GrantExcludes(c, initial, s, p);
    EnterKeepsInv(c, MAGIC, initial, s.shared, t.shared, p, s.procs[p].pc.op);
    LockKeepsProcs(c, initial, s, t, p);
  }

  lemma LockKeepsProcs(c: Codec, initial: Database, s: State, t: State, p: Pid)
    requires StateInv(c, initial, s) && NextStep(c, s, t, p, Lock)
    ensures forall q :: q in t.procs ==> ProcOk(t, q)
  {
    assert ProcOk(s, p);
    var o := s.procs[p].handles[s.procs[p].pc.h].ofd;
    forall q | q in s.procs && q != p ensures t.procs[q] == s.procs[q] && SameInside(s, t, q) {}
    OthersUnmoved(c, initial, s, t, p, o);
    HandlesStayOk(s, t, p);
    assert ProcOk(t, p);
  }

  lemma InsideKeepsInv(c: Codec, initial: Database, s: State, t: State, p: Pid, m: Move)
    requires Faithful(c)
    requires StateInv(c, initial, s) && NextStep(c, s, t, p, Inside(m))
    ensures StateInv(c, initial, t)
  {
    InnerKeepsInv(c, MAGIC, initial, s.shared, t.shared, p, m);
    forall q | q in t.procs ensures ProcOk(t, q) {
      assert ProcOk(s, q);
    }
  }

  lemma UnlockKeepsInv(c: Codec, initial: Database, s: State, t: State, p: Pid)
    requires Faithful(c)
    requires StateInv(c, initial, s) && NextStep(c, s, t, p, Unlock)
    ensures StateInv(c, initial, t)
  {
    LeaveKeepsInv(c, MAGIC, initial, s.shared, t.shared, p);
    UnlockKeepsProcs(c, initial, s, t, p);
  }

  lemma UnlockKeepsProcs(c: Codec, initial: Database, s: State, t: State, p: Pid)
    requires StateInv(c, initial, s) && NextStep(c, s, t, p, Unlock)
    ensures forall q :: q in t.procs ==> ProcOk(t, q)
  {
    assert ProcOk(s, p);
    var o := s.procs[p].handles[s.procs[p].pc.h].ofd;
    forall q | q in s.procs && q != p ensures t.procs[q] == s.procs[q] && SameInside(s, t, q) {}
    OthersUnmoved(c, initial, s, t, p, o);
    HandlesStayOk(s, t, p);
    assert ProcOk(t, p);
  }

  lemma StepKeepsInv(c: Codec, initial: Database, s: State, t: State, p: Pid, step: Step)
    requires Faithful(c)
    requires StateInv(c, initial, s) && NextStep(c, s, t, p, step)
    ensures StateInv(c, initial, t)
  {
    assert ProcOk(s, p);
    HeaderAlwaysFine(c, initial, s.shared);
    if step.Kill? {
      KillKeepsInv(c, initial, s, t, p);
    } else if step.HeaderFine? {
      HeaderFineKeepsInv(c, initial, s, t, p);
    } else if step.Lock? {
      LockKeepsInv(c, initial, s, t, p);
    } else if step.Inside? {
      InsideKeepsInv(c, initial, s, t, p, step.m);
    } else if step.Unlock? {
      UnlockKeepsInv(c, initial, s, t, p);
    } else {
      BookkeepingKeepsInv(c, initial, s, t, p, step);
    }
  }

  function InitialDatabase(c: Codec, s: State): Database
    requires LoadBlob(c, s.shared.file, MAGIC_SIZE).Some?
  {
    LoadBlob(c, s.shared.file, MAGIC_SIZE).value
  }

  lemma {:induction false} RunKeepsInv(c: Codec, trace: seq<State>, n: nat)
    requires Faithful(c) && Run(c, trace) && n < |trace|
    ensures StateInv(c, InitialDatabase(c, trace[0]), trace[n])
  {
    if n == 0 {
      assert trace[0].shared.history == [];
    } else {
      RunKeepsInv(c, trace, n - 1);
      assert Follows(c, trace, n - 1);
      var p, step :| NextStep(c, trace[n - 1], trace[n], p, step);
      StepKeepsInv(c, InitialDatabase(c, trace[0]), trace[n - 1], trace[n], p, step);
    }
  }

  // ----- What holds in every run -----

  /**
   * Linearizability. At every moment without a write in progress the file holds exactly the
   * committed closures applied in lock order, every read returned the database current at its
   * place in that order, and no operation failed or saw half a blob.
   */
  lemma Linearizable(c: Codec, trace: seq<State>, n: nat)
    requires Faithful(c) && Run(c, trace) && n < |trace|
    ensures var s, initial := trace[n].shared, InitialDatabase(c, trace[0]);
            && (NobodyWriting(s) ==> LoadBlob(c, s.file, MAGIC_SIZE) == Some(Replay(initial, s.history)))
            && Legal(initial, s.history)
            && (forall p :: p in s.inside ==>
                 && !s.inside[p].phase.Failed?
                 && (s.inside[p].phase.Loaded? ==> s.inside[p].phase.db == Replay(initial, s.history)))
  {
    RunKeepsInv(c, trace, n);
    var s, initial := trace[n].shared, InitialDatabase(c, trace[0]);
    forall p | p in s.inside
      ensures !s.inside[p].phase.Failed?
      ensures s.inside[p].phase.Loaded? ==> s.inside[p].phase.db == Replay(initial, s.history)
    {
      assert PhaseOk(c, MAGIC_SIZE, s.file, Replay(initial, s.history), s.inside[p]);
    }
  }

  /** p is inside a section locked through description o, in mode `mode`. */
  ghost predicate LockedThrough(s: State, p: Pid, o: OfdId, mode: Mode) {
    Holds(s, p, o) && mode == Wanted(s.shared.inside[p].op)
  }

  /**
   * Exclusion: a process in a LOCK_EX section is alone, whoever forked, died or reused a PID,
   * because no two live processes ever lock through one description.
   */
  lemma MutualExclusion(c: Codec, trace: seq<State>, n: nat, p: Pid, q: Pid, o: OfdId, x: OfdId, m: Mode, k: Mode)
    requires Faithful(c) && Run(c, trace) && n < |trace| && p != q
    requires LockedThrough(trace[n], p, o, m) && LockedThrough(trace[n], q, x, k)
    ensures o != x && m == k == LockSh
  {
    RunKeepsInv(c, trace, n);
    DistinctOfds(c, InitialDatabase(c, trace[0]), trace[n], p, q);
  }

  /** Reopening is invisible: at no moment, mid-write included, would a reopen stamp or truncate. */
  lemma ReopenNeverStamps(c: Codec, trace: seq<State>, n: nat, p: Pid, t: State)
    requires Faithful(c) && Run(c, trace) && n < |trace|
    ensures MAGIC <= trace[n].shared.file && ClassifyMagic(trace[n].shared.file) == HeaderOk
    ensures !NextStep(c, trace[n], t, p, StampMagic) && !NextStep(c, trace[n], t, p, Truncate)
  {
    RunKeepsInv(c, trace, n);
    HeaderAlwaysFine(c, InitialDatabase(c, trace[0]), trace[n].shared);
    if p in trace[n].procs { assert ProcOk(trace[n], p); }
  }

  /**
   * Why `refresh` compares PIDs: if parent and child went straight to flock with the descriptor
   * the child inherited, the kernel would admit both to LOCK_EX at once.
   */
  lemma InheritedDescriptorExcludesNobody(c: Codec, f: Database -> Database, g: Database -> Database)
    returns (s: State, t: State, u: State)
    ensures forall p :: p in s.procs ==> s.procs[p].handles == map[0 := Handle(7, 1)]
    ensures s.procs == map[1 := Proc(map[0 := Handle(7, 1)], Waiting(0, WriteOp(f))),
                           2 := Proc(map[0 := Handle(7, 1)], Waiting(0, WriteOp(g)))]
    ensures s.ofds == map[7 := Ofd(1, Unlocked)] && s.shared == Shared(MAGIC, map[], [])
    ensures u.shared.inside.Keys == {1, 2}
    ensures NextStep(c, s, t, 1, Lock) && NextStep(c, t, u, 2, Lock) && !Exclusive(u.shared.inside)
  {
    var handles := map[0 := Handle(7, 1)];
    var procs := map[1 := Proc(handles, Waiting(0, WriteOp(f))), 2 := Proc(handles, Waiting(0, WriteOp(g)))];
    var none: map<Pid, Active> := map[];
    s := State(procs, map[7 := Ofd(1, Unlocked)], Shared(MAGIC, none, []));
    t := State(procs[1 := Proc(handles, Holding(0))], map[7 := Ofd(1, LockEx)],
               Shared(MAGIC, none[1 := Active(WriteOp(f), Entered)], []));
    u := State(t.procs[2 := Proc(handles, Holding(0))], map[7 := Ofd(1, LockEx)],
               Shared(MAGIC, t.shared.inside[2 := Active(WriteOp(g), Entered)], []));
    assert NextStep(c, s, t, 1, Lock);
    assert NextStep(c, t, u, 2, Lock);
    assert 1 in u.shared.inside && 2 in u.shared.inside && u.shared.inside[1].op.WriteOp?;
  }

  // ----- A lock that nobody holds is free -----

  /** p is inside a section, in whatever mode, locked through description o. */
  ghost predicate Holds(s: State, p: Pid, o: OfdId) {
    && p in s.procs && p in s.shared.inside
    && var me := s.procs[p];
       me.pc.Holding? && me.pc.h in me.handles && me.handles[me.pc.h].ofd == o
  }

  ghost predicate Held(s: State, o: OfdId) {
    exists p :: Holds(s, p, o)
  }

  /** A process died between moments k and k + 1, inside a section that it had locked through o. */
  ghost predicate DiedInside(trace: seq<State>, k: nat, p: Pid, o: OfdId)
    requires k + 1 < |trace|
  {
    Holds(trace[k], p, o) && p !in trace[k + 1].procs
  }

  /** A process died inside, and the description that it had locked has been open ever since. */
  ghost predicate Orphaned(trace: seq<State>, n: nat, o: OfdId)
    requires n < |trace|
  {
    exists k, p :: 0 <= k < n && DiedInside(trace, k, p, o) && OpenSince(trace, k + 1, n, o)
  }

  ghost predicate OpenSince(trace: seq<State>, k: nat, n: nat, o: OfdId)
    requires n < |trace|
  {
    forall j :: k <= j <= n ==> o in trace[j].ofds
  }

  ghost predicate AllReferenced(s: State) {
    forall o :: o in s.ofds ==> Referenced(s.procs, o)
  }

  /** The process that moved keeps using a description that it used, when it closes nothing. */
  lemma MoverKeepsUsing(c: Codec, s: State, t: State, p: Pid, step: Step, o: OfdId)
    requires NextStep(c, s, t, p, step) && UsesOfd(s.procs[p], o)
    requires !step.Kill? && !step.Close? && !step.HeaderFine? && !step.StampMagic? && !step.Truncate?
    ensures p in t.procs && UsesOfd(t.procs[p], o)
  {
    var h :| h in s.procs[p].handles && s.procs[p].handles[h].ofd == o;
    assert t.procs[p].handles == s.procs[p].handles;
  }

  lemma OthersUntouched(c: Codec, s: State, t: State, p: Pid, step: Step, q: Pid)
    requires NextStep(c, s, t, p, step) && q in s.procs && q != p
    ensures q in t.procs && t.procs[q] == s.procs[q]
  {
  }

  lemma NoNewDescription(c: Codec, s: State, t: State, p: Pid, step: Step, o: OfdId)
    requires NextStep(c, s, t, p, step) && o in t.ofds && o !in s.ofds
    ensures p in t.procs && UsesOfd(t.procs[p], o)
  {
  }

  lemma StepKeepsReferenced(c: Codec, initial: Database, s: State, t: State, p: Pid, step: Step)
    requires StateInv(c, initial, s) && AllReferenced(s) && NextStep(c, s, t, p, step)
    ensures AllReferenced(t)
  {
    HeaderAlwaysFine(c, initial, s.shared);
    assert ProcOk(s, p);
    if step.Kill? || step.Close? || step.HeaderFine? {
      CollectLeavesReferenced(c, s, t, p, step);
    } else {
      forall o | o in t.ofds ensures Referenced(t.procs, o) {
        if o in s.ofds {
          var q :| q in s.procs && UsesOfd(s.procs[q], o);
          if q == p { MoverKeepsUsing(c, s, t, p, step, o); } else { OthersUntouched(c, s, t, p, step, q); }
        } else {
          NoNewDescription(c, s, t, p, step, o);
        }
      }
    }
  }

  lemma CollectLeavesReferenced(c: Codec, s: State, t: State, p: Pid, step: Step)
    requires NextStep(c, s, t, p, step) && (step.Kill? || step.Close? || step.HeaderFine?)
    ensures AllReferenced(t)
  {
  }

  /** The last close of a description takes it away, and any lock on it. */
  lemma CloseReleases(c: Codec, s: State, t: State, p: Pid, h: HandleId, o: OfdId)
    requires NextStep(c, s, t, p, Close(h)) && s.procs[p].handles[h].ofd == o
    ensures o in t.ofds <==>
              && o in s.ofds
              && ((exists q :: q in s.procs && q != p && UsesOfd(s.procs[q], o))
                  || (exists k :: k in s.procs[p].handles && k != h && s.procs[p].handles[k].ofd == o))
  {
    if k :| k in s.procs[p].handles && k != h && s.procs[p].handles[k].ofd == o {
      assert k in t.procs[p].handles && UsesOfd(t.procs[p], o);
    }
    if q :| q in s.procs && q != p && UsesOfd(s.procs[q], o) { assert UsesOfd(t.procs[q], o); }
  }

  /** What one step does to a locked description: only its holder's end takes the holder away. */
  lemma LockStep(c: Codec, initial: Database, s: State, t: State, p: Pid, step: Step, o: OfdId)
    requires StateInv(c, initial, s) && NextStep(c, s, t, p, step)
    requires o in t.ofds && t.ofds[o].mode != Unlocked
    ensures Holds(t, p, o) || (o in s.ofds && s.ofds[o] == t.ofds[o])
    ensures forall q :: Holds(s, q, o) ==> Holds(t, q, o) || q !in t.procs
  {
    HeaderAlwaysFine(c, initial, s.shared);
    assert ProcOk(s, p);
  }

  /**
   * In every run: a description is locked only while a process inside holds the lock, or since one
   * died inside; and it is open only while a live process refers to it.
   */
  lemma {:induction false} LockedByWhom(c: Codec, trace: seq<State>, n: nat, o: OfdId)
    requires Faithful(c) && Run(c, trace) && n < |trace|
    ensures AllReferenced(trace[n])
    ensures o in trace[n].ofds && trace[n].ofds[o].mode != Unlocked ==>
              Held(trace[n], o) || Orphaned(trace, n, o)
  {
    if n > 0 {
      LockedByWhom(c, trace, n - 1, o);
      RunKeepsInv(c, trace, n - 1);
      assert Follows(c, trace, n - 1);
      var p, step :| NextStep(c, trace[n - 1], trace[n], p, step);
      StepKeepsReferenced(c, InitialDatabase(c, trace[0]), trace[n - 1], trace[n], p, step);
      if o in trace[n].ofds && trace[n].ofds[o].mode != Unlocked {
        LockStep(c, InitialDatabase(c, trace[0]), trace[n - 1], trace[n], p, step, o);
        assert Holds(trace[n], p, o) ==> Held(trace[n], o);
        HolderOrOrphan(trace, n, trace[n - 1], trace[n], o);
      }
    }
  }

  lemma HolderOrOrphan(trace: seq<State>, n: nat, s: State, t: State, o: OfdId)
    requires 0 < n < |trace| && s == trace[n - 1] && t == trace[n] && o in t.ofds
    requires Held(t, o) || Held(s, o) || Orphaned(trace, n - 1, o)
    requires forall q :: Holds(s, q, o) ==> Holds(t, q, o) || q !in t.procs
    ensures Held(t, o) || Orphaned(trace, n, o)
  {
    if Held(s, o) {
      var q :| Holds(s, q, o);
      if !Holds(t, q, o) { assert DiedInside(trace, n - 1, q, o) && OpenSince(trace, n, n, o); }
    } else if Orphaned(trace, n - 1, o) {
      var k, q :| 0 <= k < n - 1 && DiedInside(trace, k, q, o) && OpenSince(trace, k + 1, n - 1, o);
      assert OpenSince(trace, k + 1, n, o);
    }
  }

  /** What a process that waits would lock. */
  ghost predicate WaitsFor(s: State, p: Pid, o: OfdId, op: Op) {
    && p in s.procs
    && var me := s.procs[p];
       me.pc.Waiting? && me.pc.h in me.handles && me.handles[me.pc.h].ofd == o && me.pc.op == op
  }

  /** An orphan stands in the way of this lock. */
  ghost predicate OrphanInTheWay(trace: seq<State>, n: nat, o: OfdId, op: Op)
    requires n < |trace|
  {
    exists x :: x in trace[n].ofds && x != o && Orphaned(trace, n, x)
                && !Compatible(trace[n].ofds[x].mode, Wanted(op))
  }

  /**
   * A process that waits for the lock can take it exactly when no process inside conflicts with it:
   * every unlock, and every death whose descriptors are all closed, lets the next one in. The only
   * exception is a description that a process locked, died inside, and left open in another process.
   */
  lemma LockEnabledIff(c: Codec, trace: seq<State>, n: nat, p: Pid, o: OfdId, op: Op)
    requires Faithful(c) && Run(c, trace) && n < |trace| && WaitsFor(trace[n], p, o, op)
    ensures (exists t :: NextStep(c, trace[n], t, p, Lock))
            <==> CanEnter(trace[n].shared.inside, op) && !OrphanInTheWay(trace, n, o, op)
  {
    var s, initial := trace[n], InitialDatabase(c, trace[0]);
    RunKeepsInv(c, trace, n);
    assert ProcOk(s, p);
    if CanEnter(s.shared.inside, op) && !OrphanInTheWay(trace, n, o, op) {
      forall x | x in s.ofds && x != o && !Compatible(s.ofds[x].mode, Wanted(op)) ensures Held(s, x) {
        LockedByWhom(c, trace, n, x);
      }
      AdmittedIsGranted(c, initial, s, p, o, op);
      assert NextStep(c, s, Locked(s, p), p, Lock);
    }
    if t :| NextStep(c, s, t, p, Lock) { GrantExcludes(c, initial, s, p); }
  }

  ghost function Locked(s: State, p: Pid): State
    requires p in s.procs && s.procs[p].pc.Waiting? && s.procs[p].pc.h in s.procs[p].handles
    requires s.procs[p].handles[s.procs[p].pc.h].ofd in s.ofds
  {
    var me := s.procs[p];
    var o := me.handles[me.pc.h].ofd;
    State(s.procs[p := me.(pc := Holding(me.pc.h))], s.ofds[o := s.ofds[o].(mode := Wanted(me.pc.op))],
          s.shared.(inside := s.shared.inside[p := Active(me.pc.op, Entered)]))
  }

  lemma HolderIsCompatible(c: Codec, initial: Database, s: State, q: Pid, x: OfdId, op: Op)
    requires StateInv(c, initial, s) && Holds(s, q, x) && CanEnter(s.shared.inside, op)
    ensures x in s.ofds && Compatible(s.ofds[x].mode, Wanted(op))
  {
    assert ProcOk(s, q);
  }

  lemma AdmittedIsGranted(c: Codec, initial: Database, s: State, p: Pid, o: OfdId, op: Op)
    requires StateInv(c, initial, s) && WaitsFor(s, p, o, op) && CanEnter(s.shared.inside, op)
    requires forall x :: x in s.ofds && x != o && !Compatible(s.ofds[x].mode, Wanted(op)) ==> Held(s, x)
    ensures Grantable(s.ofds, o, Wanted(op))
  {
    forall x | x in s.ofds && x != o ensures Compatible(s.ofds[x].mode, Wanted(op)) {
      if Held(s, x) {
        var q :| Holds(s, q, x);
        HolderIsCompatible(c, initial, s, q, x, op);
      }
    }
  }

  // ----- Nobody is stuck -----

  ghost predicate CanStep(c: Codec, s: State, p: Pid) {
    exists t, step: Step :: !step.Kill? && NextStep(c, s, t, p, step)
  }

  lemma HolderCanStep(c: Codec, initial: Database, s: State, p: Pid)
    requires StateInv(c, initial, s) && p in s.procs && s.procs[p].pc.Holding?
    ensures CanStep(c, s, p)
  {
    assert ProcOk(s, p);
    var me, a := s.procs[p], s.shared.inside[p];
    var m := NextMove(c, a);
    if m.Some? {
      var shared := CanMove(c, MAGIC, initial, s.shared, p);
      assert NextStep(c, s, s.(shared := shared), p, Inside(m.value));
    } else {
      var shared := CanLeave(c, MAGIC, initial, s.shared, p);
      var o := me.handles[me.pc.h].ofd;
      var t := State(s.procs[p := me.(pc := Idle)], s.ofds[o := s.ofds[o].(mode := Unlocked)], shared);
      assert NextStep(c, s, t, p, Unlock);
    }
  }

  lemma {:induction false} FreshOfd(used: set<OfdId>) returns (o: OfdId)
    ensures forall x :: x in used ==> x < o
  {
    o := 0;
    if used != {} {
      var y :| y in used;
      var z := FreshOfd(used - {y});
      o := if y < z then z else y + 1;
      forall x | x in used ensures x < o { assert x != y ==> x in used - {y}; }
    }
  }

  /** `refresh`, with or without reopening, always gets through to the lock. */
  lemma RefreshCanStep(c: Codec, initial: Database, s: State, p: Pid)
    requires StateInv(c, initial, s) && p in s.procs && (s.procs[p].pc.Refreshing? || s.procs[p].pc.Checking?)
    ensures CanStep(c, s, p)
  {
    assert ProcOk(s, p);
    var me := s.procs[p];
    if me.pc.Checking? {
      HeaderAlwaysFine(c, initial, s.shared);
      assert NextStep(c, s, Install(s, p), p, HeaderFine);
    } else if me.handles[me.pc.h].pid == p {
      assert NextStep(c, s, SetPc(s, p, Waiting(me.pc.h, me.pc.op)), p, SamePid);
    } else {
      var o := FreshOfd(s.ofds.Keys);
      var t := SetPc(s, p, Checking(me.pc.h, o, Some(me.pc.op))).(ofds := s.ofds[o := Ofd(p, Unlocked)]);
      assert NextStep(c, s, t, p, Reopen(o));
    }
  }

  /**
   * In every run, a process in the middle of an operation can go on, unless it waits for a lock that
   * an orphan keeps taken, or that conflicts with one that a process inside holds; and then that
   * process can go on.
   */
  lemma NobodyIsStuck(c: Codec, trace: seq<State>, n: nat, p: Pid)
    requires Faithful(c) && Run(c, trace) && n < |trace|
    requires p in trace[n].procs && !trace[n].procs[p].pc.Idle?
    ensures || CanStep(c, trace[n], p)
            || (exists o, op :: WaitsFor(trace[n], p, o, op) && OrphanInTheWay(trace, n, o, op))
            || (exists q :: q in trace[n].shared.inside && q in trace[n].procs && CanStep(c, trace[n], q))
  {
    var s, initial := trace[n], InitialDatabase(c, trace[0]);
    RunKeepsInv(c, trace, n);
    assert ProcOk(s, p);
    if s.procs[p].pc.Waiting? {
      var o, op := s.procs[p].handles[s.procs[p].pc.h].ofd, s.procs[p].pc.op;
      assert WaitsFor(s, p, o, op);
      LockEnabledIff(c, trace, n, p, o, op);
      if !CanEnter(s.shared.inside, op) {
        var q :| q in s.shared.inside;
        assert ProcOk(s, q);
        HolderCanStep(c, initial, s, q);
      }
    } else if s.procs[p].pc.Holding? {
      HolderCanStep(c, initial, s, p);
    } else {
      RefreshCanStep(c, initial, s, p);
    }
  }

  ghost predicate Chain(c: Codec, trace: seq<State>) {
    |trace| > 0 && forall k :: 0 <= k < |trace| - 1 ==> Follows(c, trace, k)
  }

  lemma ChainsJoin(c: Codec, a: seq<State>, b: seq<State>)
    requires Chain(c, a) && Chain(c, b) && Next(c, a[|a| - 1], b[0])
    ensures Chain(c, a + b)
  {
    var t := a + b;
    forall k | 0 <= k < |t| - 1 ensures Follows(c, t, k) {
      if k < |a| - 1 {
        assert Follows(c, a, k) && t[k] == a[k] && t[k + 1] == a[k + 1];
      } else if k >= |a| {
        var i := k - |a|;
        assert Follows(c, b, i) && t[k] == b[i] && t[k + 1] == b[i + 1];
      }
    }
  }

  lemma TwoInChain(c: Codec, s: State, t: State, p: Pid, step: Step)
    requires NextStep(c, s, t, p, step)
    ensures Next(c, s, t) && Chain(c, [s]) && Chain(c, [s, t])
  {
  }

  /** Process 1, 2 and 3 as they are after two forks, with 1 in state `pc`. */
  function Family(pc: Pc): map<Pid, Proc> {
    var handles := map[0 := Handle(7, 1)];
    map[1 := Proc(handles, pc), 2 := Proc(handles, Idle), 3 := Proc(handles, Idle)]
  }

  /** Process 1 opens the store and forks 2 and 3. */
  lemma ForkedFamily(c: Codec) returns (trace: seq<State>)
    ensures |trace| == 5 && Init(c, trace[0]) && Chain(c, trace)
    ensures trace[4] == State(Family(Idle), map[7 := Ofd(1, Unlocked)], Shared(MAGIC, map[], []))
  {
    var prelude := OpenedStore(c);
    var s2 := prelude[2];
    var s3 := s2.(procs := s2.procs[2 := s2.procs[1]]);
    var s4 := s3.(procs := s3.procs[3 := s3.procs[1]]);
    TwoInChain(c, prelude[0], prelude[1], 1, Open(0, 7));
    TwoInChain(c, prelude[1], s2, 1, HeaderFine);
    TwoInChain(c, s2, s3, 1, Fork(2));
    TwoInChain(c, s3, s4, 1, Fork(3));
    ChainsJoin(c, [prelude[0], prelude[1]], [s2]);
    ChainsJoin(c, [prelude[0], prelude[1]] + [s2], [s3, s4]);
    trace := [prelude[0], prelude[1]] + [s2] + [s3, s4];
  }

  /** Process 1 gets into a write. */
  lemma WriterGetsIn(c: Codec, op: Op, s4: State) returns (s5: State, s6: State, s7: State)
    requires op.WriteOp?
    requires s4 == State(Family(Idle), map[7 := Ofd(1, Unlocked)], Shared(MAGIC, map[], []))
    ensures NextStep(c, s4, s5, 1, Begin(0, op)) && NextStep(c, s5, s6, 1, SamePid) && NextStep(c, s6, s7, 1, Lock)
    ensures Holds(s7, 1, 7)
    ensures s7 == State(Family(Holding(0)), map[7 := Ofd(1, LockEx)], Shared(MAGIC, map[1 := Active(op, Entered)], []))
  {
    var none: map<Pid, Active> := map[];
    s5 := s4.(procs := Family(Refreshing(0, op)));
    s6 := s4.(procs := Family(Waiting(0, op)));
    s7 := State(Family(Holding(0)), map[7 := Ofd(1, LockEx)], Shared(MAGIC, none[1 := Active(op, Entered)], []));
  }

  /** And dies. */
  lemma WriterDies(c: Codec, op: Op, s7: State, s8: State)
    requires s7 == State(Family(Holding(0)), map[7 := Ofd(1, LockEx)], Shared(MAGIC, map[1 := Active(op, Entered)], []))
    requires s8 == State(Family(Idle) - {1}, map[7 := Ofd(1, LockEx)], Shared(MAGIC, map[], []))
    ensures NextStep(c, s7, s8, 1, Kill)
  {
    assert UsesOfd(s8.procs[3], 7) by { assert s8.procs[3].handles[0].ofd == 7; }
    assert Referenced(s8.procs, 7);
    assert s8.shared == s7.shared.(inside := s7.shared.inside - {1}) && s8.procs == s7.procs - {1};
  }

  /** Process 2 reopens the store. */
  lemma SurvivorReopens(c: Codec, op: Op, s8: State) returns (s9: State, s10: State)
    requires s8 == State(Family(Idle) - {1}, map[7 := Ofd(1, LockEx)], Shared(MAGIC, map[], []))
    ensures NextStep(c, s8, s9, 2, Begin(0, op)) && NextStep(c, s9, s10, 2, Reopen(8))
    ensures s10 == State(s8.procs[2 := Proc(map[0 := Handle(7, 1)], Checking(0, 8, Some(op)))],
                         map[7 := Ofd(1, LockEx), 8 := Ofd(2, Unlocked)], s8.shared)
    ensures s9.ofds == s8.ofds
  {
    s9 := SetPc(s8, 2, Refreshing(0, op));
    s10 := State(s8.procs[2 := Proc(map[0 := Handle(7, 1)], Checking(0, 8, Some(op)))],
                 s8.ofds[8 := Ofd(2, Unlocked)], s8.shared);
    assert s10.procs == SetPc(s9, 2, Checking(0, 8, Some(op))).procs;
  }

  /** Which closes the descriptor that it had inherited. */
  lemma SurvivorInstalls(c: Codec, op: Op, s10: State) returns (s11: State)
    requires s10 == State((Family(Idle) - {1})[2 := Proc(map[0 := Handle(7, 1)], Checking(0, 8, Some(op)))],
                          map[7 := Ofd(1, LockEx), 8 := Ofd(2, Unlocked)], Shared(MAGIC, map[], []))
    ensures NextStep(c, s10, s11, 2, HeaderFine)
    ensures s11.procs.Keys == {2, 3} && s11.shared == s10.shared && s11.ofds == s10.ofds
    ensures s11.procs[2] == Proc(map[0 := Handle(8, 2)], Waiting(0, op)) && s11.procs[3].pc == Idle
  {
    s11 := Install(s10, 2);
    assert UsesOfd(s11.procs[3], 7) by { assert s11.procs[3].handles[0].ofd == 7; }
    assert UsesOfd(s11.procs[2], 8) by { assert s11.procs[2].handles[0].ofd == 8; }
    assert Referenced(s11.procs, 7) && Referenced(s11.procs, 8);
    assert MAGIC[..MAGIC_SIZE] == MAGIC;
  }

  /** No LOCK_EX while another description is locked. */
  lemma LockedElsewhere(c: Codec, s: State, t: State, p: Pid, o: OfdId, op: Op, x: OfdId)
    requires WaitsFor(s, p, o, op) && op.WriteOp? && x in s.ofds && x != o && s.ofds[x].mode != Unlocked
    ensures !Compatible(s.ofds[x].mode, Wanted(op)) && !NextStep(c, s, t, p, Lock)
  {
  }

  lemma OrphanChain(c: Codec, a: seq<State>, s5: State, s6: State, s7: State, s8: State, s9: State,
                    s10: State, s11: State) returns (trace: seq<State>)
    requires |a| == 5 && Chain(c, a)
    requires Next(c, a[4], s5) && Next(c, s5, s6) && Next(c, s6, s7) && Next(c, s7, s8)
    requires Next(c, s8, s9) && Next(c, s9, s10) && Next(c, s10, s11)
    ensures |trace| == 12 && trace[0] == a[0] && Chain(c, trace)
    ensures trace[7] == s7 && trace[8] == s8 && trace[9] == s9 && trace[10] == s10 && trace[11] == s11
  {
    var b := [s5, s6, s7, s8, s9, s10, s11];
    forall k | 0 <= k < 6 ensures Follows(c, b, k) {}
    ChainsJoin(c, a, b);
    trace := a + b;
  }

  lemma OrphanRun(c: Codec, op: Op) returns (trace: seq<State>)
    requires op.WriteOp?
    ensures |trace| == 12 && Init(c, trace[0]) && Chain(c, trace)
    ensures Holds(trace[7], 1, 7) && trace[8].procs == Family(Idle) - {1}
    ensures 7 in trace[8].ofds && 7 in trace[9].ofds && 7 in trace[10].ofds
    ensures trace[11].procs.Keys == {2, 3} && trace[11].shared.inside == map[]
    ensures trace[11].ofds == map[7 := Ofd(1, LockEx), 8 := Ofd(2, Unlocked)]
    ensures trace[11].procs[2] == Proc(map[0 := Handle(8, 2)], Waiting(0, op)) && trace[11].procs[3].pc == Idle
  {
    var a := ForkedFamily(c);
    var s5, s6, s7 := WriterGetsIn(c, op, a[4]);
    var s8 := State(Family(Idle) - {1}, map[7 := Ofd(1, LockEx)], Shared(MAGIC, map[], []));
    WriterDies(c, op, s7, s8);
    var s9, s10 := SurvivorReopens(c, op, s8);
    var s11 := SurvivorInstalls(c, op, s10);
    trace := OrphanChain(c, a, s5, s6, s7, s8, s9, s10, s11);
  }

  /**
   * The exception happens: process 1 dies in a write, and process 3, which inherited its descriptor,
   * does nothing. Nobody is inside and process 2 has reopened the store, but cannot lock it.
   */
  lemma OrphanBlocks(c: Codec, f: Database -> Database) returns (trace: seq<State>)
    ensures Run(c, trace) && |trace| == 12 && Orphaned(trace, 11, 7)
    ensures trace[11].shared.inside == map[] && trace[11].procs.Keys == {2, 3}
    ensures trace[11].procs[2].pc == Waiting(0, WriteOp(f)) && trace[11].procs[3].pc == Idle
    ensures WaitsFor(trace[11], 2, 8, WriteOp(f)) && OrphanInTheWay(trace, 11, 8, WriteOp(f))
    ensures forall t :: !NextStep(c, trace[11], t, 2, Lock)
  {
    trace := OrphanRun(c, WriteOp(f));
    assert 1 !in trace[8].procs && DiedInside(trace, 7, 1, 7);
    assert OpenSince(trace, 8, 11, 7);
    var last := trace[11];
    forall t ensures !NextStep(c, last, t, 2, Lock) { LockedElsewhere(c, last, t, 2, 8, WriteOp(f), 7); }
  }

  // ----- The machine without the PID test -----

  /** `refresh` that takes every handle for its own. */
  ghost predicate UntestedStep(c: Codec, s: State, t: State, p: Pid, step: Step) {
    || NextStep(c, s, t, p, step)
    || (&& step == SamePid && p in s.procs && s.procs[p].pc.Refreshing?
        && t == SetPc(s, p, Waiting(s.procs[p].pc.h, s.procs[p].pc.op)))
  }

  ghost predicate UntestedNext(c: Codec, s: State, t: State) {
    exists p, step :: UntestedStep(c, s, t, p, step)
  }

  ghost predicate UntestedFollows(c: Codec, trace: seq<State>, k: nat)
    requires k + 1 < |trace|
  {
    UntestedNext(c, trace[k], trace[k + 1])
  }

  ghost predicate UntestedTrace(c: Codec, trace: seq<State>) {
    |trace| > 0 && forall k :: 0 <= k < |trace| - 1 ==> UntestedFollows(c, trace, k)
  }

  /** A process opens the store, with `h` for the handle that it gets. */
  lemma OpenedStore(c: Codec) returns (trace: seq<State>)
    ensures |trace| == 3 && Init(c, trace[0])
    ensures NextStep(c, trace[0], trace[1], 1, Open(0, 7)) && NextStep(c, trace[1], trace[2], 1, HeaderFine)
    ensures trace[2].procs == map[1 := Proc(map[0 := Handle(7, 1)], Idle)]
    ensures trace[2].ofds == map[7 := Ofd(1, Unlocked)] && trace[2].shared == Shared(MAGIC, map[], [])
  {
    var s0 := State(map[1 := Proc(map[], Idle)], map[], Shared(MAGIC, map[], []));
    var s1 := SetPc(s0, 1, Checking(0, 7, None)).(ofds := s0.ofds[7 := Ofd(1, Unlocked)]);
    var s2 := Install(s1, 1);
    assert MAGIC[..MAGIC_SIZE] == MAGIC;
    assert UsesOfd(s2.procs[1], 7) by { assert s2.procs[1].handles[0].ofd == 7; }
    assert Referenced(s2.procs, 7);
    assert s2.ofds == map[7 := Ofd(1, Unlocked)];
    trace := [s0, s1, s2];
  }

  /** It forks, and both processes get past the missing test. */
  lemma UntestedFork(c: Codec, f: Database -> Database, g: Database -> Database, s2: State)
    returns (trace: seq<State>)
    requires s2 == State(map[1 := Proc(map[0 := Handle(7, 1)], Idle)], map[7 := Ofd(1, Unlocked)],
                         Shared(MAGIC, map[], []))
    ensures |trace| == 6 && trace[0] == s2 && UntestedTrace(c, trace)
    ensures trace[5] == State(map[1 := Proc(map[0 := Handle(7, 1)], Waiting(0, WriteOp(f))),
                                  2 := Proc(map[0 := Handle(7, 1)], Waiting(0, WriteOp(g)))], s2.ofds, s2.shared)
  {
    var s3 := s2.(procs := s2.procs[2 := s2.procs[1]]);
    var s4 := SetPc(s3, 1, Refreshing(0, WriteOp(f)));
    var s5 := SetPc(s4, 2, Refreshing(0, WriteOp(g)));
    var s6 := SetPc(s5, 1, Waiting(0, WriteOp(f)));
    var s7 := SetPc(s6, 2, Waiting(0, WriteOp(g)));
    trace := [s2, s3, s4, s5, s6, s7];
    assert UntestedStep(c, s2, s3, 1, Fork(2));
    assert UntestedStep(c, s3, s4, 1, Begin(0, WriteOp(f)));
    assert UntestedStep(c, s4, s5, 2, Begin(0, WriteOp(g)));
    assert UntestedStep(c, s5, s6, 1, SamePid);
    assert UntestedStep(c, s6, s7, 2, SamePid);
  }

  lemma TracesJoin(c: Codec, a: seq<State>, b: seq<State>)
    requires UntestedTrace(c, a) && UntestedTrace(c, b) && a[|a| - 1] == b[0]
    ensures UntestedTrace(c, a + b[1..])
  {
    var t := a + b[1..];
    forall k | 0 <= k < |t| - 1 ensures UntestedFollows(c, t, k) {
      if k < |a| - 1 {
        assert UntestedFollows(c, a, k) && t[k] == a[k] && t[k + 1] == a[k + 1];
      } else {
        var i := k - (|a| - 1);
        assert UntestedFollows(c, b, i) && t[k] == b[i] && t[k + 1] == b[i + 1];
      }
    }
  }

  lemma TwoSteps(c: Codec, s: State, t: State, u: State, p: Pid, q: Pid, first: Step, second: Step)
    requires NextStep(c, s, t, p, first) && NextStep(c, t, u, q, second)
    ensures UntestedTrace(c, [s, t, u])
  {
    assert UntestedStep(c, s, t, p, first) && UntestedStep(c, t, u, q, second);
  }

  /** From there both lock for writing: without the test they are in LOCK_EX at once. */
  lemma UntestedRunIsNotExclusive(c: Codec, f: Database -> Database, g: Database -> Database)
    returns (trace: seq<State>)
    ensures |trace| == 10 && Init(c, trace[0]) && UntestedTrace(c, trace)
    ensures trace[9].shared.inside.Keys == {1, 2} && !Exclusive(trace[9].shared.inside)
  {
    var prelude := OpenedStore(c);
    var forked := UntestedFork(c, f, g, prelude[2]);
    var s, t, u := InheritedDescriptorExcludesNobody(c, f, g);
    TwoSteps(c, prelude[0], prelude[1], prelude[2], 1, 1, Open(0, 7), HeaderFine);
    TwoSteps(c, s, t, u, 1, 2, Lock, Lock);
    assert prelude == [prelude[0], prelude[1], prelude[2]];
    TracesJoin(c, prelude, forked);
    TracesJoin(c, prelude + forked[1..], [s, t, u]);
    trace := prelude + forked[1..] + [s, t, u][1..];
  }
}
