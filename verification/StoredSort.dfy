// The parallel sort on the store: every read of ITEMS is a getter's read of the shared database, and
// every write a committed assignment to one element. The pool of SortPool then runs on any store
// that is linearizable.

module StoredSort {
  import opened Bytes
  import opened Databases
  import opened IntStrs
  import opened Partitioning
  import Sections
  import SortPool

  /** "ITEMS" */
  const ITEMS: CString := [0x49, 0x54, 0x45, 0x4D, 0x53]

  function Numeral(v: int): CString {
    DecimalNulFree(v);
    Decimal(v)
  }

  lemma DecimalNulFree(v: int)
    ensures 0 !in Decimal(v)
  {
    if v < 0 {
      DigitsMean(-v);
      DigitsAreNulFree(Digits(-v));
    } else {
      DigitsMean(v);
      DigitsAreNulFree(Digits(v));
    }
  }

  lemma DigitsAreNulFree(s: seq<byte>)
    requires AllDigits(s)
    ensures 0 !in s
  {
    forall i | 0 <= i < |s| ensures s[i] != 0 { assert IsDigit(s[i]); }
  }

  /** The database holds the array x, each element in decimal. */
  ghost predicate Represents(d: Database, x: seq<int>) {
    && |x| < 0x8000_0000_0000_0000
    && forall i: Index :: 0 <= i < |x| ==> i in Elements(d, ITEMS) && Elements(d, ITEMS)[i] == Numeral(x[i])
  }

  // ----- What one step of a worker reads and writes -----

  function ReadAt(w: SortPool.Worker): Option<nat> {
    var (lo, hi) := (w.lo, w.hi);
    match w.at
    case Start => if hi - lo <= 1 then None else Some(lo)
    case HaveA(_) => if hi < lo then None else Some(lo + (hi - lo) / 2)
    case HaveB(_, _) => if hi == 0 then None else Some(hi - 1)
    case ReadPivot => Some(lo)
    case ScanUp(_, i, j) => if 0 <= i <= j then Some(i) else None
    case ScanDown(_, i, j) => if i <= j && 0 <= j then Some(j) else None
    case Swap0(i, _, _) => if i < 0 then None else Some(i)
    case Swap1(_, _, j, _) => if j < 0 then None else Some(j)
    case _ => None
  }

  function WriteOf(w: SortPool.Worker): Option<(int, int)> {
    match w.at
    case Swap2(_, u, i, _, _) => Some((i, u))
    case Swap3(t, _, j, _) => Some((j, t))
    case _ => None
  }

  /** A step depends on the one element that it reads, and changes the one that it writes. */
  lemma StepIsOneAccess(x: seq<int>, y: seq<int>, w: SortPool.Worker)
    requires SortPool.WorkerOk(x, w) && SortPool.WorkerOk(y, w) && |x| == |y|
    requires ReadAt(w).Some? ==> ReadAt(w).value < |x| && x[ReadAt(w).value] == y[ReadAt(w).value]
    ensures SortPool.Step(x, w).1 == SortPool.Step(y, w).1
    ensures match WriteOf(w)
            case Some((k, v)) => 0 <= k < |x| && SortPool.Step(x, w).0 == x[k := v]
            case None => SortPool.Step(x, w).0 == x
    ensures ReadAt(w) == None || WriteOf(w) == None
  {
  }

  lemma ReadsInRange(x: seq<int>, w: SortPool.Worker)
    requires SortPool.WorkerOk(x, w)
    ensures ReadAt(w).Some? ==> w.lo <= ReadAt(w).value < w.hi <= |x|
    ensures WriteOf(w).Some? ==> w.lo <= WriteOf(w).value.0 < w.hi <= |x|
  {
  }

  // ----- The machine on the store -----

  /** What a worker has to be for its next step to make sense; the pool's invariant has more. */
  predicate Placed(w: SortPool.Worker) {
    && w.lo <= w.hi && (!w.at.Start? ==> w.hi - w.lo >= 2)
    && (w.at.ScanDown? ==> w.at.j >= 0)
    && (w.at.Swap3? && w.at.next.ThenSplit? ==> w.at.next.p < w.hi)
  }

  /** The step of a worker that has read the number v, if it reads one. */
  function StepBy(w: SortPool.Worker, v: int): seq<SortPool.Worker>
    requires Placed(w)
  {
    var (lo, hi) := (w.lo, w.hi);
    match w.at
    case Start => if hi - lo <= 1 then [] else [w.(at := SortPool.HaveA(v))]
    case HaveA(va) => [w.(at := SortPool.HaveB(va, v))]
    case HaveB(va, vb) =>
      var m := Choose(lo, lo + (hi - lo) / 2, hi - 1, va, vb, v);
      [w.(at := if m != lo then SortPool.Swap0(lo, m, SortPool.ThenPivot) else SortPool.ReadPivot)]
    case ReadPivot => [w.(at := SortPool.ScanUp(v, lo + 1, hi - 1))]
    case ScanUp(pivot, i, j) =>
      [w.(at := if i <= j && v < pivot then SortPool.ScanUp(pivot, i + 1, j) else SortPool.ScanDown(pivot, i, j))]
    case ScanDown(pivot, i, j) =>
      [w.(at := if i <= j && v > pivot then SortPool.ScanDown(pivot, i, j - 1)
                else if i <= j then SortPool.Swap0(i, j, SortPool.ThenScan(pivot, i + 1, j - 1))
                else SortPool.Swap0(lo, j, SortPool.ThenSplit(j)))]
    case Swap0(i, j, next) => [w.(at := SortPool.Swap1(v, i, j, next))]
    case Swap1(t, i, j, next) => [w.(at := SortPool.Swap2(t, v, i, j, next))]
    case Swap2(t, u, i, j, next) => [w.(at := SortPool.Swap3(t, i, j, next))]
    case Swap3(t, i, j, next) => SortPool.Resume(w, next)
  }

  /** The number that the numeral of element k denotes. */
  function NumberAt(d: Database, k: nat): int {
    if k < 0x8000_0000_0000_0000 && k in Elements(d, ITEMS) then Parsed(Elements(d, ITEMS)[k]) else 0
  }

  /** Workers, and what the store has seen. */
  datatype State = State(history: seq<Sections.Event>, workers: seq<SortPool.Worker>)

  /** The update commits `ITEMS[k]=v`. */
  ghost predicate Assigns(update: Database -> Database, k: int, v: int) {
    0 <= k < 0x8000_0000_0000_0000 && forall d: Database :: update(d) == SetElement(d, ITEMS, k, Numeral(v))
  }

  /** Process p makes the step of worker m; if that reads, the store returns the database d. */
  ghost predicate NextAt(s: State, t: State, m: nat, p: Sections.Pid, d: Database) {
    && m < |s.workers| && Placed(s.workers[m])
    && var w := s.workers[m];
       var v := if ReadAt(w).Some? then NumberAt(d, ReadAt(w).value) else 0;
    && t.workers == s.workers[..m] + StepBy(w, v) + s.workers[m + 1..]
    && match WriteOf(w)
       case Some((k, u)) =>
         exists update :: Assigns(update, k, u) && t.history == s.history + [Sections.Committed(p, update)]
       case None => t.history == if ReadAt(w).Some? then s.history + [Sections.Returned(p, d)] else s.history
  }

  ghost predicate Next(s: State, t: State) {
    exists m, p, d :: NextAt(s, t, m, p, d)
  }

  ghost predicate Follows(trace: seq<State>, k: nat)
    requires k + 1 < |trace|
  {
    Next(trace[k], trace[k + 1])
  }

  /**
   * Any processes sorting any n elements of a store that began as d. The store's part is that its
   * history is legal, which FlockStore and RwLockStore prove; otherwise it may return anything.
   */
  ghost predicate Run(d: Database, n: nat, trace: seq<State>) {
    && |trace| > 0 && trace[0] == State([], [SortPool.Worker(0, n, SortPool.Start)])
    && (forall k :: 0 <= k < |trace| - 1 ==> Follows(trace, k))
    && forall k :: 0 <= k < |trace| ==> Sections.Legal(d, trace[k].history)
  }

  // ----- It refines the pool -----

  /** With the right number the step is the pool's. */
  lemma StepByIsStep(x: seq<int>, w: SortPool.Worker, v: int)
    requires SortPool.WorkerOk(x, w)
    requires ReadAt(w).Some? ==> ReadAt(w).value < |x| && v == x[ReadAt(w).value]
    ensures Placed(w) && StepBy(w, v) == SortPool.Step(x, w).1
  {
  }

  lemma NumberRead(d: Database, x: seq<int>, k: nat)
    requires Represents(d, x) && k < |x|
    ensures NumberAt(d, k) == x[k]
  {
    DecimalMeans(x[k]);
  }

  lemma Represented(d: Database, x: seq<int>, k: nat, v: int)
    requires Represents(d, x) && k < |x|
    ensures Represents(SetElement(d, ITEMS, k, Numeral(v)), x[k := v])
  {
    ElementsOfSet(d, ITEMS, k, Numeral(v));
    var now, y := Elements(SetElement(d, ITEMS, k, Numeral(v)), ITEMS), x[k := v];
    forall i: Index | 0 <= i < |y| ensures i in now && now[i] == Numeral(y[i]) {
      assert i != k ==> y[i] == x[i] && Elements(d, ITEMS)[i] == Numeral(x[i]);
    }
  }

  lemma ReplayOne(d: Database, h: seq<Sections.Event>, e: Sections.Event)
    ensures Sections.Replay(d, h + [e])
            == if e.Committed? then e.update(Sections.Replay(d, h)) else Sections.Replay(d, h)
  {
    assert (h + [e])[..|h|] == h;
  }

  /** A legal history's last read returned the current database. */
  lemma LastReadIsCurrent(d: Database, h: seq<Sections.Event>, p: Sections.Pid, r: Database)
    requires Sections.Legal(d, h + [Sections.Returned(p, r)])
    ensures r == Sections.Replay(d, h)
  {
    var more := h + [Sections.Returned(p, r)];
    assert more[|h|].Returned? && more[..|h|] == h;
  }

  /** What the database then holds. */
  lemma HistoryStep(d: Database, s: State, t: State, m: nat, p: Sections.Pid, r: Database, x: seq<int>)
    requires NextAt(s, t, m, p, r) && SortPool.WorkerOk(x, s.workers[m])
    requires Represents(Sections.Replay(d, s.history), x) && Sections.Legal(d, t.history)
    ensures Represents(Sections.Replay(d, t.history), SortPool.Step(x, s.workers[m]).0)
    ensures ReadAt(s.workers[m]).Some? ==> r == Sections.Replay(d, s.history)
  {
    var w := s.workers[m];
    ReadsInRange(x, w);
    StepIsOneAccess(x, x, w);
    match WriteOf(w)
    case Some((k, u)) =>
      var update :| Assigns(update, k, u) && t.history == s.history + [Sections.Committed(p, update)];
      ReplayOne(d, s.history, Sections.Committed(p, update));
      Represented(Sections.Replay(d, s.history), x, k, u);
    case None =>
      if ReadAt(w).Some? {
        LastReadIsCurrent(d, s.history, p, r);
        ReplayOne(d, s.history, Sections.Returned(p, r));
      }
  }

  /** One step on the store is one step of the pool. */
  lemma NextIsPoolNext(d: Database, s: State, t: State, m: nat, p: Sections.Pid, r: Database, x: seq<int>)
    returns (y: seq<int>)
    requires NextAt(s, t, m, p, r) && SortPool.WorkerOk(x, s.workers[m])
    requires Represents(Sections.Replay(d, s.history), x) && Sections.Legal(d, t.history)
    ensures SortPool.NextAt(SortPool.State(x, s.workers), SortPool.State(y, t.workers), m)
    ensures Represents(Sections.Replay(d, t.history), y)
  {
    var w := s.workers[m];
    y := SortPool.Step(x, w).0;
    HistoryStep(d, s, t, m, p, r, x);
    ReadsInRange(x, w);
    var v := if ReadAt(w).Some? then NumberAt(r, ReadAt(w).value) else 0;
    if ReadAt(w).Some? { NumberRead(r, x, ReadAt(w).value); }
    StepByIsStep(x, w, v);
  }

  /** The pool and the store go together. */
  ghost predicate Mirrors(d: Database, trace: seq<State>, pool: seq<SortPool.State>) {
    && |pool| <= |trace|
    && forall k :: 0 <= k < |pool| ==> MirrorsAt(d, trace[k], pool[k])
  }

  ghost predicate MirrorsAt(d: Database, s: State, q: SortPool.State) {
    q.workers == s.workers && Represents(Sections.Replay(d, s.history), q.items)
  }

  /**
   * Refinement: every run on a linearizable store whose database begins with the array is a run of the
   * pool, with the same workers at every moment and the pool's array in the database.
   */
  lemma {:induction false} RunIsPoolRun(items: seq<int>, d: Database, trace: seq<State>, n: nat)
    returns (pool: seq<SortPool.State>)
    requires Represents(d, items) && Run(d, |items|, trace) && n < |trace|
    ensures |pool| == n + 1 && SortPool.Run(items, pool) && Mirrors(d, trace, pool)
  {
    if n == 0 {
      pool := [SortPool.Initial(items)];
      assert Sections.Replay(d, []) == d;
    } else {
      var before := RunIsPoolRun(items, d, trace, n - 1);
      assert MirrorsAt(d, trace[n - 1], before[n - 1]);
      SortPool.RunKeepsInv(items, before, n - 1);
      var next := NextMirrored(d, trace, n - 1, before[n - 1]);
      pool := before + [next];
      PoolRunExtends(items, before, next);
      MirrorExtends(d, trace, before, next);
    }
  }

  lemma NextMirrored(d: Database, trace: seq<State>, k: nat, q: SortPool.State) returns (next: SortPool.State)
    requires k + 1 < |trace| && Follows(trace, k) && Sections.Legal(d, trace[k + 1].history)
    requires MirrorsAt(d, trace[k], q) && SortPool.Shape(q.items, q.workers)
    ensures SortPool.Next(q, next) && MirrorsAt(d, trace[k + 1], next)
  {
    var m: nat, p: Sections.Pid, r: Database :| NextAt(trace[k], trace[k + 1], m, p, r);
    assert SortPool.WorkerOk(q.items, q.workers[m]);
    var y := NextIsPoolNext(d, trace[k], trace[k + 1], m, p, r, q.items);
    next := SortPool.State(y, trace[k + 1].workers);
  }

  lemma PoolRunExtends(items: seq<int>, pool: seq<SortPool.State>, next: SortPool.State)
    requires SortPool.Run(items, pool) && SortPool.Next(pool[|pool| - 1], next)
    ensures SortPool.Run(items, pool + [next])
  {
    var more := pool + [next];
    forall k | 0 <= k < |more| - 1 ensures SortPool.Follows(more, k) {
      if k < |pool| - 1 { assert SortPool.Follows(pool, k); }
    }
  }

  lemma MirrorExtends(d: Database, trace: seq<State>, pool: seq<SortPool.State>, next: SortPool.State)
    requires Mirrors(d, trace, pool) && |pool| < |trace| && MirrorsAt(d, trace[|pool|], next)
    ensures Mirrors(d, trace, pool + [next])
  {
    var more := pool + [next];
    forall k | 0 <= k < |more| ensures MirrorsAt(d, trace[k], more[k]) {
      if k < |pool| { assert MirrorsAt(d, trace[k], pool[k]); }
    }
  }

  /** The event that a step leaves in a store that answers with its current database. */
  lemma StepRealized(d: Database, s: State, q: SortPool.State, after: SortPool.State, m: nat, p: Sections.Pid)
    returns (t: State)
    requires MirrorsAt(d, s, q) && SortPool.NextAt(q, after, m) && Sections.Legal(d, s.history)
    ensures Next(s, t) && MirrorsAt(d, t, after) && Sections.Legal(d, t.history)
  {
    var w, r := s.workers[m], Sections.Replay(d, s.history);
    ReadsInRange(q.items, w);
    var v := if ReadAt(w).Some? then NumberAt(r, ReadAt(w).value) else 0;
    if ReadAt(w).Some? { NumberRead(r, q.items, ReadAt(w).value); }
    StepByIsStep(q.items, w, v);
    var workers := s.workers[..m] + StepBy(w, v) + s.workers[m + 1..];
    match WriteOf(w) {
      case Some((k, u)) =>
        var update := AssignsSomehow(k, u);
        t := State(s.history + [Sections.Committed(p, update)], workers);
      case None =>
        t := State(if ReadAt(w).Some? then s.history + [Sections.Returned(p, r)] else s.history, workers);
    }
    Sections.LegalExtends(d, s.history, t.history);
    assert NextAt(s, t, m, p, r);
    var y := NextIsPoolNext(d, s, t, m, p, r, q.items);
    assert after == SortPool.State(y, t.workers);
  }

  lemma AssignsSomehow(k: int, u: int) returns (update: Database -> Database)
    requires 0 <= k < 0x8000_0000_0000_0000
    ensures Assigns(update, k, u)
  {
    update := (d: Database) => SetElement(d, ITEMS, k, Numeral(u));
  }

  /** Conversely every run of the pool is one on such a store, by any process. */
  lemma {:induction false} PoolRunIsRun(items: seq<int>, d: Database, pool: seq<SortPool.State>, n: nat,
                                        p: Sections.Pid)
    returns (trace: seq<State>)
    requires Represents(d, items) && SortPool.Run(items, pool) && n < |pool|
    ensures |trace| == n + 1 && Run(d, |items|, trace)
    ensures forall k :: 0 <= k <= n ==> MirrorsAt(d, trace[k], pool[k])
  {
    if n == 0 {
      trace := [State([], [SortPool.Worker(0, |items|, SortPool.Start)])];
      assert Sections.Replay(d, []) == d;
    } else {
      var before := PoolRunIsRun(items, d, pool, n - 1, p);
      var t := NextRealized(items, d, before[n - 1], pool, n - 1, p);
      trace := before + [t];
      RunExtends(d, |items|, before, t);
    }
  }

  lemma NextRealized(items: seq<int>, d: Database, s: State, pool: seq<SortPool.State>, k: nat, p: Sections.Pid)
    returns (t: State)
    requires SortPool.Run(items, pool) && k + 1 < |pool|
    requires MirrorsAt(d, s, pool[k]) && Sections.Legal(d, s.history)
    ensures Next(s, t) && MirrorsAt(d, t, pool[k + 1]) && Sections.Legal(d, t.history)
  {
    assert SortPool.Follows(pool, k);
    var m: nat :| SortPool.NextAt(pool[k], pool[k + 1], m);
    t := StepRealized(d, s, pool[k], pool[k + 1], m, p);
  }

  lemma RunExtends(d: Database, n: nat, trace: seq<State>, t: State)
    requires Run(d, n, trace) && Next(trace[|trace| - 1], t) && Sections.Legal(d, t.history)
    ensures Run(d, n, trace + [t])
  {
    var more := trace + [t];
    forall k | 0 <= k < |more| - 1 ensures Follows(more, k) {
      if k < |trace| - 1 { assert Follows(trace, k); }
    }
    forall k | 0 <= k < |more| ensures Sections.Legal(d, more[k].history) {
      if k < |trace| { assert Sections.Legal(d, trace[k].history); }
    }
  }

  /**
   * So the sort ends on the store too, and when the last worker is done the shared database holds the
   * sorted permutation of the input.
   */
  lemma StoreIsSorted(items: seq<int>, d: Database, trace: seq<State>) returns (sorted: seq<int>)
    requires Represents(d, items) && Run(d, |items|, trace)
    ensures |trace| <= 12 * |items| * |items| + 2
    ensures trace[|trace| - 1].workers == [] ==>
              && Represents(Sections.Replay(d, trace[|trace| - 1].history), sorted)
              && SortedRange(sorted, 0, |sorted|) && multiset(sorted) == multiset(items)
  {
    var n := |trace| - 1;
    var pool := RunIsPoolRun(items, d, trace, n);
    assert MirrorsAt(d, trace[n], pool[n]);
    SortPool.RunsEnd(items, pool, n);
    sorted := pool[n].items;
    if trace[n].workers == [] { SortPool.PoolSorts(items, pool); }
  }
}
