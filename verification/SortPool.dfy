// Parallel quicksort as it really runs: any number of forked workers, each owning a range of the
// shared array, interleaved between any two single-element reads and writes.
//
// A worker is a range and the place it has reached in psort. Waiting for children, sorting inline
// below the threshold and forking above it only restrict which worker runs when, so every real
// schedule, with any threshold, is a run of this pool.

module SortPool {
  import opened Partitioning

  /** Where the code goes on after the swap it is in. */
  datatype Then =
    | ThenPivot
    | ThenScan(pivot: int, i: int, j: int)
    | ThenSplit(p: nat)

  datatype Place =
    | Start
    | HaveA(va: int)
    | HaveB(va: int, vb: int)
    | Swap0(i: int, j: int, next: Then)
    | Swap1(t: int, i: int, j: int, next: Then)
    | Swap2(t: int, u: int, i: int, j: int, next: Then)
    | Swap3(t: int, i: int, j: int, next: Then)
    | ReadPivot
    | ScanUp(pivot: int, i: int, j: int)
    | ScanDown(pivot: int, i: int, j: int)

  datatype Worker = Worker(lo: nat, hi: nat, at: Place)

  // ----- One step of one worker: at most one shared read or write -----

  function Resume(w: Worker, next: Then): (r: seq<Worker>)
    requires next.ThenSplit? ==> next.p < w.hi
  {
    match next
    case ThenPivot => [w.(at := ReadPivot)]
    case ThenScan(pivot, i, j) => [w.(at := ScanUp(pivot, i, j))]
    case ThenSplit(p) => [Worker(w.lo, p, Start), Worker(p + 1, w.hi, Start)]
  }

  /** The array after the step, and what takes the worker's place in the pool. */
  function Step(x: seq<int>, w: Worker): (seq<int>, seq<Worker>)
    requires WorkerOk(x, w)
  {
    var (lo, hi) := (w.lo, w.hi);
    match w.at
    case Start =>
      if hi - lo <= 1 then (x, []) else (x, [w.(at := HaveA(x[lo]))])
    case HaveA(va) =>
      (x, [w.(at := HaveB(va, x[lo + (hi - lo) / 2]))])
    case HaveB(va, vb) =>
      var m := Choose(lo, lo + (hi - lo) / 2, hi - 1, va, vb, x[hi - 1]);
      (x, [w.(at := if m != lo then Swap0(lo, m, ThenPivot) else ReadPivot)])
    case ReadPivot =>
      (x, [w.(at := ScanUp(x[lo], lo + 1, hi - 1))])
    case ScanUp(pivot, i, j) =>
      (x, [w.(at := if i <= j && x[i] < pivot then ScanUp(pivot, i + 1, j) else ScanDown(pivot, i, j))])
    case ScanDown(pivot, i, j) =>
      (x, [w.(at := if i <= j && x[j] > pivot then ScanDown(pivot, i, j - 1)
                    else if i <= j then Swap0(i, j, ThenScan(pivot, i + 1, j - 1))
                    else Swap0(lo, j, ThenSplit(j)))])
    case Swap0(i, j, k) => (x, [w.(at := Swap1(x[i], i, j, k))])
    case Swap1(t, i, j, k) => (x, [w.(at := Swap2(t, x[j], i, j, k))])
    case Swap2(t, u, i, j, k) => (x[i := u], [w.(at := Swap3(t, i, j, k))])
    case Swap3(t, i, j, k) => (x[j := t], Resume(w, k))
  }

  // ----- What a worker knows about its own range -----

  ghost predicate ThenOk(y: seq<int>, lo: nat, hi: nat, k: Then)
    requires hi <= |y|
  {
    match k
    case ThenPivot => true
    case ThenScan(pivot, i, j) => Scanned(y, lo, hi, pivot, i, j)
    case ThenSplit(p) => SplitAt(y, lo, hi, p)
  }

  ghost predicate WorkerOk(x: seq<int>, w: Worker) {
    var (lo, hi) := (w.lo, w.hi);
    && lo <= hi <= |x|
    && (!w.at.Start? ==> hi - lo >= 2)
    && match w.at
       case Start => true
       case HaveA(_) => true
       case HaveB(_, _) => true
       case ReadPivot => true
       case ScanUp(pivot, i, j) => Scanned(x, lo, hi, pivot, i, j)
       case ScanDown(pivot, i, j) => Scanned(x, lo, hi, pivot, i, j) && (i <= j ==> pivot <= x[i])
       case Swap0(i, j, k) => lo <= i < hi && lo <= j < hi && ThenOk(Swapped(x, i, j), lo, hi, k)
       case Swap1(t, i, j, k) =>
         lo <= i < hi && lo <= j < hi && t == x[i] && ThenOk(Swapped(x, i, j), lo, hi, k)
       case Swap2(t, u, i, j, k) =>
         lo <= i < hi && lo <= j < hi && t == x[i] && u == x[j] && ThenOk(Swapped(x, i, j), lo, hi, k)
       case Swap3(t, i, j, k) =>
         lo <= i < hi && lo <= j < hi && ThenOk(x[j := t], lo, hi, k)
  }

  /** Other workers' writes cannot disturb it: only the worker's own range matters. */
  lemma OwnRangeDecides(x: seq<int>, y: seq<int>, w: Worker)
    requires WorkerOk(x, w) && |x| == |y|
    requires forall k :: w.lo <= k < w.hi ==> x[k] == y[k]
    ensures WorkerOk(y, w)
  {
    match w.at
    case Swap0(i, j, next) => ThenReadsRange(Swapped(x, i, j), Swapped(y, i, j), w.lo, w.hi, next);
    case Swap1(_, i, j, next) => ThenReadsRange(Swapped(x, i, j), Swapped(y, i, j), w.lo, w.hi, next);
    case Swap2(_, _, i, j, next) => ThenReadsRange(Swapped(x, i, j), Swapped(y, i, j), w.lo, w.hi, next);
    case Swap3(t, i, j, next) => ThenReadsRange(x[j := t], y[j := t], w.lo, w.hi, next);
    case _ =>
  }

  lemma ThenReadsRange(x: seq<int>, y: seq<int>, lo: nat, hi: nat, next: Then)
    requires hi <= |x| == |y| && (forall k :: lo <= k < hi ==> x[k] == y[k])
    requires ThenOk(x, lo, hi, next)
    ensures ThenOk(y, lo, hi, next)
  {
    if next.ThenSplit? { assert x[next.p] == y[next.p]; }
  }

  /** A worker writes inside its own range only. */
  lemma StepStaysInside(x: seq<int>, w: Worker)
    requires WorkerOk(x, w)
    ensures var (y, _) := Step(x, w);
            |y| == |x| && forall k :: 0 <= k < |x| && (k < w.lo || w.hi <= k) ==> y[k] == x[k]
  {
  }

  lemma ScanKeepsWorker(x: seq<int>, w: Worker)
    requires WorkerOk(x, w) && w.at.ScanDown?
    ensures Step(x, w).0 == x && |Step(x, w).1| == 1 && WorkerOk(x, Step(x, w).1[0])
  {
    var (pivot, i, j) := (w.at.pivot, w.at.i, w.at.j);
    if i <= j && x[j] <= pivot { SwapKeepsScan(x, w.lo, w.hi, pivot, i, j); }
    if i > j { FinalSwapSplits(x, w.lo, w.hi, pivot, i, j); }
  }

  /** The first write of a swap, and the second. */
  lemma WriteKeepsWorker(x: seq<int>, w: Worker)
    requires WorkerOk(x, w) && (w.at.Swap2? || w.at.Swap3?)
    ensures var (y, ws) := Step(x, w);
            forall i :: 0 <= i < |ws| ==> WorkerOk(y, ws[i]) && w.lo <= ws[i].lo && ws[i].hi <= w.hi
  {
  }

  lemma StepKeepsWorker(x: seq<int>, w: Worker)
    requires WorkerOk(x, w)
    ensures var (y, ws) := Step(x, w);
            forall i :: 0 <= i < |ws| ==> WorkerOk(y, ws[i]) && w.lo <= ws[i].lo && ws[i].hi <= w.hi
  {
    match w.at
    case ScanDown(_, _, _) => ScanKeepsWorker(x, w);
    case Swap2(_, _, _, _, _) => WriteKeepsWorker(x, w);
    case Swap3(_, _, _, _) => WriteKeepsWorker(x, w);
    case _ =>
  }

  // ----- Equal elements -----

  predicate Flat(x: seq<int>, lo: nat, hi: nat)
    requires lo <= hi <= |x|
  {
    forall k :: lo <= k < hi ==> x[k] == x[lo]
  }

  /** The scans are as far from their ends, and the split will be in the middle. */
  predicate CenteredThen(lo: nat, hi: nat, next: Then) {
    match next
    case ThenPivot => true
    case ThenScan(_, i, j) => i + j == lo + hi
    case ThenSplit(p) => lo + hi <= 2 * p + 2 <= lo + hi + 1
  }

  predicate Centered(w: Worker) {
    match w.at
    case ScanUp(_, i, j) => i + j == w.lo + w.hi
    case ScanDown(_, i, j) => i + j == w.lo + w.hi
    case Swap0(_, _, next) => CenteredThen(w.lo, w.hi, next)
    case Swap1(_, _, _, next) => CenteredThen(w.lo, w.hi, next)
    case Swap2(_, _, _, _, next) => CenteredThen(w.lo, w.hi, next)
    case Swap3(_, _, _, next) => CenteredThen(w.lo, w.hi, next)
    case _ => true
  }

  predicate FlatWorker(x: seq<int>, w: Worker) {
    && w.lo <= w.hi <= |x| && Flat(x, w.lo, w.hi) && Centered(w)
    && (w.at.Swap3? ==> w.lo < w.hi && w.at.t == x[w.lo])
  }

  /**
   * Both scans stop at elements that equal the pivot, so that a range of equal elements is split into
   * halves, which differ by at most one element.
   */
  lemma EqualElementsSplitEvenly(x: seq<int>, w: Worker)
    requires WorkerOk(x, w) && FlatWorker(x, w)
    ensures var (y, ws) := Step(x, w);
            && y == x && (forall n :: 0 <= n < |ws| ==> FlatWorker(x, ws[n]))
            && (|ws| == 2 ==>
                  && ws[0].at == ws[1].at == Start
                  && -1 <= (ws[1].hi - ws[1].lo) - (ws[0].hi - ws[0].lo) <= 1)
  {
  }

  // ----- The pool -----

  datatype State = State(items: seq<int>, workers: seq<Worker>)

  ghost predicate NextAt(s: State, t: State, m: nat) {
    && m < |s.workers| && WorkerOk(s.items, s.workers[m])
    && var (items, now) := Step(s.items, s.workers[m]);
       t == State(items, s.workers[..m] + now + s.workers[m + 1..])
  }

  ghost predicate Next(s: State, t: State) {
    exists m :: NextAt(s, t, m)
  }

  function Initial(items: seq<int>): State {
    State(items, [Worker(0, |items|, Start)])
  }

  /** Any schedule from the unsorted array. */
  ghost predicate Run(items: seq<int>, trace: seq<State>) {
    && |trace| > 0 && trace[0] == Initial(items)
    && forall k :: 0 <= k < |trace| - 1 ==> Follows(trace, k)
  }

  ghost predicate Follows(trace: seq<State>, k: nat)
    requires k + 1 < |trace|
  {
    Next(trace[k], trace[k + 1])
  }

  // ----- The array with every swap that is under way completed -----

  predicate Owes(w: Worker, k: int) {
    w.at.Swap3? && w.at.j == k
  }

  /** The value of position k once the worker in the middle of a swap there has written it back. */
  ghost function Settled(x: seq<int>, ws: seq<Worker>, k: nat): int
    requires k < |x|
  {
    if exists m :: 0 <= m < |ws| && Owes(ws[m], k) then
      var m :| 0 <= m < |ws| && Owes(ws[m], k);
      ws[m].at.t
    else x[k]
  }

  ghost function Settle(x: seq<int>, ws: seq<Worker>): (v: seq<int>)
    ensures |v| == |x|
    ensures forall k :: 0 <= k < |x| ==> v[k] == Settled(x, ws, k)
  {
    seq(|x|, k requires 0 <= k < |x| => Settled(x, ws, k))
  }

  predicate Apart(v: Worker, w: Worker) {
    v.hi <= w.lo || w.hi <= v.lo
  }

  predicate InRange(w: Worker, k: int) {
    w.lo <= k < w.hi
  }

  ghost predicate SameRange(ws: seq<Worker>, i: int, k: int) {
    exists m :: 0 <= m < |ws| && InRange(ws[m], i) && InRange(ws[m], k)
  }

  ghost predicate Shape(x: seq<int>, ws: seq<Worker>) {
    && (forall m :: 0 <= m < |ws| ==> WorkerOk(x, ws[m]))
    && (forall m, n :: 0 <= m < |ws| && 0 <= n < |ws| && m != n ==> Apart(ws[m], ws[n]))
  }

  /** Elements of different ranges, or outside all ranges, are already in order. */
  ghost predicate Ordered(v: seq<int>, ws: seq<Worker>) {
    forall i, k :: 0 <= i < k < |v| && !SameRange(ws, i, k) ==> v[i] <= v[k]
  }

  ghost predicate PoolInv(items: seq<int>, s: State) {
    && |s.items| == |items|
    && Shape(s.items, s.workers)
    && multiset(Settle(s.items, s.workers)) == multiset(items)
    && Ordered(Settle(s.items, s.workers), s.workers)
  }

  // ----- One step of the pool -----

  /** Where the workers of the pool after a step come from. */
  lemma Origin(s: State, t: State, m: nat, n: nat) returns (from: nat)
    requires NextAt(s, t, m) && n < |t.workers|
    ensures var now := Step(s.items, s.workers[m]).1;
            if m <= n < m + |now| then t.workers[n] == now[n - m] && from == m
            else from < |s.workers| && from != m && t.workers[n] == s.workers[from]
                 && n == if from < m then from else from + |now| - 1
  {
    var now := Step(s.items, s.workers[m]).1;
    from := if n < m then n else if n < m + |now| then m else n - |now| + 1;
  }

  lemma WorkersStayOk(s: State, t: State, m: nat, n: nat)
    requires Shape(s.items, s.workers) && NextAt(s, t, m) && n < |t.workers|
    ensures |t.items| == |s.items| && WorkerOk(t.items, t.workers[n])
  {
    var w := s.workers[m];
    StepStaysInside(s.items, w);
    StepKeepsWorker(s.items, w);
    var from := Origin(s, t, m, n);
    if from != m {
      assert Apart(s.workers[from], w);
      OwnRangeDecides(s.items, t.items, s.workers[from]);
    }
  }

  lemma RangesStayApart(s: State, t: State, m: nat, a: nat, b: nat)
    requires Shape(s.items, s.workers) && NextAt(s, t, m) && a < |t.workers| && b < |t.workers| && a != b
    ensures Apart(t.workers[a], t.workers[b])
  {
    StepKeepsWorker(s.items, s.workers[m]);
    var x := Origin(s, t, m, a);
    var y := Origin(s, t, m, b);
    if x != y { assert Apart(s.workers[x], s.workers[y]); }
  }

  lemma ShapeKept(s: State, t: State, m: nat)
    requires Shape(s.items, s.workers) && NextAt(s, t, m)
    ensures |t.items| == |s.items| && Shape(t.items, t.workers)
  {
    StepStaysInside(s.items, s.workers[m]);
    forall n | 0 <= n < |t.workers| ensures WorkerOk(t.items, t.workers[n]) { WorkersStayOk(s, t, m, n); }
    forall a, b | 0 <= a < |t.workers| && 0 <= b < |t.workers| && a != b ensures Apart(t.workers[a], t.workers[b]) {
      RangesStayApart(s, t, m, a, b);
    }
  }

  /** Inside a worker's range nobody else can owe a write. */
  lemma RangeSettles(x: seq<int>, ws: seq<Worker>, k: nat, m: nat)
    requires Shape(x, ws) && m < |ws| && k < |x| && InRange(ws[m], k)
    ensures Settled(x, ws, k) == if Owes(ws[m], k) then ws[m].at.t else x[k]
  {
    forall n | 0 <= n < |ws| && Owes(ws[n], k) ensures n == m {
      assert WorkerOk(x, ws[n]) && InRange(ws[n], k);
    }
  }

  lemma NobodyOwes(x: seq<int>, ws: seq<Worker>, k: nat)
    requires Shape(x, ws) && k < |x| && forall n :: 0 <= n < |ws| ==> !InRange(ws[n], k)
    ensures Settled(x, ws, k) == x[k]
  {
    forall n | 0 <= n < |ws| ensures !Owes(ws[n], k) { assert WorkerOk(x, ws[n]); }
  }

  /** Positions outside the range of the worker that steps are untouched. */
  lemma OutsideSettles(s: State, t: State, m: nat, k: nat)
    requires Shape(s.items, s.workers) && NextAt(s, t, m) && Shape(t.items, t.workers)
    requires k < |s.items| == |t.items| && !InRange(s.workers[m], k)
    ensures Settled(t.items, t.workers, k) == Settled(s.items, s.workers, k)
  {
    StepStaysInside(s.items, s.workers[m]);
    StepKeepsWorker(s.items, s.workers[m]);
    var now := Step(s.items, s.workers[m]).1;
    if n :| 0 <= n < |s.workers| && InRange(s.workers[n], k) {
      var to := if n < m then n else n + |now| - 1;
      assert t.workers[to] == s.workers[n];
      RangeSettles(s.items, s.workers, k, n);
      RangeSettles(t.items, t.workers, k, to);
    } else {
      forall n | 0 <= n < |t.workers| ensures !InRange(t.workers[n], k) { var from := Origin(s, t, m, n); }
      NobodyOwes(s.items, s.workers, k);
      NobodyOwes(t.items, t.workers, k);
    }
  }

  /** The value a worker's own position has when its swap is complete. */
  function OwnValue(x: seq<int>, w: Worker, k: nat): int
    requires k < |x|
  {
    if Owes(w, k) then w.at.t else x[k]
  }

  lemma InsideSettles(s: State, t: State, m: nat, k: nat)
    requires Shape(s.items, s.workers) && NextAt(s, t, m) && Shape(t.items, t.workers)
    requires k < |s.items| == |t.items| && InRange(s.workers[m], k)
    ensures var now := Step(s.items, s.workers[m]).1;
            Settled(t.items, t.workers, k) ==
            if |now| == 1 then OwnValue(t.items, now[0], k) else t.items[k]
  {
    var now := Step(s.items, s.workers[m]).1;
    if |now| == 1 {
      RangeSettles(t.items, t.workers, k, m);
    } else {
      forall n | 0 <= n < |t.workers| ensures !Owes(t.workers[n], k) {
        var from := Origin(s, t, m, n);
        assert WorkerOk(t.items, t.workers[n]);
        if from != m { assert Apart(s.workers[from], s.workers[m]); }
      }
    }
  }

  /** Only the first write of a swap changes the settled array, and it does the whole swap. */
  lemma SettleStep(s: State, t: State, m: nat)
    requires Shape(s.items, s.workers) && NextAt(s, t, m) && Shape(t.items, t.workers) && |t.items| == |s.items|
    ensures var (v, w) := (Settle(s.items, s.workers), s.workers[m]);
            Settle(t.items, t.workers) == if w.at.Swap2? then Swapped(v, w.at.i, w.at.j) else v
  {
    var v, w := Settle(s.items, s.workers), s.workers[m];
    var goal := if w.at.Swap2? then Swapped(v, w.at.i, w.at.j) else v;
    if w.at.Swap2? {
      RangeSettles(s.items, s.workers, w.at.i, m);
      RangeSettles(s.items, s.workers, w.at.j, m);
    }
    forall k | 0 <= k < |s.items| ensures Settled(t.items, t.workers, k) == goal[k] {
      if InRange(w, k) {
        RangeSettles(s.items, s.workers, k, m);
        InsideSettles(s, t, m, k);
      } else {
        OutsideSettles(s, t, m, k);
      }
    }
    assert Settle(t.items, t.workers) == goal;
  }

  // ----- Order -----

  /** A swap inside one range keeps elements of different ranges in order. */
  lemma SwapKeepsOrder(v: seq<int>, ws: seq<Worker>, m: nat, i: nat, j: nat)
    requires m < |ws| && ws[m].hi <= |v| && InRange(ws[m], i) && InRange(ws[m], j)
    requires forall a, b :: 0 <= a < |ws| && 0 <= b < |ws| && a != b ==> Apart(ws[a], ws[b])
    requires Ordered(v, ws)
    ensures Ordered(Swapped(v, i, j), ws)
  {
    var u := Swapped(v, i, j);
    forall a, b | 0 <= a < b < |u| && !SameRange(ws, a, b) ensures u[a] <= u[b] {
      var x := if a == i then j else if a == j then i else a;
      var y := if b == i then j else if b == j then i else b;
      assert u[a] == v[x] && u[b] == v[y];
      if InRange(ws[m], a) || InRange(ws[m], b) {
        forall n | 0 <= n < |ws| ensures !(InRange(ws[n], x) && InRange(ws[n], y)) {
          if n != m { assert Apart(ws[n], ws[m]); }
        }
      }
    }
  }

  lemma SameOrSplit(x: seq<int>, w: Worker)
    requires WorkerOk(x, w)
    ensures var now := Step(x, w).1;
            && (|now| == 0 ==> w.hi - w.lo <= 1)
            && (|now| == 1 ==> now[0].lo == w.lo && now[0].hi == w.hi)
            && (|now| > 1 ==> |now| == 2 && w.at.Swap3? && w.at.next.ThenSplit? && now == Resume(w, w.at.next))
  {
  }

  lemma PivotBetween(x: seq<int>, w: Worker, a: nat, b: nat)
    requires WorkerOk(x, w) && a < b && InRange(w, a) && InRange(w, b)
    requires forall k :: 0 <= k < |Step(x, w).1| ==> !(InRange(Step(x, w).1[k], a) && InRange(Step(x, w).1[k], b))
    ensures OwnValue(x, w, a) <= OwnValue(x, w, b)
  {
    var now := Step(x, w).1;
    SameOrSplit(x, w);
    var y, p := x[w.at.j := w.at.t], w.at.next.p;
    assert !(InRange(now[0], a) && InRange(now[0], b)) && !(InRange(now[1], a) && InRange(now[1], b));
    assert SplitAt(y, w.lo, w.hi, p) && a <= p <= b;
    assert y[a] == OwnValue(x, w, a) && y[b] == OwnValue(x, w, b);
  }

  /** Pairs that a step separates are in order: the pivot stands between them. */
  lemma SplitKeepsOrder(s: State, t: State, m: nat, v: seq<int>)
    requires Shape(s.items, s.workers) && NextAt(s, t, m)
    requires v == Settle(s.items, s.workers) && Ordered(v, s.workers)
    ensures Ordered(v, t.workers)
  {
    var w := s.workers[m];
    var now := Step(s.items, w).1;
    forall a, b | 0 <= a < b < |v| && !SameRange(t.workers, a, b) ensures v[a] <= v[b] {
      forall n | 0 <= n < |s.workers| && n != m ensures !(InRange(s.workers[n], a) && InRange(s.workers[n], b)) {
        assert t.workers[if n < m then n else n + |now| - 1] == s.workers[n];
      }
      if SameRange(s.workers, a, b) {
        forall k | 0 <= k < |now| ensures !(InRange(now[k], a) && InRange(now[k], b)) {
          assert t.workers[m + k] == now[k];
        }
        PivotBetween(s.items, w, a, b);
        RangeSettles(s.items, s.workers, a, m);
        RangeSettles(s.items, s.workers, b, m);
      }
    }
  }

  lemma NextKeepsInv(items: seq<int>, s: State, t: State, m: nat)
    requires PoolInv(items, s) && NextAt(s, t, m)
    ensures PoolInv(items, t)
  {
    var w, v := s.workers[m], Settle(s.items, s.workers);
    ShapeKept(s, t, m);
    SettleStep(s, t, m);
    SplitKeepsOrder(s, t, m, v);
    if w.at.Swap2? {
      assert t.workers[m].lo == w.lo && t.workers[m].hi == w.hi;
      SwapKeepsOrder(v, t.workers, m, w.at.i, w.at.j);
      SwapPermutes(v, w.at.i, w.at.j);
    }
  }

  lemma SwapPermutes(v: seq<int>, i: nat, j: nat)
    requires i < |v| && j < |v|
    ensures multiset(Swapped(v, i, j)) == multiset(v)
  {
  }

  lemma InitialInv(items: seq<int>)
    ensures PoolInv(items, Initial(items))
  {
    var s := Initial(items);
    assert Settle(s.items, s.workers) == items;
    forall i, k | 0 <= i < k < |items| ensures SameRange(s.workers, i, k) {
      assert InRange(s.workers[0], i) && InRange(s.workers[0], k);
    }
  }

  lemma {:induction false} RunKeepsInv(items: seq<int>, trace: seq<State>, n: nat)
    requires Run(items, trace) && n < |trace|
    ensures PoolInv(items, trace[n])
  {
    if n == 0 {
      InitialInv(items);
    } else {
      RunKeepsInv(items, trace, n - 1);
      assert Follows(trace, n - 1);
      var m :| NextAt(trace[n - 1], trace[n], m);
      NextKeepsInv(items, trace[n - 1], trace[n], m);
    }
  }

  // ----- Termination: a bound on the steps that remain -----

  /** 12 n^2 + 1, in a form that needs no multiplication to unfold. */
  function Cost(n: int): int {
    if n <= 0 then 1 else Cost(n - 1) + 24 * n - 12
  }

  lemma {:induction false} CostIsQuadratic(n: nat)
    ensures Cost(n) == 12 * n * n + 1
  {
    if n > 0 { CostIsQuadratic(n - 1); }
  }

  lemma {:induction false} CostsAdd(x: nat, y: nat)
    ensures Cost(x) + Cost(y) <= Cost(x + y) + 1
    ensures Cost(y) >= 1
  {
    if y > 0 { CostsAdd(x, y - 1); }
  }

  function Remaining(w: Worker): int {
    var n := w.hi - w.lo;
    match w.at
    case Start => Cost(n)
    case HaveA(_) => BeforePivot(n) + 6
    case HaveB(_, _) => BeforePivot(n) + 5
    case Swap0(_, _, next) => AfterSwap(n, next) + 4
    case Swap1(_, _, _, next) => AfterSwap(n, next) + 3
    case Swap2(_, _, _, _, next) => AfterSwap(n, next) + 2
    case Swap3(_, _, _, next) => AfterSwap(n, next) + 1
    case ReadPivot => BeforePivot(n)
    case ScanUp(_, i, j) => Scanning(n, j - i + 1) + 1
    case ScanDown(_, i, j) => Scanning(n, j - i + 1)
  }

  /** What both sides of a split of n elements cost at most. */
  function BothSides(n: int): int {
    Cost(n - 1) + 1
  }

  function Scanning(n: int, gap: int): int {
    BothSides(n) + 5 + 6 * (gap + 1)
  }

  function BeforePivot(n: int): int {
    Scanning(n, n - 1) + 2
  }

  function AfterSwap(n: int, next: Then): int {
    match next
    case ThenPivot => BeforePivot(n)
    case ThenScan(_, i, j) => Scanning(n, j - i + 1) + 1
    case ThenSplit(_) => BothSides(n)
  }

  function Total(ws: seq<Worker>): int {
    if ws == [] then 0 else Remaining(ws[0]) + Total(ws[1..])
  }

  lemma {:induction false} TotalOfParts(a: seq<Worker>, b: seq<Worker>)
    ensures Total(a + b) == Total(a) + Total(b)
  {
    if a == [] {
      assert a + b == b;
    } else {
      TotalOfParts(a[1..], b);
      assert (a + b)[1..] == a[1..] + b;
    }
  }

  lemma ResumeCosts(w: Worker, next: Then)
    requires next.ThenSplit? ==> w.lo <= next.p < w.hi
    ensures Total(Resume(w, next)) <= AfterSwap(w.hi - w.lo, next)
  {
    var now := Resume(w, next);
    if next.ThenSplit? {
      CostsAdd(next.p - w.lo, w.hi - next.p - 1);
      assert now[1..] == [now[1]];
      assert Total([now[1]]) == Remaining(now[1]);
    } else {
      assert Total(now) == Remaining(now[0]);
    }
  }

  lemma RemainingIsPositive(x: seq<int>, w: Worker)
    requires WorkerOk(x, w)
    ensures Remaining(w) > 0
  {
    var n := w.hi - w.lo;
    CostsAdd(0, n);
    if n > 0 { CostsAdd(0, n - 1); }
  }

  lemma StepCosts(x: seq<int>, w: Worker)
    requires WorkerOk(x, w)
    ensures Total(Step(x, w).1) < Remaining(w)
  {
    var now := Step(x, w).1;
    if w.at.Swap3? {
      ResumeCosts(w, w.at.next);
    } else if |now| == 1 {
      assert Total(now) == Remaining(now[0]);
    } else {
      RemainingIsPositive(x, w);
    }
  }

  /** Replacing one worker changes the total by what it and its successors cost. */
  lemma TotalReplaced(ws: seq<Worker>, m: nat, now: seq<Worker>)
    requires m < |ws|
    ensures Total(ws[..m] + now + ws[m + 1..]) - Total(now) == Total(ws) - Remaining(ws[m])
  {
    var before, after := ws[..m], ws[m + 1..];
    TotalOfParts(before + now, after);
    TotalOfParts(before, now);
    TotalOfParts(before + [ws[m]], after);
    TotalOfParts(before, [ws[m]]);
    TotalOfOne(ws[m]);
    assert ws == before + [ws[m]] + after;
  }

  lemma TotalOfOne(w: Worker)
    ensures Total([w]) == Remaining(w)
  {
    assert [w][1..] == [];
  }

  lemma NextCosts(s: State, t: State, m: nat)
    requires Shape(s.items, s.workers) && NextAt(s, t, m)
    ensures Total(t.workers) < Total(s.workers)
  {
    StepCosts(s.items, s.workers[m]);
    TotalReplaced(s.workers, m, Step(s.items, s.workers[m]).1);
  }

  lemma {:induction false} TotalPositive(x: seq<int>, ws: seq<Worker>)
    requires forall m :: 0 <= m < |ws| ==> WorkerOk(x, ws[m])
    ensures Total(ws) >= |ws|
  {
    if ws != [] {
      RemainingIsPositive(x, ws[0]);
      TotalPositive(x, ws[1..]);
    }
  }

  // ----- What holds in every run -----

  lemma {:induction false} RunIsBounded(items: seq<int>, trace: seq<State>, n: nat)
    requires Run(items, trace) && n < |trace|
    ensures n + Total(trace[n].workers) <= Total(trace[0].workers)
  {
    if n > 0 {
      RunIsBounded(items, trace, n - 1);
      RunKeepsInv(items, trace, n - 1);
      assert Follows(trace, n - 1);
      var m :| NextAt(trace[n - 1], trace[n], m);
      NextCosts(trace[n - 1], trace[n], m);
    }
  }

  /** Whatever the schedule, a run is no longer than this, and it stops only when all is sorted. */
  lemma RunsEnd(items: seq<int>, trace: seq<State>, n: nat)
    requires Run(items, trace) && n < |trace|
    ensures n + Total(trace[n].workers) <= 12 * |items| * |items| + 1
    ensures Total(trace[n].workers) >= |trace[n].workers|
    ensures trace[n].workers != [] ==> exists t :: Next(trace[n], t)
  {
    RunIsBounded(items, trace, n);
    TotalOfOne(Worker(0, |items|, Start));
    CostIsQuadratic(|items|);
    RunKeepsInv(items, trace, n);
    TotalPositive(trace[n].items, trace[n].workers);
    if trace[n].workers != [] { CanStep(trace[n]); }
  }

  lemma CanStep(s: State)
    requires s.workers != [] && Shape(s.items, s.workers)
    ensures exists t :: Next(s, t)
  {
    var (x, now) := Step(s.items, s.workers[0]);
    var t := State(x, s.workers[..0] + now + s.workers[1..]);
    assert NextAt(s, t, 0);
    assert Next(s, t);
  }

  /** Positions that no worker owns are final at every moment. */
  lemma UnownedIsFinal(items: seq<int>, trace: seq<State>, n: nat, k: nat)
    requires Run(items, trace) && n < |trace| && k < |items|
    requires forall m :: 0 <= m < |trace[n].workers| ==> !InRange(trace[n].workers[m], k)
    ensures |trace[n].items| == |items|
    ensures var v := Settle(trace[n].items, trace[n].workers);
            && v[k] == trace[n].items[k] && multiset(v) == multiset(items)
            && (forall i :: 0 <= i < k ==> v[i] <= v[k])
            && (forall i :: k < i < |v| ==> v[k] <= v[i])
  {
    RunKeepsInv(items, trace, n);
    NobodyOwes(trace[n].items, trace[n].workers, k);
  }

  /** When the last worker is done the array is the sorted permutation of the input. */
  lemma PoolSorts(items: seq<int>, trace: seq<State>)
    requires Run(items, trace) && trace[|trace| - 1].workers == []
    ensures var sorted := trace[|trace| - 1].items;
            SortedRange(sorted, 0, |sorted|) && multiset(sorted) == multiset(items)
  {
    RunKeepsInv(items, trace, |trace| - 1);
    var s := trace[|trace| - 1];
    assert Settle(s.items, s.workers) == s.items;
  }

  /** So two runs of one input, under any two schedules and thresholds, end alike. */
  lemma ScheduleIrrelevant(items: seq<int>, a: seq<State>, b: seq<State>)
    requires Run(items, a) && a[|a| - 1].workers == []
    requires Run(items, b) && b[|b| - 1].workers == []
    ensures a[|a| - 1].items == b[|b| - 1].items
  {
    PoolSorts(items, a);
    PoolSorts(items, b);
    SortedIsUnique(a[|a| - 1].items, b[|b| - 1].items);
  }

  /** And they end where one process sorting the whole array by itself ends. */
  lemma PoolAgreesWithPsort(items: seq<int>, trace: seq<State>, sorted: seq<int>, calls: Calls)
    requires Run(items, trace) && trace[|trace| - 1].workers == []
    requires Ran(items, sorted, 0, |items|, calls)
    ensures trace[|trace| - 1].items == sorted
  {
    PoolSorts(items, trace);
    RanSorts(items, sorted, 0, |items|, calls);
    SortedIsUnique(trace[|trace| - 1].items, sorted);
  }
}
