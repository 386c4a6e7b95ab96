// The process-shared barrier (l_builtin/src/cmd_barrier.rs): a monitor with a condition variable.
// Each stretch of code between taking and releasing the mutex is one step.

module Barriers {
  import opened Bytes

  const U32_LIMIT := 0x1_0000_0000

  /** One invocation of `barrier wait`; a process may make any number of them. */
  type Call = nat

  type Pid = nat

  /** The shared memory. */
  datatype Monitor = Monitor(count: nat, target: nat, satisfied: bool)

  datatype Event =
    | Arrival(call: Call, pid: Pid)
    | WasReset
    | Success(call: Call)
    | Failure(call: Call)

  /**
   * `sleeping` calls wait on the condition variable; `woken` ones are to relock the mutex, after a
   * broadcast or spuriously. `timed` calls may give up at any time.
   */
  datatype State = State(m: Monitor, sleeping: set<Call>, woken: set<Call>, timed: set<Call>, log: seq<Event>)

  datatype Step =
    | Enter(call: Call, pid: Pid, nonblock: bool, timeout: bool)
    | Wake(call: Call)
    | Spurious(call: Call)
    | TimeOut(call: Call)
    | Reset

  // ----- The critical sections -----

  /** `barrier_arrive`; the broadcast is the caller's business. */
  function Arrived(m: Monitor): Monitor {
    m.(count := m.count + 1, satisfied := m.satisfied || m.count + 1 == m.target)
  }

  /** How a call comes out of the stretch of code that it is in. */
  datatype Outcome = Ok | ExecutionFailure | StillWaiting

  /** `barrier_wait` up to its first return or its first wait. */
  function First(m: Monitor, nonblock: bool): (Monitor, Outcome) {
    if m.satisfied then (m, Ok)
    else
      var a := Arrived(m);
      (a, if a.satisfied then Ok else if nonblock then ExecutionFailure else StillWaiting)
  }

  /** The loop body after a return from the condition variable with status rc. */
  function Later(m: Monitor, rc: int): Outcome {
    if rc != 0 then ExecutionFailure else if m.satisfied then Ok else StillWaiting
  }

  function Entered(s: State, c: Call, pid: Pid, nonblock: bool, timeout: bool): State {
    if s.m.satisfied then s.(log := s.log + [Success(c)])
    else
      var m := Arrived(s.m);
      var log := s.log + [Arrival(c, pid)];
      if m.satisfied then
        State(m, {}, s.woken + s.sleeping, s.timed, log + [Success(c)])
      else if nonblock then
        s.(m := m, log := log + [Failure(c)])
      else
        State(m, s.sleeping + {c}, s.woken, if timeout then s.timed + {c} else s.timed, log)
  }

  function Rechecked(s: State, c: Call): State {
    if s.m.satisfied then s.(woken := s.woken - {c}, timed := s.timed - {c}, log := s.log + [Success(c)])
    else s.(woken := s.woken - {c}, sleeping := s.sleeping + {c})
  }

  function Cleared(s: State): State {
    State(s.m.(count := 0, satisfied := false), {}, s.woken + s.sleeping, s.timed, s.log + [WasReset])
  }

  ghost predicate NextStep(s: State, t: State, step: Step) {
    match step
    case Enter(c, pid, nonblock, timeout) =>
      c !in s.sleeping + s.woken + s.timed && t == Entered(s, c, pid, nonblock, timeout)
    case Wake(c) => c in s.woken && t == Rechecked(s, c)
    case Spurious(c) => c in s.sleeping && t == s.(sleeping := s.sleeping - {c}, woken := s.woken + {c})
    case TimeOut(c) =>
      && c in s.timed && c in s.sleeping + s.woken
      && t == State(s.m, s.sleeping - {c}, s.woken - {c}, s.timed - {c}, s.log + [Failure(c)])
    case Reset => t == Cleared(s)
  }

  function Fresh(target: nat): State {
    State(Monitor(0, target, false), {}, {}, {}, [])
  }

  /** A run from `barrier create` with a count of at least one. */
  ghost predicate Run(target: nat, trace: seq<State>, steps: seq<Step>) {
    && 1 <= target < U32_LIMIT
    && |trace| == |steps| + 1 && trace[0] == Fresh(target)
    && forall k :: 0 <= k < |steps| ==> Follows(trace, steps, k)
  }

  ghost predicate Follows(trace: seq<State>, steps: seq<Step>, k: nat)
    requires k < |steps| && |trace| == |steps| + 1
  {
    NextStep(trace[k], trace[k + 1], steps[k])
  }

  // ----- The specification -----

  /** Counted calls since the last reset. */
  function Arrivals(log: seq<Event>): nat {
    if log == [] then 0
    else match log[|log| - 1]
      case WasReset => 0
      case Arrival(_, _) => Arrivals(log[..|log| - 1]) + 1
      case _ => Arrivals(log[..|log| - 1])
  }

  /** No call succeeded before enough calls had arrived since the last reset. */
  ghost predicate Sound(target: nat, log: seq<Event>) {
    forall k :: 0 <= k < |log| && log[k].Success? ==> Arrivals(log[..k]) == target
  }

  ghost predicate Inv(target: nat, s: State) {
    && s.m.target == target && 1 <= target < U32_LIMIT
    && s.m.count == Arrivals(s.log) <= target
    && (s.m.satisfied <==> s.m.count == target)
    && (s.m.satisfied ==> s.sleeping == {})
    && s.sleeping !! s.woken && s.timed <= s.sleeping + s.woken
    && Sound(target, s.log)
  }

  lemma Logged(target: nat, log: seq<Event>, e: Event)
    requires Sound(target, log) && (e.Success? ==> Arrivals(log) == target)
    ensures Sound(target, log + [e])
    ensures Arrivals(log + [e]) == if e.WasReset? then 0 else if e.Arrival? then Arrivals(log) + 1 else Arrivals(log)
  {
    var more := log + [e];
    assert more[..|more| - 1] == log;
    forall k | 0 <= k < |more| && more[k].Success? ensures Arrivals(more[..k]) == target {
      if k < |log| { assert more[..k] == log[..k] && more[k] == log[k]; }
    }
  }

  lemma EnterKeepsInv(target: nat, s: State, c: Call, pid: Pid, nonblock: bool, timeout: bool)
    requires Inv(target, s) && c !in s.sleeping + s.woken + s.timed
    ensures Inv(target, Entered(s, c, pid, nonblock, timeout))
  {
    if s.m.satisfied {
      Logged(target, s.log, Success(c));
    } else {
      var log := s.log + [Arrival(c, pid)];
      Logged(target, s.log, Arrival(c, pid));
      if s.m.count + 1 == target { Logged(target, log, Success(c)); }
      Logged(target, log, Failure(c));
    }
  }

  lemma WakeKeepsInv(target: nat, s: State, c: Call)
    requires Inv(target, s) && c in s.woken
    ensures Inv(target, Rechecked(s, c))
  {
    if s.m.satisfied { Logged(target, s.log, Success(c)); }
  }

  lemma StepKeepsInv(target: nat, s: State, t: State, step: Step)
    requires Inv(target, s) && NextStep(s, t, step)
    ensures Inv(target, t)
  {
    match step
    case Enter(c, pid, nonblock, timeout) => EnterKeepsInv(target, s, c, pid, nonblock, timeout);
    case Wake(c) => WakeKeepsInv(target, s, c);
    case TimeOut(c) => Logged(target, s.log, Failure(c));
    case Reset => Logged(target, s.log, WasReset);
    case Spurious(_) =>
  }

  lemma {:induction false} RunKeepsInv(target: nat, trace: seq<State>, steps: seq<Step>, n: nat)
    requires Run(target, trace, steps) && n < |trace|
    ensures Inv(target, trace[n])
  {
    if n > 0 {
      RunKeepsInv(target, trace, steps, n - 1);
      assert Follows(trace, steps, n - 1);
      StepKeepsInv(target, trace[n - 1], trace[n], steps[n - 1]);
    }
  }

  /**
   * Safety, through resets, timeouts, polls and spurious wakeups: the counter is the number of
   * arrivals since the last reset and fits its u32, satisfaction means exactly that the target is
   * reached, nobody succeeded earlier, and nobody sleeps un-notified while it is satisfied.
   */
  lemma BarrierSafe(target: nat, trace: seq<State>, steps: seq<Step>, n: nat)
    requires Run(target, trace, steps) && n < |trace|
    ensures var s := trace[n];
            && s.m.count == Arrivals(s.log) <= s.m.target == target
            && (!s.m.satisfied ==> s.m.count + 1 < U32_LIMIT)
            && (s.m.satisfied <==> Arrivals(s.log) == target)
            && (forall k :: 0 <= k < |s.log| && s.log[k].Success? ==> Arrivals(s.log[..k]) == target)
            && (s.m.satisfied ==> s.sleeping == {})
  {
    RunKeepsInv(target, trace, steps, n);
  }

  // ----- Completion without resets -----

  /** A step that takes a waiting call out of the barrier. */
  predicate Leaves(step: Step) {
    step.Wake? || step.TimeOut?
  }

  function CountLeaving(steps: seq<Step>): nat {
    if steps == [] then 0 else CountLeaving(steps[..|steps| - 1]) + (if Leaves(steps[|steps| - 1]) then 1 else 0)
  }

  lemma CountSnoc(steps: seq<Step>, step: Step)
    ensures CountLeaving(steps + [step]) == CountLeaving(steps) + if Leaves(step) then 1 else 0
  {
    assert (steps + [step])[..|steps|] == steps;
  }

  lemma CountUpTo(steps: seq<Step>, i: nat, n: nat)
    requires i < n <= |steps|
    ensures CountLeaving(steps[i..n]) == CountLeaving(steps[i..n - 1]) + if Leaves(steps[n - 1]) then 1 else 0
  {
    CountSnoc(steps[i..n - 1], steps[n - 1]);
    assert steps[i..n] == steps[i..n - 1] + [steps[n - 1]];
  }

  /** One step of a satisfied barrier: a scheduled waiter returns, and a new call does not wait. */
  lemma SatisfiedStep(target: nat, s: State, t: State, step: Step)
    requires Inv(target, s) && s.m.satisfied && NextStep(s, t, step) && !step.Reset?
    ensures t.m == s.m && t.sleeping == {}
    ensures |t.woken| == |s.woken| - (if Leaves(step) then 1 else 0)
    ensures step.Wake? ==> t.woken == s.woken - {step.call} && t.log == s.log + [Success(step.call)]
    ensures step.Enter? ==> t.woken == s.woken && t.log == s.log + [Success(step.call)]
    ensures !step.Spurious?
  {
    if step.TimeOut? { assert t.woken == s.woken - {step.call} && step.call in s.woken; }
  }

  lemma OneLeavesAtMost(target: nat, trace: seq<State>, steps: seq<Step>, n: nat)
    requires Run(target, trace, steps) && n < |steps| && trace[n].m.satisfied && !steps[n].Reset?
    ensures trace[n + 1].m.satisfied && trace[n + 1].sleeping == {}
    ensures |trace[n + 1].woken| == |trace[n].woken| - (if Leaves(steps[n]) then 1 else 0)
  {
    RunKeepsInv(target, trace, steps, n);
    assert Follows(trace, steps, n);
    SatisfiedStep(target, trace[n], trace[n + 1], steps[n]);
  }

  /**
   * Once the barrier is satisfied and until a reset, the outstanding calls are exactly notified
   * ones; each time one is scheduled there is one fewer, and none is ever added.
   */
  lemma {:induction false} BarrierCompletes(target: nat, trace: seq<State>, steps: seq<Step>, i: nat, n: nat)
    requires Run(target, trace, steps) && i <= n < |trace| && trace[i].m.satisfied
    requires forall k :: i <= k < n ==> !steps[k].Reset?
    ensures trace[n].m.satisfied && trace[n].sleeping == {}
    ensures |trace[n].woken| + CountLeaving(steps[i..n]) == |trace[i].woken|
  {
    RunKeepsInv(target, trace, steps, n);
    if i < n {
      BarrierCompletes(target, trace, steps, i, n - 1);
      OneLeavesAtMost(target, trace, steps, n - 1);
      CountUpTo(steps, i, n);
    } else {
      assert steps[i..n] == [];
    }
  }

  /** Each of them, when scheduled, returns success within one check. */
  lemma NotifiedReturns(target: nat, trace: seq<State>, steps: seq<Step>, n: nat, c: Call, t: State)
    requires Run(target, trace, steps) && n < |trace| && trace[n].m.satisfied && c in trace[n].woken
    ensures NextStep(trace[n], Rechecked(trace[n], c), Wake(c))
    ensures NextStep(trace[n], t, Wake(c)) ==>
              t.log == trace[n].log + [Success(c)] && c !in t.woken + t.sleeping
  {
    RunKeepsInv(target, trace, steps, n);
  }

  /** A spurious wakeup can happen to any sleeper at any time, and without a broadcast it changes nothing. */
  lemma SpuriousIsHarmless(target: nat, s: State, c: Call)
    requires Inv(target, s) && c in s.sleeping
    ensures exists t ::
      && NextStep(s, t, Spurious(c)) && c in t.woken && c !in t.sleeping && t.m == s.m && t.log == s.log
      && NextStep(t, s, Wake(c))
  {
    var t := s.(sleeping := s.sleeping - {c}, woken := s.woken + {c});
    assert t.woken - {c} == s.woken && t.sleeping + {c} == s.sleeping;
    assert NextStep(s, t, Spurious(c)) && NextStep(t, s, Wake(c));
  }

  // ----- Where the code keeps less than its documentation says -----

  /** A waiter that wakes succeeds exactly when the target has been reached since the last reset. */
  lemma WakeSucceedsIff(target: nat, s: State, t: State, c: Call)
    requires Inv(target, s) && NextStep(s, t, Wake(c))
    ensures t.log == s.log + [Success(c)] <==> Arrivals(s.log) == target
    ensures Arrivals(s.log) != target ==> c in t.sleeping && t.log == s.log
  {
    if s.m.satisfied {} else { assert |t.log| == |s.log|; }
  }

  /** So a reset can put a waiter back to sleep although its round was complete. */
  lemma ResetStrandsWaiter() returns (trace: seq<State>, steps: seq<Step>)
    ensures Run(2, trace, steps) && |trace| == 5
    ensures trace[2].m.satisfied && 1 in trace[2].woken && Arrival(1, 10) in trace[2].log
    ensures 1 in trace[4].sleeping && Success(1) !in trace[4].log
  {
    steps := [Enter(1, 10, false, false), Enter(2, 20, false, false), Reset, Wake(1)];
    var s0 := Fresh(2);
    var s1 := Entered(s0, 1, 10, false, false);
    var s2 := Entered(s1, 2, 20, false, false);
    var s3 := Cleared(s2);
    trace := [s0, s1, s2, s3, Rechecked(s3, 1)];
    assert s2.log == [Arrival(1, 10), Arrival(2, 20), Success(2)];
  }

  /** Call c returns, or gives up. */
  predicate Departs(s: State, t: State, c: Call) {
    c in s.sleeping + s.woken && c !in t.sleeping + t.woken
  }

  /**
   * Whichever step takes an outstanding call out of a satisfied barrier next, it returns success:
   * that is so exactly when the call has no timeout.
   */
  lemma SuccessIsSureIff(target: nat, s: State, c: Call)
    requires Inv(target, s) && s.m.satisfied && c in s.woken
    ensures (forall t, step :: NextStep(s, t, step) && Departs(s, t, c) ==> t.log == s.log + [Success(c)])
            <==> c !in s.timed
  {
    if c in s.timed {
      var t := State(s.m, s.sleeping - {c}, s.woken - {c}, s.timed - {c}, s.log + [Failure(c)]);
      assert NextStep(s, t, TimeOut(c)) && Departs(s, t, c);
      assert t.log[|s.log|] != Success(c);
    }
  }

  /** One step of a satisfied barrier, as an untimed call sees it. */
  lemma UntimedStep(target: nat, s: State, t: State, step: Step, c: Call)
    requires Inv(target, s) && s.m.satisfied && c !in s.timed && NextStep(s, t, step) && !step.Reset?
    ensures c !in t.timed && s.log <= t.log && Failure(c) !in t.log[|s.log|..]
    ensures c in s.woken ==> c in t.woken || Success(c) in t.log[|s.log|..]
  {
    SatisfiedStep(target, s, t, step);
    if step.Wake? { assert t.log[|s.log|] == Success(step.call); }
  }

  /**
   * Over every continuation without a reset, however long: an untimed call that a satisfied barrier
   * has notified never reports failure, and as long as it has not reported success it is still notified.
   */
  lemma {:induction false} SureUntilReset(target: nat, trace: seq<State>, steps: seq<Step>, i: nat, n: nat, c: Call)
    requires Run(target, trace, steps) && i <= n < |trace|
    requires trace[i].m.satisfied && c in trace[i].woken && c !in trace[i].timed
    requires forall k :: i <= k < n ==> !steps[k].Reset?
    ensures trace[i].log <= trace[n].log && c !in trace[n].timed
    ensures var since := trace[n].log[|trace[i].log|..];
            Failure(c) !in since && (c in trace[n].woken || Success(c) in since)
  {
    if i < n {
      SureUntilReset(target, trace, steps, i, n - 1, c);
      BarrierCompletes(target, trace, steps, i, n - 1);
      RunKeepsInv(target, trace, steps, n - 1);
      assert Follows(trace, steps, n - 1);
      UntimedStep(target, trace[n - 1], trace[n], steps[n - 1], c);
      LogsJoin(trace[i].log, trace[n - 1].log, trace[n].log);
    }
  }

  lemma LogsJoin(a: seq<Event>, b: seq<Event>, d: seq<Event>)
    requires a <= b <= d
    ensures a <= d && d[|a|..] == b[|a|..] + d[|b|..]
  {
  }

  // ----- No call is lost -----

  /** How often a call has reported its outcome. */
  function Outcomes(log: seq<Event>, c: Call): nat {
    if log == [] then 0
    else Outcomes(log[..|log| - 1], c) + if Reports(log[|log| - 1], c) then 1 else 0
  }

  predicate Reports(e: Event, c: Call) {
    e == Success(c) || e == Failure(c)
  }

  /** How often it has entered. */
  function Entries(steps: seq<Step>, c: Call): nat {
    if steps == [] then 0
    else
      var last := steps[|steps| - 1];
      Entries(steps[..|steps| - 1], c) + if last.Enter? && last.call == c then 1 else 0
  }

  predicate Waits(s: State, c: Call) {
    c in s.sleeping + s.woken
  }

  lemma OutcomesSnoc(log: seq<Event>, e: Event, c: Call)
    ensures Outcomes(log + [e], c) == Outcomes(log, c) + if Reports(e, c) then 1 else 0
  {
    assert (log + [e])[..|log|] == log;
  }

  /** What a call has reported, and whether it waits. */
  function Account(s: State, c: Call): nat {
    Outcomes(s.log, c) + if Waits(s, c) then 1 else 0
  }

  lemma TwoLogged(log: seq<Event>, a: Event, b: Event, c: Call)
    ensures Outcomes(log + [a] + [b], c)
            == Outcomes(log, c) + (if Reports(a, c) then 1 else 0) + if Reports(b, c) then 1 else 0
  {
    OutcomesSnoc(log, a, c);
    OutcomesSnoc(log + [a], b, c);
  }

  /** What a call that enters an unsatisfied barrier leaves. */
  lemma ArrivalAccounts(s: State, t: State, x: Call, pid: Pid, nonblock: bool, timeout: bool, c: Call)
    requires !Waits(s, x) && !s.m.satisfied && t == Entered(s, x, pid, nonblock, timeout)
    ensures Outcomes(t.log, c) == Outcomes(s.log, c) + if x == c && !Waits(t, x) then 1 else 0
    ensures c != x ==> (Waits(t, c) <==> Waits(s, c))
  {
    if Arrived(s.m).satisfied {
      TwoLogged(s.log, Arrival(x, pid), Success(x), c);
    } else if nonblock {
      TwoLogged(s.log, Arrival(x, pid), Failure(x), c);
    } else {
      OutcomesSnoc(s.log, Arrival(x, pid), c);
    }
  }

  lemma EnterAccounts(s: State, t: State, x: Call, pid: Pid, nonblock: bool, timeout: bool, c: Call)
    requires !Waits(s, x) && t == Entered(s, x, pid, nonblock, timeout)
    ensures Account(t, c) == Account(s, c) + if x == c then 1 else 0
  {
    if s.m.satisfied {
      OutcomesSnoc(s.log, Success(x), c);
    } else {
      ArrivalAccounts(s, t, x, pid, nonblock, timeout, c);
    }
  }

  lemma WakeAccounts(s: State, t: State, x: Call, c: Call)
    requires x in s.woken && s.sleeping !! s.woken && t == Rechecked(s, x)
    ensures Account(t, c) == Account(s, c)
  {
    OutcomesSnoc(s.log, Success(x), c);
  }

  lemma TimeOutAccounts(s: State, t: State, x: Call, c: Call)
    requires NextStep(s, t, TimeOut(x))
    ensures Account(t, c) == Account(s, c)
  {
    OutcomesSnoc(s.log, Failure(x), c);
  }

  lemma ResetAccounts(s: State, t: State, c: Call)
    requires t == Cleared(s)
    ensures Account(t, c) == Account(s, c)
  {
    OutcomesSnoc(s.log, WasReset, c);
  }

  /** It changes only as the call enters. */
  lemma StepAccounts(target: nat, s: State, t: State, step: Step, c: Call)
    requires Inv(target, s) && NextStep(s, t, step)
    ensures Account(t, c) == Account(s, c) + if step.Enter? && step.call == c then 1 else 0
  {
    match step
    case Enter(x, pid, nonblock, timeout) => EnterAccounts(s, t, x, pid, nonblock, timeout, c);
    case Wake(x) => WakeAccounts(s, t, x, c);
    case TimeOut(x) => TimeOutAccounts(s, t, x, c);
    case Reset => ResetAccounts(s, t, c);
    case Spurious(_) =>
  }

  /**
   * Conservation, over every run with any resets: a call has reported exactly one outcome for each
   * time that it entered, except that it still waits for the last one. Nobody is forgotten, by a
   * reset or otherwise, and nobody reports twice.
   */
  lemma {:induction false} CallsAreAccounted(target: nat, trace: seq<State>, steps: seq<Step>, n: nat, c: Call)
    requires Run(target, trace, steps) && n < |trace|
    ensures Account(trace[n], c) == Entries(steps[..n], c)
  {
    if n > 0 {
      CallsAreAccounted(target, trace, steps, n - 1, c);
      RunKeepsInv(target, trace, steps, n - 1);
      assert Follows(trace, steps, n - 1);
      StepAccounts(target, trace[n - 1], trace[n], steps[n - 1], c);
      assert steps[..n][..n - 1] == steps[..n - 1];
    }
  }

  lemma StepKeepsCall(s: State, t: State, step: Step, c: Call)
    requires NextStep(s, t, step) && (Waits(s, c) || (step.Enter? && step.call == c))
    ensures s.log <= t.log
    ensures var since := t.log[|s.log|..]; Waits(t, c) || Success(c) in since || Failure(c) in since
  {
    assert Waits(t, c) || t.log[|t.log| - 1] in t.log[|s.log|..];
  }

  /** So a call that waits, or enters, at one moment waits at every later one, or has reported since. */
  lemma {:induction false} NoCallIsLost(target: nat, trace: seq<State>, steps: seq<Step>, i: nat, n: nat, c: Call)
    requires Run(target, trace, steps) && i <= n < |trace|
    requires Waits(trace[i], c) || (i < n && steps[i].Enter? && steps[i].call == c)
    ensures trace[i].log <= trace[n].log
    ensures var since := trace[n].log[|trace[i].log|..];
            Waits(trace[n], c) || Success(c) in since || Failure(c) in since
  {
    if i < n {
      assert Follows(trace, steps, n - 1) && Follows(trace, steps, i);
      if i == n - 1 {
        StepKeepsCall(trace[i], trace[n], steps[i], c);
      } else {
        NoCallIsLost(target, trace, steps, i, n - 1, c);
        LogGrows(trace[n - 1], trace[n], steps[n - 1]);
        if Waits(trace[n - 1], c) { StepKeepsCall(trace[n - 1], trace[n], steps[n - 1], c); }
        LogsJoin(trace[i].log, trace[n - 1].log, trace[n].log);
      }
    }
  }

  lemma LogGrows(s: State, t: State, step: Step)
    requires NextStep(s, t, step)
    ensures s.log <= t.log
  {
  }

  /** The last arrival and every reset broadcast: whoever waits is notified. */
  lemma BroadcastReachesAll(s: State, t: State, step: Step)
    requires NextStep(s, t, step) && (step.Reset? || (!s.m.satisfied && t.m.satisfied))
    ensures t.sleeping == {} && t.woken == s.sleeping + s.woken
  {
  }

  /** The latest entry of a call. */
  function LastEntry(steps: seq<Step>, c: Call): Option<Step> {
    if steps == [] then None
    else
      var last := steps[|steps| - 1];
      if last.Enter? && last.call == c then Some(last) else LastEntry(steps[..|steps| - 1], c)
  }

  /** A waiting call entered without -n, and it is timed exactly when it was given -t. */
  ghost predicate ModesKept(s: State, done: seq<Step>) {
    forall c :: c in s.sleeping + s.woken ==> ModeKept(s, done, c)
  }

  ghost predicate ModeKept(s: State, done: seq<Step>, c: Call) {
    var e := LastEntry(done, c);
    e.Some? && e.value.Enter? && !e.value.nonblock && (c in s.timed <==> e.value.timeout)
  }

  lemma EntrySnoc(done: seq<Step>, step: Step, c: Call)
    ensures LastEntry(done + [step], c) == if step.Enter? && step.call == c then Some(step) else LastEntry(done, c)
  {
    assert (done + [step])[..|done|] == done;
  }

  lemma StepKeepsModes(target: nat, s: State, t: State, step: Step, done: seq<Step>)
    requires Inv(target, s) && NextStep(s, t, step) && ModesKept(s, done)
    ensures ModesKept(t, done + [step])
  {
    forall c | c in t.sleeping + t.woken ensures ModeKept(t, done + [step], c) {
      EntrySnoc(done, step, c);
      assert c in s.sleeping + s.woken ==> ModeKept(s, done, c);
    }
  }

  lemma {:induction false} RunKeepsModes(target: nat, trace: seq<State>, steps: seq<Step>, n: nat)
    requires Run(target, trace, steps) && n < |trace|
    ensures ModesKept(trace[n], steps[..n])
  {
    if n > 0 {
      RunKeepsModes(target, trace, steps, n - 1);
      RunKeepsInv(target, trace, steps, n - 1);
      assert Follows(trace, steps, n - 1);
      StepKeepsModes(target, trace[n - 1], trace[n], steps[n - 1], steps[..n - 1]);
      assert steps[..n] == steps[..n - 1] + [steps[n - 1]];
    }
  }

  /** In terms of what the caller asked for: success is sure exactly for the calls without -t. */
  lemma UntimedCallsSucceed(target: nat, trace: seq<State>, steps: seq<Step>, n: nat, c: Call)
    requires Run(target, trace, steps) && n < |trace| && trace[n].m.satisfied && c in trace[n].woken
    ensures var e := LastEntry(steps[..n], c);
            && e.Some? && e.value.Enter?
            && ((forall t, step :: NextStep(trace[n], t, step) && Departs(trace[n], t, c) ==>
                                     t.log == trace[n].log + [Success(c)])
                <==> !e.value.timeout)
  {
    RunKeepsInv(target, trace, steps, n);
    RunKeepsModes(target, trace, steps, n);
    assert ModeKept(trace[n], steps[..n], c);
    SuccessIsSureIff(target, trace[n], c);
  }

  predicate MayFail(step: Step, c: Call) {
    step.Enter? && step.call == c && (step.nonblock || step.timeout)
  }

  /** A call that reports failure was given -n or -t. */
  lemma {:induction false} OnlyBoundedCallsFail(target: nat, trace: seq<State>, steps: seq<Step>, n: nat, c: Call)
    requires Run(target, trace, steps) && n < |trace| && Failure(c) in trace[n].log
    ensures exists k :: 0 <= k < n && MayFail(steps[k], c)
  {
    if n > 0 {
      var s, step := trace[n - 1], steps[n - 1];
      assert Follows(trace, steps, n - 1);
      if Failure(c) in s.log {
        OnlyBoundedCallsFail(target, trace, steps, n - 1, c);
      } else if step.TimeOut? {
        RunKeepsInv(target, trace, steps, n - 1);
        RunKeepsModes(target, trace, steps, n - 1);
        assert ModeKept(s, steps[..n - 1], c);
        var k := EntryAt(steps[..n - 1], c);
        assert MayFail(steps[k], c);
      } else {
        assert MayFail(step, c);
      }
    }
  }

  lemma {:induction false} EntryAt(steps: seq<Step>, c: Call) returns (k: nat)
    requires LastEntry(steps, c).Some?
    ensures k < |steps| && LastEntry(steps, c) == Some(steps[k]) && steps[k].Enter? && steps[k].call == c
  {
    k := |steps| - 1;
    if !(steps[k].Enter? && steps[k].call == c) { k := EntryAt(steps[..k], c); }
  }

  /** A timed call can report failure although the barrier is satisfied and the call was notified. */
  lemma TimeoutCanLoseTheRace() returns (trace: seq<State>, steps: seq<Step>)
    ensures Run(2, trace, steps) && |trace| == 4
    ensures trace[2].m.satisfied && 1 in trace[2].woken
    ensures trace[3].m.satisfied && trace[3].log == trace[2].log + [Failure(1)]
  {
    steps := [Enter(1, 10, false, true), Enter(2, 20, false, false), TimeOut(1)];
    var s0 := Fresh(2);
    var s1 := Entered(s0, 1, 10, false, true);
    var s2 := Entered(s1, 2, 20, false, false);
    trace := [s0, s1, s2, State(s2.m, s2.sleeping - {1}, s2.woken - {1}, s2.timed - {1}, s2.log + [Failure(1)])];
  }

  // ----- Processes -----

  /** Who arrived since the last reset, in order. */
  function Arrivers(log: seq<Event>): seq<Pid> {
    if log == [] then []
    else match log[|log| - 1]
      case WasReset => []
      case Arrival(_, pid) => Arrivers(log[..|log| - 1]) + [pid]
      case _ => Arrivers(log[..|log| - 1])
  }

  function Distinct(pids: seq<Pid>): set<Pid> {
    set p | p in pids
  }

  ghost predicate NobodyTwice(pids: seq<Pid>) {
    forall i, j :: 0 <= i < j < |pids| ==> pids[i] != pids[j]
  }

  lemma {:induction false} ArriversAreArrivals(log: seq<Event>)
    ensures |Arrivers(log)| == Arrivals(log)
  {
    if log != [] { ArriversAreArrivals(log[..|log| - 1]); }
  }

  lemma {:induction false} DistinctPidCount(pids: seq<Pid>)
    ensures |Distinct(pids)| <= |pids|
    ensures |Distinct(pids)| == |pids| <==> NobodyTwice(pids)
  {
    if pids != [] {
      var n := |pids| - 1;
      var most, last := pids[..n], pids[n];
      DistinctPidCount(most);
      assert pids == most + [last];
      assert Distinct(pids) == Distinct(most) + {last};
      if last in most {
        var i :| 0 <= i < n && most[i] == last;
        assert pids[i] == pids[n];
      } else {
        assert NobodyTwice(most) ==> NobodyTwice(pids);
      }
      assert NobodyTwice(pids) ==> NobodyTwice(most);
    }
  }

  /**
   * A barrier is to block until `target` distinct processes have called. In every run, whenever it
   * is satisfied and whenever a call succeeds, that many distinct processes have arrived since the
   * last reset exactly when none of them arrived twice.
   */
  lemma DistinctProcessesIff(target: nat, trace: seq<State>, steps: seq<Step>, n: nat)
    requires Run(target, trace, steps) && n < |trace|
    ensures var log := trace[n].log;
            && (trace[n].m.satisfied ==>
                  (|Distinct(Arrivers(log))| == target <==> NobodyTwice(Arrivers(log))))
            && forall k :: 0 <= k < |log| && log[k].Success? ==>
                 (|Distinct(Arrivers(log[..k]))| == target <==> NobodyTwice(Arrivers(log[..k])))
  {
    RunKeepsInv(target, trace, steps, n);
    var log := trace[n].log;
    ArriversAreArrivals(log);
    DistinctPidCount(Arrivers(log));
    forall k | 0 <= k < |log| && log[k].Success?
      ensures |Distinct(Arrivers(log[..k]))| == target <==> NobodyTwice(Arrivers(log[..k]))
    {
      ArriversAreArrivals(log[..k]);
      DistinctPidCount(Arrivers(log[..k]));
    }
  }

  /** One process that polls twice satisfies a barrier for two. */
  lemma OneProcessTwice(p: Pid) returns (trace: seq<State>, steps: seq<Step>)
    ensures Run(2, trace, steps) && |trace| == 3
    ensures trace[2].m.satisfied && Success(2) in trace[2].log && Distinct(Arrivers(trace[2].log)) == {p}
  {
    steps := [Enter(1, p, true, false), Enter(2, p, true, false)];
    var s0 := Fresh(2);
    var s1 := Entered(s0, 1, p, true, false);
    var s2 := Entered(s1, 2, p, true, false);
    trace := [s0, s1, s2];
    assert s1.log == [Arrival(1, p), Failure(1)];
    assert s2.log == [Arrival(1, p), Failure(1), Arrival(2, p), Success(2)];
    assert s2.log[..3][..2] == s1.log && s1.log[..1] == [Arrival(1, p)];
    assert Arrivers(s1.log) == [p] by { assert Arrivers([Arrival(1, p)]) == [p]; }
    assert s2.log[..3] == [Arrival(1, p), Failure(1), Arrival(2, p)];
    assert Arrivers(s2.log) == Arrivers(s2.log[..3]) == [p] + [p];
  }

  /** The barrier after k calls of `wait -n`, call k by `who(k)`. */
  function Polled(target: nat, k: nat, who: nat -> Pid): State {
    if k == 0 then Fresh(target) else Entered(Polled(target, k - 1, who), k, who(k), true, false)
  }

  /** Arrivals are calls, not processes: `target` polls by any processes satisfy it, and not one fewer. */
  lemma {:induction false} PollsCount(target: nat, k: nat, who: nat -> Pid)
    requires 1 <= target < U32_LIMIT
    ensures var s := Polled(target, k, who);
            && Inv(target, s)
            && (s.m.satisfied <==> k >= target)
            && s.m.count == (if k < target then k else target)
            && s.sleeping == s.woken == s.timed == {}
  {
    if k > 0 {
      PollsCount(target, k - 1, who);
      StepKeepsInv(target, Polled(target, k - 1, who), Polled(target, k, who), Enter(k, who(k), true, false));
    }
  }

  // ----- The code and the machine -----

  /** The first section of a call is the Enter step. */
  lemma SectionsAreSteps(s: State, c: Call, pid: Pid, nonblock: bool, timeout: bool)
    requires c !in s.sleeping + s.woken
    ensures var (t, (m, outcome)) := (Entered(s, c, pid, nonblock, timeout), First(s.m, nonblock));
            && t.m == m
            && (c in t.sleeping <==> outcome == StillWaiting)
            && (outcome == Ok ==> |t.log| > |s.log| && t.log[|t.log| - 1] == Success(c))
            && (outcome == ExecutionFailure ==> t.log == s.log + [Arrival(c, pid), Failure(c)])
            && (outcome == StillWaiting ==> t.log == s.log + [Arrival(c, pid)])
  {
  }

  /** Each return from the condition variable is the Wake step, or the TimeOut step if it failed. */
  lemma WakeUpsAreSteps(s: State, c: Call, t: State, rc: int)
    requires c in s.woken && c !in s.sleeping
    requires NextStep(s, t, if rc == 0 then Wake(c) else TimeOut(c))
    ensures t.m == s.m
    ensures match Later(s.m, rc)
            case Ok => t.log == s.log + [Success(c)] && c !in t.sleeping + t.woken
            case ExecutionFailure => t.log == s.log + [Failure(c)] && c !in t.sleeping + t.woken
            case StillWaiting => t.log == s.log && c in t.sleeping
  {
  }

  // ----- The code -----

  /** A return from pthread_cond_wait: its status, and what the others have made of the fields. */
  datatype WakeUp = WakeUp(rc: int, m: Monitor)

  class Barrier {
    var count: nat
    var target: nat
    var satisfied: nat

    ghost predicate Valid()
      reads this
    {
      1 <= target < U32_LIMIT && count <= target && satisfied == if count == target then 1 else 0
    }

    ghost function Value(): Monitor
      reads this
    {
      Monitor(count, target, satisfied != 0)
    }

    constructor (target: nat)
      requires 1 <= target < U32_LIMIT
      ensures Valid() && Value() == Fresh(target).m
    {
      this.count, this.target, this.satisfied := 0, target, 0;
    }

    /** Every arrival, and only the last one, broadcasts. */
    method Arrive() returns (ready: bool, broadcast: bool)
      requires Valid() && satisfied == 0
      modifies this
      ensures Valid() && Value() == Arrived(old(Value())) && count < U32_LIMIT
      ensures ready == broadcast == (count == target)
    {
      count := count + 1;
      broadcast := false;
      if count == target {
        satisfied := 1;
        broadcast := true;
      }
      ready := satisfied != 0;
    }

    /**
     * The whole call, given the returns from the condition variable it would see. `left` are the
     * fields as the call leaves them, at each wait and in the end.
     */
    method Wait(nonblock: bool, wakes: seq<WakeUp>) returns (r: Outcome, ghost left: seq<Monitor>)
      requires Valid()
      modifies this
      ensures |left| > 0 && left[0] == First(old(Value()), nonblock).0 && left[|left| - 1] == Value()
      ensures First(old(Value()), nonblock).1 != StillWaiting ==> r == First(old(Value()), nonblock).1 && |left| == 1
      ensures First(old(Value()), nonblock).1 == StillWaiting ==>
                && |left| <= |wakes| + 1
                && (forall x :: 1 <= x < |left| ==> left[x] == wakes[x - 1].m)
                && (forall x :: 0 <= x < |left| - 2 ==> Later(wakes[x].m, wakes[x].rc) == StillWaiting)
                && (r == if |left| == 1 then StillWaiting else Later(wakes[|left| - 2].m, wakes[|left| - 2].rc))
                && (r == StillWaiting ==> |left| == |wakes| + 1)
    {
      if satisfied != 0 { return Ok, [Value()]; }
      var ready, _ := Arrive();
      left := [Value()];
      if nonblock {
        r := if ready then Ok else ExecutionFailure;
        return;
      }
      if ready { return Ok, left; }
      var i := 0;
      while i < |wakes|
        invariant i <= |wakes| && |left| == i + 1 && left[0] == First(old(Value()), nonblock).0
        invariant left[i] == Value()
        invariant forall x :: 1 <= x <= i ==> left[x] == wakes[x - 1].m
        invariant forall x :: 0 <= x < i ==> Later(wakes[x].m, wakes[x].rc) == StillWaiting
      {
        count, target, satisfied := wakes[i].m.count, wakes[i].m.target, if wakes[i].m.satisfied then 1 else 0;
        left := left + [Value()];
        if wakes[i].rc != 0 { return ExecutionFailure, left; }
        if satisfied != 0 { return Ok, left; }
        i := i + 1;
      }
      r := StillWaiting;
    }

    /** Waiters are woken, to find the barrier unsatisfied. */
    method Clear() returns (broadcast: bool)
      requires Valid()
      modifies this
      ensures Valid() && Value() == old(Value()).(count := 0, satisfied := false) && broadcast
    {
      count := 0;
      satisfied := 0;
      broadcast := true;
    }
  }
}
