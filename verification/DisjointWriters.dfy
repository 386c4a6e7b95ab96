// Element assignments to one shared array by processes that own disjoint sets of indices: the
// argument for sorting in parallel without a mutex.

module DisjointWriters {
  import opened Bytes
  import opened Databases
  import opened Sections

  datatype Assignment = Assignment(writer: Pid, index: Index, value: CString)

  /** The committed writes of a history are assignments to elements of `name`, in this order. */
  ghost predicate Performs(history: seq<Event>, name: CString, log: seq<Assignment>)
    decreases |history|
  {
    if history == [] then log == []
    else
      var last := history[|history| - 1];
      if last.Returned? then Performs(history[..|history| - 1], name, log)
      else
        && log != []
        && var a := log[|log| - 1];
           && a.writer == last.writer
           && (forall d: Database :: last.update(d) == SetElement(d, name, a.index, a.value))
           && Performs(history[..|history| - 1], name, log[..|log| - 1])
  }

  ghost predicate Owned(owner: map<Index, Pid>, log: seq<Assignment>) {
    forall k :: 0 <= k < |log| ==> log[k].index in owner && owner[log[k].index] == log[k].writer
  }

  /** What process p did, in its own order. */
  function Project(log: seq<Assignment>, p: Pid): seq<Assignment> {
    if log == [] then []
    else
      var last := log[|log| - 1];
      Project(log[..|log| - 1], p) + (if last.writer == p then [last] else [])
  }

  /** The last value assigned to index i. */
  function LastValue(log: seq<Assignment>, i: Index): Option<CString> {
    if log == [] then None
    else if log[|log| - 1].index == i then Some(log[|log| - 1].value)
    else LastValue(log[..|log| - 1], i)
  }

  /** After any interleaving, each index holds the last value assigned to it, or what it held. */
  ghost predicate Holds(d: Database, after: Database, name: CString, log: seq<Assignment>) {
    && (forall i: Index :: i in Elements(after, name) <==> (LastValue(log, i).Some? || i in Elements(d, name)))
    && (forall i: Index :: i in Elements(after, name) ==>
         Elements(after, name)[i] == if LastValue(log, i).Some? then LastValue(log, i).value else Elements(d, name)[i])
    && (forall other: CString :: other != name ==>
         (other in d <==> other in after) && (other in d ==> after[other] == d[other]))
    && (if log == [] then after == d else name in after && after[name].Array?)
  }

  lemma {:induction false} EveryIndexHoldsItsLastValue(d: Database, history: seq<Event>, name: CString,
                                                       log: seq<Assignment>)
    requires Performs(history, name, log)
    ensures Holds(d, Replay(d, history), name, log)
    decreases |history|
  {
    if history != [] {
      var most := history[..|history| - 1];
      if history[|history| - 1].Returned? {
        EveryIndexHoldsItsLastValue(d, most, name, log);
      } else {
        EveryIndexHoldsItsLastValue(d, most, name, log[..|log| - 1]);
        var a := log[|log| - 1];
        assert Replay(d, history) == SetElement(Replay(d, most), name, a.index, a.value);
      }
    }
  }

  /** An index's last value is decided by its owner alone. */
  lemma {:induction false} OwnerDecides(owner: map<Index, Pid>, log: seq<Assignment>, i: Index)
    requires Owned(owner, log)
    ensures LastValue(log, i) == if i in owner then LastValue(Project(log, owner[i]), i) else None
  {
    if log != [] {
      var most, last := log[..|log| - 1], log[|log| - 1];
      OwnerDecides(owner, most, i);
      if i in owner {
        var mine := Project(log, owner[i]);
        if last.writer == owner[i] {
          assert mine[..|mine| - 1] == Project(most, owner[i]) && mine[|mine| - 1] == last;
        } else {
          assert mine == Project(most, owner[i]);
        }
      }
    }
  }

  lemma BothOrNeitherEmpty(a: seq<Assignment>, b: seq<Assignment>)
    requires forall p :: Project(a, p) == Project(b, p)
    ensures a == [] <==> b == []
  {
    if a != [] { assert Project(a, a[|a| - 1].writer) != []; }
    if b != [] { assert Project(b, b[|b| - 1].writer) != []; }
  }

  /**
   * Two runs in which every process makes the same assignments in its own order, however they
   * interleave, end in the same database.
   */
  lemma InterleavingsAgree(d: Database, name: CString, owner: map<Index, Pid>,
                           h: seq<Event>, k: seq<Event>, a: seq<Assignment>, b: seq<Assignment>)
    requires Performs(h, name, a) && Performs(k, name, b) && Owned(owner, a) && Owned(owner, b)
    requires forall p :: Project(a, p) == Project(b, p)
    ensures Replay(d, h) == Replay(d, k)
  {
    EveryIndexHoldsItsLastValue(d, h, name, a);
    EveryIndexHoldsItsLastValue(d, k, name, b);
    forall i: Index ensures LastValue(a, i) == LastValue(b, i) {
      OwnerDecides(owner, a, i);
      OwnerDecides(owner, b, i);
    }
    BothOrNeitherEmpty(a, b);
    LastValuesDecide(d, Replay(d, h), Replay(d, k), name, a, b);
  }

  lemma LastValuesDecide(d: Database, x: Database, y: Database, name: CString, a: seq<Assignment>, b: seq<Assignment>)
    requires Holds(d, x, name, a) && Holds(d, y, name, b) && (a == [] <==> b == [])
    requires forall i: Index :: LastValue(a, i) == LastValue(b, i)
    ensures x == y
  {
    assert Elements(x, name) == Elements(y, name);
    assert name in x <==> name in y;
    forall other: CString ensures (other in x <==> other in y) && (other in x ==> x[other] == y[other]) {}
  }
}
