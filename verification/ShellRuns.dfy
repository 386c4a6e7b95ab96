// Any number of shells that share stores: forked children with stale tables, getters, setters, bind,
// unbind, drop and clear, in any order. Each access to a store is one step, which is what the locks
// of the stores give.

module ShellRuns {
  import opened Bytes
  import opened Databases
  import opened ShmVariables

  // ----- Writes, and what they make of a database -----

  /** What a successful write did to a store. */
  datatype Write =
    | Element(name: CString, i: Index, value: CString)
    | Pair(name: CString, key: CString, value: CString)
    | Seed(name: CString, data: VarData)
    | Remove(name: CString)
    | Wipe

  function Apply(d: Database, w: Write): Database {
    match w
    case Element(name, i, value) => SetElement(d, name, i, value)
    case Pair(name, key, value) => SetPair(d, name, key, value)
    case Seed(name, data) => SetEntry(d, name, data)
    case Remove(name) => RemoveEntry(d, name)
    case Wipe => EMPTY_DATABASE
  }

  function Replay(d: Database, log: seq<Write>): Database {
    if log == [] then d else Apply(Replay(d, log[..|log| - 1]), log[|log| - 1])
  }

  lemma {:induction false} ReplaysJoin(d: Database, a: seq<Write>, b: seq<Write>)
    ensures Replay(d, a + b) == Replay(Replay(d, a), b)
  {
    if b == [] {
      assert a + b == a;
    } else {
      ReplaysJoin(d, a, b[..|b| - 1]);
      assert (a + b)[..|a + b| - 1] == a + b[..|b| - 1];
    }
  }

  /** The entry of one variable, followed by itself. */
  function EntryAfter(v: Option<VarData>, name: CString, log: seq<Write>): Option<VarData> {
    if log == [] then v
    else
      var before := EntryAfter(v, name, log[..|log| - 1]);
      var old_ := if before.Some? then before.value else Array(map[]);
      match log[|log| - 1]
      case Element(n, i, value) => if n == name then Some(InsertIndex(old_, i, value)) else before
      case Pair(n, key, value) => if n == name then Some(InsertKey(old_, key, value)) else before
      case Seed(n, data) => if n == name then Some(data) else before
      case Remove(n) => if n == name then None else before
      case Wipe => None
  }

  function EntryOf(d: Database, name: CString): Option<VarData> {
    if name in d then Some(d[name]) else None
  }

  lemma {:induction false} EntryOfReplay(d: Database, name: CString, log: seq<Write>)
    ensures EntryOf(Replay(d, log), name) == EntryAfter(EntryOf(d, name), name, log)
  {
    if log != [] { EntryOfReplay(d, name, log[..|log| - 1]); }
  }

  /** The value that was last assigned to an element and has not been discarded with its array. */
  function LastAssigned(v: Option<CString>, name: CString, i: Index, log: seq<Write>): Option<CString> {
    if log == [] then v
    else Assigned(LastAssigned(v, name, i, log[..|log| - 1]), name, i, log[|log| - 1])
  }

  /** One write, as one element sees it. */
  function Assigned(before: Option<CString>, name: CString, i: Index, w: Write): Option<CString> {
    match w
    case Element(n, j, value) => if n == name && j == i then Some(value) else before
    case Pair(n, _, _) => if n == name then None else before
    case Seed(n, data) =>
      if n != name then before
      else if data.Array? && i in data.elems then Some(data.elems[i])
      else None
    case Remove(n) => if n == name then None else before
    case Wipe => None
  }

  lemma ElementOfApply(d: Database, name: CString, i: Index, w: Write)
    ensures ElementAt(Apply(d, w), name, i) == Assigned(ElementAt(d, name, i), name, i, w)
  {
  }

  lemma {:induction false} ElementOfReplay(d: Database, name: CString, i: Index, log: seq<Write>)
    ensures ElementAt(Replay(d, log), name, i) == LastAssigned(ElementAt(d, name, i), name, i, log)
  {
    if log != [] {
      var most := log[..|log| - 1];
      ElementOfReplay(d, name, i, most);
      ElementOfApply(Replay(d, most), name, i, log[|log| - 1]);
    }
  }

  predicate Touches(w: Write, name: CString) {
    w.Wipe? || w.name == name
  }

  lemma {:induction false} QuietLog(v: Option<VarData>, name: CString, log: seq<Write>)
    requires forall k :: 0 <= k < |log| ==> !Touches(log[k], name)
    ensures EntryAfter(v, name, log) == v
  {
    if log != [] { QuietLog(v, name, log[..|log| - 1]); }
  }

  // ----- The machine -----

  type Pid = nat

  datatype Shell = Shell(vars: map<CString, Variable>, registry: map<CString, StoreId>)

  datatype System = System(shells: map<Pid, Shell>, stores: map<StoreId, Database>)

  /** `fits` says that the backing can take the write. */
  datatype Step =
    | Fork(child: Pid)
    | Exit
    | Plainly(name: CString, contents: Contents)
    | Look(name: CString)
    | Assign(name: CString, i: Index, value: CString, fits: bool)
    | AssignPair(name: CString, key: CString, value: CString, fits: bool)
    | Bind(name: CString, store: StoreId, preserve: bool, assoc: bool, fits: bool, junk: CString)
    | Unbind(name: CString)
    | Drop(name: CString, fits: bool)
    | Clear(store: StoreId, fits: bool)

  datatype Action = Action(shell: Pid, step: Step)

  /** One shell's view. */
  function View(s: System, p: Pid): State
    requires p in s.shells
  {
    State(s.shells[p].vars, s.shells[p].registry, s.stores)
  }

  function Update(s: System, p: Pid, t: State): System {
    System(s.shells[p := Shell(t.vars, t.registry)], t.stores)
  }

  ghost predicate AllLinksOk(s: System) {
    forall p :: p in s.shells ==> LinksOk(s.shells[p].vars)
  }

  predicate Enabled(s: System, a: Action) {
    && a.shell in s.shells
    && var vars := s.shells[a.shell].vars;
       match a.step
       case Fork(child) => child !in s.shells
       case Plainly(name, _) => name in vars ==> vars[name].link == Plain
       case Assign(name, _, _, _) => name in vars && vars[name].link == SharedArray && LinkOk(vars[name])
       case AssignPair(name, _, _, _) => name in vars && vars[name].link == SharedAssoc && LinkOk(vars[name])
       case _ => true
  }

  function After(s: System, a: Action): System
    requires Enabled(s, a)
  {
    var me := View(s, a.shell);
    match a.step
    case Fork(child) => s.(shells := s.shells[child := s.shells[a.shell]])
    case Exit => s.(shells := s.shells - {a.shell})
    case Plainly(name, contents) => Update(s, a.shell, me.(vars := me.vars[name := Variable(contents, Plain)]))
    case Look(name) => Update(s, a.shell, Found(me, name))
    case Assign(name, i, value, fits) => Update(s, a.shell, AfterSetElement(me, name, i, value, fits))
    case AssignPair(name, key, value, fits) => Update(s, a.shell, AfterSetPair(me, name, key, value, fits))
    case Bind(name, store, preserve, assoc, fits, junk) =>
      Update(s, a.shell, AfterBind(me, name, store, preserve, assoc, fits, junk).0)
    case Unbind(name) => Update(s, a.shell, AfterUnbind(me, name))
    case Drop(name, fits) => Update(s, a.shell, AfterDrop(me, name, fits).0)
    case Clear(store, fits) => Update(s, a.shell, AfterClear(me, store, fits).0)
  }

  /** What the action wrote to a store, if it succeeded. */
  function Written(s: System, a: Action, store: StoreId): seq<Write>
    requires Enabled(s, a)
  {
    var me := View(s, a.shell);
    match a.step
    case Assign(name, i, value, fits) => if BoundTo(me, name, store) && fits then [Element(name, i, value)] else []
    case AssignPair(name, key, value, fits) =>
      if BoundTo(me, name, store) && fits then [Pair(name, key, value)] else []
    case Bind(name, to, preserve, _, fits, _) =>
      if preserve && name in me.vars && to == store && store in s.stores && fits
      then [Seed(name, Original(me, name))]
      else []
    case Drop(name, fits) => if BoundTo(me, name, store) && fits then [Remove(name)] else []
    case Clear(which, fits) => if which == store && store in s.stores && fits then [Wipe] else []
    case _ => []
  }

  ghost predicate Run(trace: seq<System>, actions: seq<Action>) {
    && |trace| == |actions| + 1 && AllLinksOk(trace[0])
    && forall k :: 0 <= k < |actions| ==> Follows(trace, actions, k)
  }

  ghost predicate Follows(trace: seq<System>, actions: seq<Action>, k: nat)
    requires k < |actions| && |trace| == |actions| + 1
  {
    Enabled(trace[k], actions[k]) && trace[k + 1] == After(trace[k], actions[k])
  }

  /** What each step of a run wrote to a store. */
  ghost function WritesOf(trace: seq<System>, actions: seq<Action>, store: StoreId): (ws: seq<seq<Write>>)
    requires Run(trace, actions)
    ensures |ws| == |actions|
  {
    seq(|actions|, k requires 0 <= k < |actions| =>
      assert Follows(trace, actions, k);
      Written(trace[k], actions[k], store))
  }

  function Flat(ws: seq<seq<Write>>): seq<Write> {
    if ws == [] then [] else Flat(ws[..|ws| - 1]) + ws[|ws| - 1]
  }

  /** The successful writes to a store between two moments, in the order in which it saw them. */
  ghost function Log(trace: seq<System>, actions: seq<Action>, i: nat, n: nat, store: StoreId): seq<Write>
    requires Run(trace, actions) && i <= n <= |actions|
  {
    Flat(WritesOf(trace, actions, store)[i..n])
  }

  // ----- Stores are replays -----

  lemma ReplayOne(d: Database, w: Write)
    ensures Replay(d, [w]) == Apply(d, w)
  {
    assert [w][..0] == [];
  }

  /** The step does to the store what it says it wrote. */
  ghost predicate WritesSo(s: System, a: Action, store: StoreId)
    requires Enabled(s, a) && store in s.stores
  {
    && After(s, a).stores.Keys == s.stores.Keys
    && After(s, a).stores[store] == Replay(s.stores[store], Written(s, a, store))
  }

  lemma AssignWrites(s: System, a: Action, store: StoreId)
    requires Enabled(s, a) && store in s.stores && a.step.Assign?
    ensures WritesSo(s, a, store)
  {
    var b := a.step;
    ElementStores(View(s, a.shell), b.name, b.i, b.value, b.fits);
    ReplayOne(s.stores[store], Element(b.name, b.i, b.value));
  }

  lemma AssignPairWrites(s: System, a: Action, store: StoreId)
    requires Enabled(s, a) && store in s.stores && a.step.AssignPair?
    ensures WritesSo(s, a, store)
  {
    var b := a.step;
    PairStores(View(s, a.shell), b.name, b.key, b.value, b.fits);
    ReplayOne(s.stores[store], Pair(b.name, b.key, b.value));
  }

  lemma BindWrites(s: System, a: Action, store: StoreId)
    requires AllLinksOk(s) && Enabled(s, a) && store in s.stores && a.step.Bind?
    ensures WritesSo(s, a, store)
  {
    var me, b := View(s, a.shell), a.step;
    BindStores(me, b);
    if b.preserve && b.name in me.vars { ReplayOne(s.stores[store], Seed(b.name, Original(me, b.name))); }
  }

  lemma RemovalWrites(s: System, a: Action, store: StoreId)
    requires Enabled(s, a) && store in s.stores && (a.step.Drop? || a.step.Clear?)
    ensures WritesSo(s, a, store)
  {
    ReplayOne(s.stores[store], Wipe);
    if a.step.Drop? { ReplayOne(s.stores[store], Remove(a.step.name)); }
  }

  /** Every step does so to each store. */
  lemma StepWrites(s: System, a: Action, store: StoreId)
    requires AllLinksOk(s) && Enabled(s, a) && store in s.stores
    ensures After(s, a).stores.Keys == s.stores.Keys
    ensures After(s, a).stores[store] == Replay(s.stores[store], Written(s, a, store))
  {
    match a.step
    case Assign(_, _, _, _) => AssignWrites(s, a, store);
    case AssignPair(_, _, _, _) => AssignPairWrites(s, a, store);
    case Bind(_, _, _, _, _, _) => BindWrites(s, a, store);
    case Drop(_, _) => RemovalWrites(s, a, store);
    case Clear(_, _) => RemovalWrites(s, a, store);
    case _ =>
  }

  lemma ElementStores(me: State, name: CString, i: Index, value: CString, fits: bool)
    requires name in me.vars && me.vars[name].link == SharedArray && LinkOk(me.vars[name])
    ensures AfterSetElement(me, name, i, value, fits).stores
            == if ReadFor(me, name).Some? && fits
               then me.stores[me.registry[name] := SetElement(ReadFor(me, name).value, name, i, value)] else me.stores
    ensures AfterSetElement(me, name, i, value, fits).registry == me.registry
  {
  }

  lemma PairStores(me: State, name: CString, key: CString, value: CString, fits: bool)
    requires name in me.vars && me.vars[name].link == SharedAssoc && LinkOk(me.vars[name])
    ensures AfterSetPair(me, name, key, value, fits).stores
            == if ReadFor(me, name).Some? && fits
               then me.stores[me.registry[name] := SetPair(ReadFor(me, name).value, name, key, value)] else me.stores
    ensures AfterSetPair(me, name, key, value, fits).registry == me.registry
  {
  }

  lemma BindStores(me: State, b: Step)
    requires LinksOk(me.vars) && b.Bind?
    ensures AfterBind(me, b.name, b.store, b.preserve, b.assoc, b.fits, b.junk).0.stores
            == if b.preserve && b.name in me.vars && b.store in me.stores && b.fits
               then me.stores[b.store := SetEntry(me.stores[b.store], b.name, Original(me, b.name))] else me.stores
  {
    if b.preserve && b.name in me.vars && b.store in me.stores {
      var (bound, ok) := AfterBind(me, b.name, b.store, true, b.assoc, b.fits, b.junk);
      Preserving(me, b.name, b.store, b.assoc, b.fits, b.junk, bound, ok);
    }
  }

  lemma LookKeepsLinks(me: State, name: CString)
    requires LinksOk(me.vars)
    ensures LinksOk(Found(me, name).vars)
  {
  }

  lemma BindKeepsLinks(me: State, name: CString, store: StoreId, preserve: bool, assoc: bool, fits: bool, junk: CString)
    requires LinksOk(me.vars)
    ensures LinksOk(AfterBind(me, name, store, preserve, assoc, fits, junk).0.vars)
  {
    LookKeepsLinks(me, name);
    var seen := if preserve then Found(me, name) else me;
    CallbacksAttached(seen.(registry := seen.registry[name := store]), name, assoc, junk);
  }

  lemma StepKeepsLinks(s: System, a: Action)
    requires AllLinksOk(s) && Enabled(s, a)
    ensures AllLinksOk(After(s, a))
  {
    var t, me := After(s, a), View(s, a.shell);
    assert LinksOk(me.vars);
    OwnLinksKept(me, a, s, t);
    forall p | p in t.shells ensures LinksOk(t.shells[p].vars) {
      if p in s.shells && p != a.shell { assert t.shells[p] == s.shells[p]; }
    }
  }

  lemma OwnLinksKept(me: State, a: Action, s: System, t: System)
    requires Enabled(s, a) && me == View(s, a.shell) && LinksOk(me.vars) && t == After(s, a)
    ensures a.shell in t.shells ==> LinksOk(t.shells[a.shell].vars)
  {
    match a.step
    case Look(name) => LookKeepsLinks(me, name);
    case Bind(name, store, preserve, assoc, fits, junk) => BindKeepsLinks(me, name, store, preserve, assoc, fits, junk);
    case _ =>
  }

  lemma {:induction false} RunKeepsLinks(trace: seq<System>, actions: seq<Action>, n: nat)
    requires Run(trace, actions) && n < |trace|
    ensures AllLinksOk(trace[n])
  {
    if n > 0 {
      RunKeepsLinks(trace, actions, n - 1);
      assert Follows(trace, actions, n - 1);
      StepKeepsLinks(trace[n - 1], actions[n - 1]);
    }
  }

  /** What step n of a run does to a store. */
  lemma StoreStep(trace: seq<System>, actions: seq<Action>, n: nat, store: StoreId)
    requires Run(trace, actions) && n < |actions| && store in trace[n].stores
    ensures store in trace[n + 1].stores
    ensures trace[n + 1].stores[store] == Replay(trace[n].stores[store], WritesOf(trace, actions, store)[n])
  {
    RunKeepsLinks(trace, actions, n);
    assert Follows(trace, actions, n);
    StepWrites(trace[n], actions[n], store);
  }

  lemma {:induction false} StepsReplayed(ds: seq<Database>, ws: seq<seq<Write>>, i: nat, n: nat)
    requires |ds| == |ws| + 1 && i <= n < |ds|
    requires forall k :: i <= k < n ==> ds[k + 1] == Replay(ds[k], ws[k])
    ensures ds[n] == Replay(ds[i], Flat(ws[i..n]))
  {
    if i < n {
      StepsReplayed(ds, ws, i, n - 1);
      FlatSnoc(ws, i, n);
      ReplaysJoin(ds[i], Flat(ws[i..n - 1]), ws[n - 1]);
      assert ds[n - 1 + 1] == Replay(ds[n - 1], ws[n - 1]);
    }
  }

  lemma FlatSnoc(ws: seq<seq<Write>>, i: nat, n: nat)
    requires i < n <= |ws|
    ensures Flat(ws[i..n]) == Flat(ws[i..n - 1]) + ws[n - 1]
  {
    var part := ws[i..n];
    assert part[..|part| - 1] == ws[i..n - 1] && part[|part| - 1] == ws[n - 1];
  }

  lemma {:induction false} StoresStay(trace: seq<System>, actions: seq<Action>, i: nat, n: nat, store: StoreId)
    requires Run(trace, actions) && i <= n < |trace| && store in trace[i].stores
    ensures store in trace[n].stores
    decreases n
  {
    if i < n {
      StoresStay(trace, actions, i, n - 1, store);
      StoreStep(trace, actions, n - 1, store);
    }
  }

  /** Between any two moments of any run, a store changes by the replay of its successful writes. */
  lemma StoreIsReplay(trace: seq<System>, actions: seq<Action>, i: nat, n: nat, store: StoreId)
    requires Run(trace, actions) && i <= n < |trace| && store in trace[i].stores
    ensures store in trace[n].stores
    ensures trace[n].stores[store] == Replay(trace[i].stores[store], Log(trace, actions, i, n, store))
  {
    var ws := WritesOf(trace, actions, store);
    var ds := seq(|trace|, k requires 0 <= k < |trace| =>
      if store in trace[k].stores then trace[k].stores[store] else EMPTY_DATABASE);
    forall k | i <= k < n ensures ds[k + 1] == Replay(ds[k], ws[k]) {
      StoresStay(trace, actions, i, k, store);
      StoreStep(trace, actions, k, store);
    }
    StoresStay(trace, actions, i, n, store);
    StepsReplayed(ds, ws, i, n);
  }

  /** The shell p reads the linked variable `name` at moment n. */
  ghost predicate Reads(trace: seq<System>, actions: seq<Action>, n: nat, p: Pid, name: CString, store: StoreId)
    requires |trace| == |actions| + 1 && n < |actions|
  {
    && actions[n] == Action(p, Look(name)) && p in trace[n].shells
    && name in trace[n].shells[p].vars && trace[n].shells[p].vars[name].link != Plain
    && BoundTo(View(trace[n], p), name, store)
  }

  /**
   * Every read, by any shell however stale its own table, returns what the successful writes of all
   * shells, in the order of the store, make of the database that the run began with.
   */
  lemma ReadsAreReplays(trace: seq<System>, actions: seq<Action>, n: nat, p: Pid, name: CString, store: StoreId)
    requires Run(trace, actions) && n < |actions| && Reads(trace, actions, n, p, name, store)
    requires store in trace[0].stores
    ensures p in trace[n + 1].shells && name in trace[n + 1].shells[p].vars
    ensures trace[n + 1].shells[p].vars[name].contents
            == Cells(Shown(Replay(trace[0].stores[store], Log(trace, actions, 0, n, store)), name,
                           trace[n].shells[p].vars[name].link))
  {
    StoreIsReplay(trace, actions, 0, n, store);
    assert Follows(trace, actions, n);
  }

  /** Element by element: an indexed variable reads as the value last assigned to each index by anyone. */
  lemma ReadsAreLastAssigned(trace: seq<System>, actions: seq<Action>, n: nat, p: Pid, name: CString,
                             store: StoreId, i: Index)
    requires Run(trace, actions) && n < |actions| && Reads(trace, actions, n, p, name, store)
    requires store in trace[0].stores && trace[n].shells[p].vars[name].link == SharedArray
    ensures p in trace[n + 1].shells && name in trace[n + 1].shells[p].vars
    ensures var contents := trace[n + 1].shells[p].vars[name].contents;
            && contents.Cells? && contents.data.Array?
            && (if i in contents.data.elems then Some(contents.data.elems[i]) else None)
               == LastAssigned(ElementAt(trace[0].stores[store], name, i), name, i, Log(trace, actions, 0, n, store))
  {
    ReadsAreReplays(trace, actions, n, p, name, store);
    ElementOfReplay(trace[0].stores[store], name, i, Log(trace, actions, 0, n, store));
  }

  // ----- Bind, writes by anyone, unbind -----

  /** Steps that change which store the shell's own variable is bound to. */
  predicate Rebinds(step: Step, name: CString) {
    step.Exit? || ((step.Bind? || step.Unbind? || step.Drop?) && step.name == name)
  }

  predicate Bound(s: System, p: Pid, name: CString, store: StoreId) {
    p in s.shells && name in s.shells[p].registry && s.shells[p].registry[name] == store
  }

  lemma StepKeepsBound(s: System, a: Action, p: Pid, name: CString, store: StoreId)
    requires Enabled(s, a) && Bound(s, p, name, store) && !(a.shell == p && Rebinds(a.step, name))
    ensures Bound(After(s, a), p, name, store)
  {
    if a.shell == p {
      var me := View(s, p);
      match a.step
      case Assign(n, i, value, fits) => ElementStores(me, n, i, value, fits);
      case AssignPair(n, key, value, fits) => PairStores(me, n, key, value, fits);
      case Bind(n, to, preserve, assoc, fits, junk) => BindRegisters(me, n, to, preserve, assoc, fits, junk);
      case _ =>
    }
  }

  lemma BindRegisters(me: State, n: CString, to: StoreId, preserve: bool, assoc: bool, fits: bool, junk: CString)
    ensures AfterBind(me, n, to, preserve, assoc, fits, junk).0.registry == me.registry[n := to]
  {
  }

  lemma {:induction false} StaysBound(trace: seq<System>, actions: seq<Action>, i: nat, n: nat, p: Pid,
                                     name: CString, store: StoreId)
    requires Run(trace, actions) && i <= n < |trace| && Bound(trace[i], p, name, store)
    requires forall k :: i <= k < n && actions[k].shell == p ==> !Rebinds(actions[k].step, name)
    ensures Bound(trace[n], p, name, store)
    decreases n
  {
    if i < n {
      StaysBound(trace, actions, i, n - 1, p, name, store);
      assert Follows(trace, actions, n - 1);
      StepKeepsBound(trace[n - 1], actions[n - 1], p, name, store);
    }
  }

  /** The shell's variable has the callbacks of its kind, and they lead to this store. */
  ghost predicate Shared(s: System, p: Pid, name: CString, store: StoreId, assoc: bool) {
    && Bound(s, p, name, store) && name in s.shells[p].vars
    && s.shells[p].vars[name].link == (if assoc then SharedAssoc else SharedArray)
  }

  lemma StepKeepsShared(s: System, a: Action, p: Pid, name: CString, store: StoreId, assoc: bool)
    requires AllLinksOk(s) && Enabled(s, a) && Shared(s, p, name, store, assoc)
    requires !(a.shell == p && Rebinds(a.step, name))
    ensures Shared(After(s, a), p, name, store, assoc)
  {
    StepKeepsBound(s, a, p, name, store);
    if a.shell == p && a.step.Bind? {
      var b := a.step;
      BindAlwaysLinks(View(s, p), b.name, b.store, b.preserve, b.assoc, b.fits, b.junk);
    }
  }

  lemma BindShares(s: System, a: Action)
    requires AllLinksOk(s) && Enabled(s, a) && a.step.Bind?
    ensures Shared(After(s, a), a.shell, a.step.name, a.step.store, a.step.assoc)
  {
    var b := a.step;
    BindAlwaysLinks(View(s, a.shell), b.name, b.store, b.preserve, b.assoc, b.fits, b.junk);
  }

  /** Whatever shells do: until its own shell binds it again, unbinds or drops it, it stays so. */
  lemma {:induction false} StaysShared(trace: seq<System>, actions: seq<Action>, i: nat, n: nat, p: Pid,
                                       name: CString, store: StoreId, assoc: bool)
    requires Run(trace, actions) && i <= n < |trace| && Shared(trace[i], p, name, store, assoc)
    requires forall k :: i <= k < n && actions[k].shell == p ==> !Rebinds(actions[k].step, name)
    ensures Shared(trace[n], p, name, store, assoc)
    decreases n
  {
    if i < n {
      StaysShared(trace, actions, i, n - 1, p, name, store, assoc);
      RunKeepsLinks(trace, actions, n - 1);
      assert Follows(trace, actions, n - 1);
      StepKeepsShared(trace[n - 1], actions[n - 1], p, name, store, assoc);
    }
  }

  /** From a bind on, with or without -p, of a variable that existed or not. */
  lemma BoundStaysShared(trace: seq<System>, actions: seq<Action>, i: nat, n: nat)
    requires Run(trace, actions) && i < n < |trace| && actions[i].step.Bind?
    requires forall k :: i < k < n && actions[k].shell == actions[i].shell ==>
                           !Rebinds(actions[k].step, actions[i].step.name)
    ensures var b := actions[i].step; Shared(trace[n], actions[i].shell, b.name, b.store, b.assoc)
  {
    var p, b := actions[i].shell, actions[i].step;
    RunKeepsLinks(trace, actions, i);
    assert Follows(trace, actions, i);
    BindShares(trace[i], actions[i]);
    StaysShared(trace, actions, i + 1, n, p, b.name, b.store, b.assoc);
  }

  /** A look at a shared variable reads what all successful writes have made of the store. */
  lemma SharedReadsReplay(trace: seq<System>, actions: seq<Action>, n: nat, p: Pid, name: CString, store: StoreId,
                          assoc: bool)
    requires Run(trace, actions) && n < |actions| && Shared(trace[n], p, name, store, assoc)
    requires actions[n] == Action(p, Look(name)) && store in trace[0].stores
    ensures var d := Replay(trace[0].stores[store], Log(trace, actions, 0, n, store));
            && p in trace[n + 1].shells && name in trace[n + 1].shells[p].vars
            && trace[n + 1].shells[p].vars[name].contents
               == Cells(if assoc then Assoc(Pairs(d, name)) else Array(Elements(d, name)))
  {
    StoresStay(trace, actions, 0, n, store);
    ReadsAreReplays(trace, actions, n, p, name, store);
  }

  /** So does each look at it after a bind. */
  lemma BoundReadsReplay(trace: seq<System>, actions: seq<Action>, i: nat, n: nat)
    requires Run(trace, actions) && i < n < |actions| && actions[i].step.Bind?
    requires actions[n] == Action(actions[i].shell, Look(actions[i].step.name))
    requires forall k :: i < k < n && actions[k].shell == actions[i].shell ==>
                           !Rebinds(actions[k].step, actions[i].step.name)
    requires actions[i].step.store in trace[0].stores
    ensures var (p, b) := (actions[i].shell, actions[i].step);
            var d := Replay(trace[0].stores[b.store], Log(trace, actions, 0, n, b.store));
            && p in trace[n + 1].shells && b.name in trace[n + 1].shells[p].vars
            && trace[n + 1].shells[p].vars[b.name].contents
               == Cells(if b.assoc then Assoc(Pairs(d, b.name)) else Array(Elements(d, b.name)))
  {
    var p, b := actions[i].shell, actions[i].step;
    BoundStaysShared(trace, actions, i, n);
    SharedReadsReplay(trace, actions, n, p, b.name, b.store, b.assoc);
  }

  /** And a child forked in between has the same variable, whatever its parent does with its own. */
  lemma ChildReadsReplay(trace: seq<System>, actions: seq<Action>, i: nat, n: nat, p: Pid, name: CString,
                         store: StoreId, assoc: bool)
    requires Run(trace, actions) && i < n < |actions| && actions[i].step.Fork?
    requires actions[i].shell == p && Shared(trace[i], p, name, store, assoc)
    requires actions[n] == Action(actions[i].step.child, Look(name)) && store in trace[0].stores
    requires forall k :: i < k < n && actions[k].shell == actions[i].step.child ==> !Rebinds(actions[k].step, name)
    ensures var (child, d) := (actions[i].step.child, Replay(trace[0].stores[store], Log(trace, actions, 0, n, store)));
            && child in trace[n + 1].shells && name in trace[n + 1].shells[child].vars
            && trace[n + 1].shells[child].vars[name].contents
               == Cells(if assoc then Assoc(Pairs(d, name)) else Array(Elements(d, name)))
  {
    var child := actions[i].step.child;
    assert Follows(trace, actions, i);
    assert Shared(trace[i + 1], child, name, store, assoc);
    StaysShared(trace, actions, i + 1, n, child, name, store, assoc);
    SharedReadsReplay(trace, actions, n, child, name, store, assoc);
  }

  /** And each assignment to it that the backing can take is a write to that store. */
  lemma BoundAssignmentArrives(trace: seq<System>, actions: seq<Action>, i: nat, n: nat, step: Step)
    requires Run(trace, actions) && i < n < |trace| && actions[i].step.Bind?
    requires forall k :: i < k < n && actions[k].shell == actions[i].shell ==>
                           !Rebinds(actions[k].step, actions[i].step.name)
    requires if actions[i].step.assoc then step.AssignPair? && step.fits && step.name == actions[i].step.name
             else step.Assign? && step.fits && step.name == actions[i].step.name
    requires actions[i].step.store in trace[0].stores
    ensures var (a, store, s) := (Action(actions[i].shell, step), actions[i].step.store, trace[n]);
            && Enabled(s, a) && store in s.stores && store in After(s, a).stores
            && After(s, a).stores[store]
               == if step.Assign? then SetElement(s.stores[store], step.name, step.i, step.value)
                  else SetPair(s.stores[store], step.name, step.key, step.value)
  {
    BoundStaysShared(trace, actions, i, n);
    RunKeepsLinks(trace, actions, n);
    StoresStay(trace, actions, 0, n, actions[i].step.store);
  }

  /** A preserving bind of an existing variable, to a store that can take its value. */
  ghost predicate Preserves(s: System, a: Action, name: CString, store: StoreId) {
    && a.step.Bind? && a.step.name == name && a.step.store == store && a.step.preserve && a.step.fits
    && a.shell in s.shells && name in s.shells[a.shell].vars && store in s.stores
  }

  lemma BindBinds(s: System, a: Action, name: CString, store: StoreId)
    requires AllLinksOk(s) && Enabled(s, a) && Preserves(s, a, name, store)
    ensures var t := After(s, a);
            && Bound(t, a.shell, name, store) && store in t.stores
            && EntryOf(t.stores[store], name) == Some(Original(View(s, a.shell), name))
  {
    var b, me := a.step, View(s, a.shell);
    var (bound, ok) := AfterBind(me, name, store, true, b.assoc, true, b.junk);
    Preserving(me, name, store, b.assoc, true, b.junk, bound, ok);
  }

  /**
   * After bind -p, any writes by any shells in any order, and unbind by the shell that bound it: the
   * variable is plain and holds what those writes made of the preserved value, or is gone if they
   * removed it. The unbind changes no store.
   */
  lemma PreserveAcrossWrites(trace: seq<System>, actions: seq<Action>, i: nat, n: nat, name: CString, store: StoreId)
    requires Run(trace, actions) && i < n < |actions|
    requires Preserves(trace[i], actions[i], name, store)
    requires actions[n] == Action(actions[i].shell, Unbind(name))
    requires forall k :: i < k < n && actions[k].shell == actions[i].shell ==> !Rebinds(actions[k].step, name)
    ensures var (p, after) := (actions[i].shell, trace[n + 1]);
            var held := EntryAfter(Some(Original(View(trace[i], p), name)), name, Log(trace, actions, i + 1, n, store));
            && after.stores == trace[n].stores && p in after.shells
            && (name in after.shells[p].vars <==> held.Some?)
            && (held.Some? ==> after.shells[p].vars[name] == Variable(Cells(held.value), Plain))
  {
    var p := actions[i].shell;
    RunKeepsLinks(trace, actions, i);
    assert Follows(trace, actions, i) && Follows(trace, actions, n);
    BindBinds(trace[i], actions[i], name, store);
    StaysBound(trace, actions, i + 1, n, p, name, store);
    StoreIsReplay(trace, actions, i + 1, n, store);
    EntryOfReplay(trace[i + 1].stores[store], name, Log(trace, actions, i + 1, n, store));
    UnbindTakesTheDatabase(View(trace[n], p), name);
  }

  /** In particular, with no write to it in between, it holds what it held before the bind. */
  lemma PreserveAcrossQuiet(trace: seq<System>, actions: seq<Action>, i: nat, n: nat, name: CString, store: StoreId)
    requires Run(trace, actions) && i < n < |actions|
    requires Preserves(trace[i], actions[i], name, store)
    requires actions[n] == Action(actions[i].shell, Unbind(name))
    requires forall k :: i < k < n && actions[k].shell == actions[i].shell ==> !Rebinds(actions[k].step, name)
    requires var log := Log(trace, actions, i + 1, n, store); forall k :: 0 <= k < |log| ==> !Touches(log[k], name)
    ensures var p := actions[i].shell;
            && p in trace[n + 1].shells && name in trace[n + 1].shells[p].vars
            && trace[n + 1].shells[p].vars[name] == Variable(Cells(Original(View(trace[i], p), name)), Plain)
  {
    PreserveAcrossWrites(trace, actions, i, n, name, store);
    QuietLog(Some(Original(View(trace[i], actions[i].shell), name)), name, Log(trace, actions, i + 1, n, store));
  }

  /** A plain array that is assigned, shared with -p, used without being written to, and unbound is as assigned. */
  lemma ValueSurvivesSharing(trace: seq<System>, actions: seq<Action>, i: nat, n: nat, name: CString, store: StoreId,
                             data: VarData)
    requires Run(trace, actions) && i + 1 < n < |actions|
    requires actions[i] == Action(actions[i + 1].shell, Plainly(name, Cells(data)))
    requires Preserves(trace[i + 1], actions[i + 1], name, store)
    requires actions[n] == Action(actions[i].shell, Unbind(name))
    requires forall k :: i + 1 < k < n && actions[k].shell == actions[i].shell ==> !Rebinds(actions[k].step, name)
    requires var log := Log(trace, actions, i + 2, n, store); forall k :: 0 <= k < |log| ==> !Touches(log[k], name)
    ensures var p := actions[i].shell;
            && p in trace[n + 1].shells && name in trace[n + 1].shells[p].vars
            && trace[n + 1].shells[p].vars[name] == Variable(Cells(data), Plain)
  {
    assert Follows(trace, actions, i);
    PreserveAcrossQuiet(trace, actions, i + 1, n, name, store);
  }
}
