// The bash side of the shared variables, l_builtin/src/cmd_shm.rs: the getter that reconciles bash's
// own array with the database, the write-through setter, and bind and unbind. Variables live in one
// flat scope, and bash's ARRAY and HASH_TABLE are maps.

module ShmVariables {
  import opened Bytes
  import opened Databases

  // ----- Reconciling a table -----

  /** bash's ARRAY or HASH_TABLE. `touched` counts the inserts and removes of each key. */
  class BashTable<K(!new, ==)> {
    var elems: map<K, CString>
    ghost var touched: multiset<K>

    constructor (elems: map<K, CString>)
      ensures this.elems == elems && touched == multiset{}
    {
      this.elems := elems;
      touched := multiset{};
    }

    method Insert(k: K, value: CString)
      modifies this
      ensures elems == old(elems)[k := value] && touched == old(touched) + multiset{k}
    {
      elems := elems[k := value];
      touched := touched + multiset{k};
    }

    method Remove(k: K)
      modifies this
      ensures elems == old(elems) - {k} && touched == old(touched) + multiset{k}
    {
      elems := elems - {k};
      touched := touched + multiset{k};
    }

    /** array_flush, assoc_flush */
    method Flush()
      modifies this
      ensures elems == map[] && touched == old(touched)
    {
      elems := map[];
    }
  }

  /** The keys whose entry has to change to get from one map to the other. */
  ghost predicate Differs<K>(have: map<K, CString>, want: map<K, CString>, k: K) {
    (k in have) != (k in want) || (k in have && k in want && have[k] != want[k])
  }

  lemma MergeStep<K>(have: map<K, CString>, want: map<K, CString>, todo: set<K>, k: K)
    requires todo <= want.Keys && k in todo
    ensures have + (want - (todo - {k})) == (have + (want - todo))[k := want[k]]
    ensures !Differs(have, want, k) ==> have + (want - (todo - {k})) == have + (want - todo)
    ensures have - (want.Keys - (todo - {k})) == have - (want.Keys - todo) - {k}
    ensures k in have - (want.Keys - todo) <==> k in have
  {
  }

  /** Inserts every entry that is new or changed, and returns the keys that are in no entry. */
  method InsertChanged<K(!new, ==)>(table: BashTable<K>, want: map<K, CString>) returns (stale: set<K>)
    modifies table
    ensures stale == old(table.elems).Keys - want.Keys
    ensures table.elems == old(table.elems) + want
    ensures forall k ::
      table.touched[k] == old(table.touched[k]) + if k in want && Differs(old(table.elems), want, k) then 1 else 0
  {
    ghost var have := table.elems;
    var existing := table.elems;
    var todo := want.Keys;
    while todo != {}
      invariant todo <= want.Keys
      invariant existing == have - (want.Keys - todo)
      invariant table.elems == have + (want - todo)
      invariant forall k ::
        table.touched[k] == old(table.touched[k]) + if k in want && k !in todo && Differs(have, want, k) then 1 else 0
      decreases |todo|
    {
      var k :| k in todo;
      var changed := k !in existing || existing[k] != want[k];
      existing := existing - {k};
      if changed { table.Insert(k, want[k]); }
      MergeStep(have, want, todo, k);
      todo := todo - {k};
    }
    assert want - {} == want;
    stale := existing.Keys;
  }

  method RemoveAll<K(!new, ==)>(table: BashTable<K>, stale: set<K>)
    modifies table
    ensures table.elems == old(table.elems) - stale
    ensures forall k :: table.touched[k] == old(table.touched[k]) + if k in stale then 1 else 0
  {
    var rest := stale;
    while rest != {}
      invariant rest <= stale
      invariant table.elems == old(table.elems) - (stale - rest)
      invariant forall k :: table.touched[k] == old(table.touched[k]) + if k in stale && k !in rest then 1 else 0
      decreases |rest|
    {
      var k :| k in rest;
      table.Remove(k);
      rest := rest - {k};
    }
  }

  /**
   * Makes the table equal to the database's map, visiting its entries in any order: each wrong
   * entry is inserted or removed once, and no other entry is touched.
   */
  method Reconcile<K(!new, ==)>(table: BashTable<K>, want: map<K, CString>)
    modifies table
    ensures table.elems == want
    ensures forall k :: table.touched[k] == old(table.touched[k]) + if Differs(old(table.elems), want, k) then 1 else 0
  {
    var stale := InsertChanged(table, want);
    RemoveAll(table, stale);
  }

  /** The loop of restore_plain_variable: an emptied table receives every entry. */
  method Refill<K(!new, ==)>(table: BashTable<K>, data: map<K, CString>)
    modifies table
    ensures table.elems == data
  {
    table.Flush();
    var todo := data.Keys;
    while todo != {}
      invariant todo <= data.Keys
      invariant table.elems == map k | k in data.Keys - todo :: data[k]
      decreases |todo|
    {
      var k :| k in todo;
      table.Insert(k, data[k]);
      todo := todo - {k};
    }
  }

  // ----- What a shell holds -----

  type StoreId = nat

  /** A scalar may be declared without a value. */
  datatype Contents = Scalar(value: Option<CString>) | Cells(data: VarData)

  /** Which callbacks a variable has. */
  datatype Link = Plain | SharedArray | SharedAssoc

  datatype Variable = Variable(contents: Contents, link: Link)

  /** `stores` holds the databases that can be read now; all shells share it. */
  datatype State = State(vars: map<CString, Variable>, registry: map<CString, StoreId>, stores: map<StoreId, Database>)

  /** Every variable with callbacks has cells of the kind that they expect. */
  predicate LinksOk(vars: map<CString, Variable>) {
    forall n :: n in vars ==> LinkOk(vars[n])
  }

  predicate LinkOk(v: Variable) {
    && (v.link == SharedArray ==> v.contents.Cells? && v.contents.data.Array?)
    && (v.link == SharedAssoc ==> v.contents.Cells? && v.contents.data.Assoc?)
  }

  /** What get_shm and read find for a variable. */
  function ReadFor(s: State, name: CString): Option<Database> {
    if name in s.registry && s.registry[name] in s.stores then Some(s.stores[s.registry[name]]) else None
  }

  /** What a variable with callbacks reads as. */
  function Shown(d: Database, name: CString, link: Link): VarData {
    if link == SharedAssoc then Assoc(Pairs(d, name)) else Array(Elements(d, name))
  }

  /** find_variable, which runs the getter. */
  function Found(s: State, name: CString): State {
    if name in s.vars && s.vars[name].link != Plain && ReadFor(s, name).Some? then
      var v := s.vars[name];
      s.(vars := s.vars[name := v.(contents := Cells(Shown(ReadFor(s, name).value, name, v.link)))])
    else s
  }

  /** The entries that are not as the database shows them. */
  ghost predicate StaleArray(s: State, name: CString, i: Index)
    requires name in s.vars && s.vars[name].link == SharedArray && LinkOk(s.vars[name])
  {
    ReadFor(s, name).Some? && Differs(s.vars[name].contents.data.elems, Elements(ReadFor(s, name).value, name), i)
  }

  ghost predicate StaleAssoc(s: State, name: CString, key: CString)
    requires name in s.vars && s.vars[name].link == SharedAssoc && LinkOk(s.vars[name])
  {
    ReadFor(s, name).Some? && Differs(s.vars[name].contents.data.pairs, Pairs(ReadFor(s, name).value, name), key)
  }

  // ----- The setters -----

  /** array_max_index: -1 for an empty array. */
  ghost predicate IsMaxIndex(m: map<Index, CString>, top: int) {
    -1 <= top < 0x8000_0000_0000_0000 && (top == -1 || top in m.Keys) && forall i :: i in m ==> i <= top
  }

  /** `l_array_max_index(arr) + 1` in 64 bits. */
  function NextIndex(top: int): (i: Index)
    requires -1 <= top < 0x8000_0000_0000_0000
  {
    if top == 0x7FFF_FFFF_FFFF_FFFF then -0x8000_0000_0000_0000 else top + 1
  }

  /** The state after `NAME[i]=value`; `fits` says that the backing could take the write. */
  function AfterSetElement(s: State, name: CString, i: Index, value: CString, fits: bool): State
    requires name in s.vars && s.vars[name].link == SharedArray && LinkOk(s.vars[name])
  {
    if name !in s.registry then s
    else
      var v := s.vars[name];
      var t := s.(vars := s.vars[name := v.(contents := Cells(Array(v.contents.data.elems[i := value])))]);
      if ReadFor(s, name).Some? && fits then
        t.(stores := t.stores[t.registry[name] := SetElement(ReadFor(s, name).value, name, i, value)])
      else t
  }

  function AfterSetPair(s: State, name: CString, key: CString, value: CString, fits: bool): State
    requires name in s.vars && s.vars[name].link == SharedAssoc && LinkOk(s.vars[name])
  {
    if name !in s.registry then s
    else
      var v := s.vars[name];
      var t := s.(vars := s.vars[name := v.(contents := Cells(Assoc(v.contents.data.pairs[key := value])))]);
      if ReadFor(s, name).Some? && fits then
        t.(stores := t.stores[t.registry[name] := SetPair(ReadFor(s, name).value, name, key, value)])
      else t
  }

  // ----- Bind and unbind -----

  /** capture_current_value, after find_variable. */
  function Captured(vars: map<CString, Variable>, name: CString): Option<VarData> {
    if name !in vars then None
    else match vars[name].contents
      case Cells(data) => Some(data)
      case Scalar(v) => Some(Array(map[0 := if v.Some? then v.value else []]))
  }

  /**
   * convert_var_to_array and convert_var_to_assoc. They take the old value for a string: of a table of
   * the other kind that makes one element with whatever bytes are found there, here `junk`.
   */
  function Converted(c: Contents, assoc: bool, junk: CString): VarData {
    match c
    case Cells(data) => if data.Assoc? == assoc then data else OneElement(junk, assoc)
    case Scalar(None) => if assoc then Assoc(map[]) else Array(map[])
    case Scalar(Some(v)) => OneElement(v, assoc)
  }

  /** Element 0, or the one with key "0". */
  function OneElement(v: CString, assoc: bool): VarData {
    if assoc then Assoc(map[[48] := v]) else Array(map[0 := v])
  }

  /** l_init_dynamic_array_var and l_init_dynamic_assoc_var. */
  function WithCallbacks(s: State, name: CString, assoc: bool, junk: CString): State {
    var t := Found(s, name);
    var cells := if name in t.vars then Converted(t.vars[name].contents, assoc, junk)
                 else if assoc then Assoc(map[]) else Array(map[]);
    t.(vars := t.vars[name := Variable(Cells(cells), if assoc then SharedAssoc else SharedArray)])
  }

  /** `bind`: the new state, and whether it succeeded. */
  function AfterBind(s: State, name: CString, store: StoreId, preserve: bool, assoc: bool, fits: bool, junk: CString)
    : (State, bool)
  {
    var seen := if preserve then Found(s, name) else s;
    var preserved := if preserve then Captured(seen.vars, name) else None;
    var t := WithCallbacks(seen.(registry := seen.registry[name := store]), name, assoc, junk);
    if preserved == None then (t, true)
    else if store in t.stores && fits then
      (t.(stores := t.stores[store := SetEntry(t.stores[store], name, preserved.value)]), true)
    else (t, false)
  }

  /** snapshot_var */
  function Snapshot(s: State, name: CString): Option<VarData> {
    if ReadFor(s, name).Some? && name in ReadFor(s, name).value then Some(ReadFor(s, name).value[name]) else None
  }

  function AfterUnbind(s: State, name: CString): State {
    var gone := s.(registry := s.registry - {name}, vars := s.vars - {name});
    if Snapshot(s, name) == None then gone
    else gone.(vars := gone.vars[name := Variable(Cells(Snapshot(s, name).value), Plain)])
  }

  /** `drop`: the new state, and whether it succeeded. */
  function AfterDrop(s: State, name: CString, fits: bool): (State, bool) {
    if ReadFor(s, name).Some? && fits then
      var stores := s.stores[s.registry[name] := RemoveEntry(ReadFor(s, name).value, name)];
      (State(s.vars - {name}, s.registry - {name}, stores), true)
    else (s, false)
  }

  function AfterClear(s: State, store: StoreId, fits: bool): (State, bool) {
    if store in s.stores && fits then (s.(stores := s.stores[store := EMPTY_DATABASE]), true) else (s, false)
  }

  // ----- What they guarantee -----

  /** A getter right after a successful setter finds nothing to do, if the table was in step before. */
  lemma ElementSetterIsCoherent(s: State, name: CString, i: Index, value: CString)
    requires LinksOk(s.vars) && name in s.vars && s.vars[name].link == SharedArray && ReadFor(s, name).Some?
    requires Found(s, name) == s
    ensures var t := AfterSetElement(s, name, i, value, true);
            && Found(t, name) == t
            && forall k :: !Differs(t.vars[name].contents.data.elems, Elements(ReadFor(t, name).value, name), k)
  {
    var t := AfterSetElement(s, name, i, value, true);
    assert s.vars[name].contents == Cells(Shown(ReadFor(s, name).value, name, SharedArray));
    assert t.vars[name := t.vars[name]] == t.vars;
  }

  lemma PairSetterIsCoherent(s: State, name: CString, key: CString, value: CString)
    requires LinksOk(s.vars) && name in s.vars && s.vars[name].link == SharedAssoc && ReadFor(s, name).Some?
    requires Found(s, name) == s
    ensures var t := AfterSetPair(s, name, key, value, true);
            && Found(t, name) == t
            && forall k :: !Differs(t.vars[name].contents.data.pairs, Pairs(ReadFor(t, name).value, name), k)
  {
    var t := AfterSetPair(s, name, key, value, true);
    assert s.vars[name].contents == Cells(Shown(ReadFor(s, name).value, name, SharedAssoc));
    assert t.vars[name := t.vars[name]] == t.vars;
  }

  /** The value of an element, if there is one. */
  function ElementAt(d: Database, name: CString, i: Index): Option<CString> {
    if i in Elements(d, name) then Some(Elements(d, name)[i]) else None
  }

  function PairAt(d: Database, name: CString, key: CString): Option<CString> {
    if key in Pairs(d, name) then Some(Pairs(d, name)[key]) else None
  }

  /**
   * A setter whose write fails leaves the local variable ahead only until the next read. No later
   * write to a given index brings the element to the database: after it the stores are as if the failed
   * assignment had not been made, and hold its value only if they did before or that write put it there.
   */
  lemma FailedElementIsForgotten(s: State, name: CString, i: Index, v: CString, j: Index, w: CString)
    requires LinksOk(s.vars) && name in s.vars && s.vars[name].link == SharedArray && ReadFor(s, name).Some?
    ensures var (failed, d) := (AfterSetElement(s, name, i, v, false), ReadFor(s, name).value);
            && failed.stores == s.stores && Found(failed, name) == Found(s, name)
            && failed.vars[name].contents.data.elems == s.vars[name].contents.data.elems[i := v]
            && var (later, clean) := (AfterSetElement(failed, name, j, w, true), AfterSetElement(s, name, j, w, true));
               && later.stores == clean.stores && ReadFor(later, name).Some?
               && (ElementAt(ReadFor(later, name).value, name, i) == Some(v)
                   <==> if i == j then v == w else ElementAt(d, name, i) == Some(v))
  {
    var failed := AfterSetElement(s, name, i, v, false);
    assert Found(failed, name).vars == Found(s, name).vars;
  }

  /**
   * An append goes after the local table's last element, and so after a failed one: it takes the index
   * that it would have had without the failed write exactly if that was not beyond the last element.
   */
  lemma FailedElementMovesAppend(s: State, name: CString, i: Index, v: CString, top: int, failedTop: int)
    requires name in s.vars && s.vars[name].link == SharedArray && LinkOk(s.vars[name]) && name in s.registry
    requires IsMaxIndex(s.vars[name].contents.data.elems, top)
    requires IsMaxIndex(AfterSetElement(s, name, i, v, false).vars[name].contents.data.elems, failedTop)
    ensures NextIndex(failedTop) == NextIndex(top) <==> i <= top
    ensures i > top ==> NextIndex(failedTop) == NextIndex(i)
  {
    MaxAfterInsert(s.vars[name].contents.data.elems, i, v, top, failedTop);
  }

  lemma MaxAfterInsert(m: map<Index, CString>, i: Index, v: CString, top: int, newTop: int)
    requires IsMaxIndex(m, top) && IsMaxIndex(m[i := v], newTop)
    ensures newTop == if i > top then i else top
  {
    assert i in m[i := v];
    assert top in m.Keys ==> top in m[i := v];
  }

  /** As in this case: after a failed write at 5 to an empty array an append goes to 6 instead of 0. */
  lemma AppendAfterFailure(name: CString, store: StoreId, v: CString, w: CString)
    ensures var s := State(map[name := Variable(Cells(Array(map[])), SharedArray)], map[name := store],
                           map[store := EMPTY_DATABASE]);
            var failed := AfterSetElement(s, name, 5, v, false);
            && IsMaxIndex(s.vars[name].contents.data.elems, -1)
            && IsMaxIndex(failed.vars[name].contents.data.elems, 5)
            && Elements(AfterSetElement(s, name, NextIndex(-1), w, true).stores[store], name) == map[0 := w]
            && Elements(AfterSetElement(failed, name, NextIndex(5), w, true).stores[store], name) == map[6 := w]
  {
  }

  lemma FailedPairIsForgotten(s: State, name: CString, key: CString, v: CString, other: CString, w: CString)
    requires LinksOk(s.vars) && name in s.vars && s.vars[name].link == SharedAssoc && ReadFor(s, name).Some?
    ensures var (failed, d) := (AfterSetPair(s, name, key, v, false), ReadFor(s, name).value);
            && failed.stores == s.stores && Found(failed, name) == Found(s, name)
            && failed.vars[name].contents.data.pairs == s.vars[name].contents.data.pairs[key := v]
            && var later := AfterSetPair(failed, name, other, w, true);
               var clean := AfterSetPair(s, name, other, w, true);
               && later.stores == clean.stores && ReadFor(later, name).Some?
               && (PairAt(ReadFor(later, name).value, name, key) == Some(v)
                   <==> if key == other then v == w else PairAt(d, name, key) == Some(v))
  {
    var failed := AfterSetPair(s, name, key, v, false);
    assert Found(failed, name).vars == Found(s, name).vars;
  }

  /**
   * An assignment sets its element here, and in the store if that can be read and written; a variable
   * that is bound to nothing ignores it. Nothing else changes.
   */
  lemma ElementSetterIsLocal(s: State, name: CString, i: Index, v: CString, fits: bool)
    requires name in s.vars && s.vars[name].link == SharedArray && LinkOk(s.vars[name])
    ensures var t := AfterSetElement(s, name, i, v, fits);
            && OthersAsBefore(s, t, name) && t.registry == s.registry
            && (name !in s.registry ==> t == s)
            && (name in s.registry ==>
                  && name in t.vars && t.vars[name].link == SharedArray && LinkOk(t.vars[name])
                  && t.vars[name].contents.data.elems == s.vars[name].contents.data.elems[i := v])
            && if ReadFor(s, name).Some? && fits
               then EntryWritten(s.stores, t.stores, s.registry[name], name,
                                 Array(Elements(ReadFor(s, name).value, name)[i := v]))
               else t.stores == s.stores
  {
  }

  lemma PairSetterIsLocal(s: State, name: CString, key: CString, v: CString, fits: bool)
    requires name in s.vars && s.vars[name].link == SharedAssoc && LinkOk(s.vars[name])
    ensures var t := AfterSetPair(s, name, key, v, fits);
            && OthersAsBefore(s, t, name) && t.registry == s.registry
            && (name !in s.registry ==> t == s)
            && (name in s.registry ==>
                  && name in t.vars && t.vars[name].link == SharedAssoc && LinkOk(t.vars[name])
                  && t.vars[name].contents.data.pairs == s.vars[name].contents.data.pairs[key := v])
            && if ReadFor(s, name).Some? && fits
               then EntryWritten(s.stores, t.stores, s.registry[name], name,
                                 Assoc(Pairs(ReadFor(s, name).value, name)[key := v]))
               else t.stores == s.stores
  {
  }

  /**
   * Every other shell bound to the same store reads the assignment, on top of what the database
   * showed before, however stale its own table is; and reads its other variables as before.
   */
  lemma OthersSeeElement(s: State, name: CString, i: Index, value: CString, o: State, other: CString)
    requires LinksOk(s.vars) && name in s.vars && s.vars[name].link == SharedArray && ReadFor(s, name).Some?
    requires o.stores == AfterSetElement(s, name, i, value, true).stores
    requires other in o.vars && o.vars[other].link == SharedArray && ReadFor(o, other).Some?
    ensures var before := ReadFor(o.(stores := s.stores), other);
            && before.Some?
            && Found(o, other).vars[other].contents == Cells(Array(
                 if other == name && o.registry[other] == s.registry[name]
                 then Elements(before.value, other)[i := value]
                 else Elements(before.value, other)))
  {
  }

  /** The value that bind -p is to preserve. */
  function Original(s: State, name: CString): VarData
    requires name in s.vars
  {
    match Found(s, name).vars[name].contents
    case Cells(data) => data
    case Scalar(None) => Array(map[0 := []])
    case Scalar(Some(v)) => Array(map[0 := v])
  }

  lemma CallbacksAttached(s: State, name: CString, assoc: bool, junk: CString)
    requires LinksOk(s.vars)
    ensures var t := WithCallbacks(s, name, assoc, junk);
            && name in t.vars && t == s.(vars := s.vars[name := t.vars[name]])
            && LinkOk(t.vars[name]) && t.vars[name].link == if assoc then SharedAssoc else SharedArray
  {
    var t, f := WithCallbacks(s, name, assoc, junk), Found(s, name);
    assert name in s.vars ==> f == s.(vars := s.vars[name := f.vars[name]]);
    assert t.vars == s.vars[name := t.vars[name]];
  }

  /** Every variable but this one, and where it is bound, is as before. */
  ghost predicate OthersAsBefore(s: State, t: State, name: CString) {
    forall n: CString :: n != name ==>
      && (n in t.vars <==> n in s.vars) && (n in s.vars ==> t.vars[n] == s.vars[n])
      && (n in t.registry <==> n in s.registry) && (n in s.registry ==> t.registry[n] == s.registry[n])
  }

  /** One entry of one store has been written, and nothing else. */
  ghost predicate EntryWritten(before: map<StoreId, Database>, after: map<StoreId, Database>, store: StoreId,
                               name: CString, data: VarData)
  {
    && after.Keys == before.Keys && store in after && name in after[store] && after[store][name] == data
    && (forall k :: k in before && k != store ==> after[k] == before[k])
    && forall n: CString :: n != name ==>
         && (n in after[store] <==> n in before[store]) && (n in before[store] ==> after[store][n] == before[store][n])
  }

  /**
   * Every bind, with or without -p, of a variable that exists or not: the variable is shared, of the
   * kind asked for, and bound to that store, and nothing else of the shell has changed. It fails
   * exactly when there is a value to preserve and the store cannot take it, and writes exactly when
   * there is one and it can.
   */
  lemma BindAlwaysLinks(s: State, name: CString, store: StoreId, preserve: bool, assoc: bool, fits: bool, junk: CString)
    requires LinksOk(s.vars)
    ensures var (t, ok) := AfterBind(s, name, store, preserve, assoc, fits, junk);
            && name in t.vars && t.vars[name].link == (if assoc then SharedAssoc else SharedArray)
            && LinksOk(t.vars) && OthersAsBefore(s, t, name)
            && name in t.registry && t.registry[name] == store
            && (ok <==> (preserve && name in s.vars ==> store in s.stores && fits))
            && if preserve && name in s.vars && ok
               then EntryWritten(s.stores, t.stores, store, name, Original(s, name)) else t.stores == s.stores
  {
    var (t, ok) := AfterBind(s, name, store, preserve, assoc, fits, junk);
    var seen := if preserve then Found(s, name) else s;
    if name in s.vars { FoundIsLocal(s, name); }
    CallbacksAttached(seen.(registry := seen.registry[name := store]), name, assoc, junk);
    assert t.vars == seen.vars[name := t.vars[name]] && t.registry == s.registry[name := store];
    if preserve && name in s.vars { assert Captured(seen.vars, name) == Some(Original(s, name)); }
  }

  /** And as soon as the store can be read, the variable reads as the store's entry of that kind. */
  lemma BoundReadsTheStore(s: State, name: CString, store: StoreId, preserve: bool, assoc: bool, fits: bool,
                           junk: CString)
    requires LinksOk(s.vars)
    ensures var t := AfterBind(s, name, store, preserve, assoc, fits, junk).0;
            && name in t.vars
            && (store in t.stores ==>
                  Found(t, name).vars[name].contents
                  == Cells(if assoc then Assoc(Pairs(t.stores[store], name))
                           else Array(Elements(t.stores[store], name))))
  {
    BindAlwaysLinks(s, name, store, preserve, assoc, fits, junk);
  }

  /**
   * Until the store is read, a variable that has just been bound holds what it held: an array of the
   * kind asked for as it is, a string as element 0 or "0", and nothing if it had no value.
   */
  lemma UnreadBindKeepsValue(s: State, name: CString, store: StoreId, preserve: bool, assoc: bool, fits: bool,
                             junk: CString)
    requires LinksOk(s.vars) && name in s.vars && (s.vars[name].link == Plain || store !in s.stores)
    ensures var (t, found) := (AfterBind(s, name, store, preserve, assoc, fits, junk).0,
                               if preserve then Found(s, name).vars[name].contents else s.vars[name].contents);
            && name in t.vars && t.vars[name].contents.Cells?
            && (found.Cells? && (found.data.Assoc? <==> assoc) ==> t.vars[name].contents == found)
            && (found == Scalar(None) ==> t.vars[name].contents == Cells(if assoc then Assoc(map[]) else Array(map[])))
            && (found.Scalar? && found.value.Some? ==>
                  t.vars[name].contents == Cells(if assoc then Assoc(map[[48] := found.value.value])
                                                 else Array(map[0 := found.value.value])))
  {
    FoundIsLocal(s, name);
  }

  /** What bind -p leaves, in a store that can take the value. */
  lemma Preserving(s: State, name: CString, store: StoreId, assoc: bool, fits: bool, junk: CString,
                   bound: State, ok: bool)
    requires LinksOk(s.vars) && name in s.vars && store in s.stores
    requires (bound, ok) == AfterBind(s, name, store, true, assoc, fits, junk)
    ensures name in bound.vars && bound.vars == s.vars[name := bound.vars[name]]
    ensures LinkOk(bound.vars[name]) && bound.vars[name].link == if assoc then SharedAssoc else SharedArray
    ensures ok == fits && bound.registry == s.registry[name := store]
    ensures bound.stores
            == if ok then s.stores[store := SetEntry(s.stores[store], name, Original(s, name))] else s.stores
  {
    var seen := Found(s, name);
    FoundIsLocal(s, name);
    CallbacksAttached(seen.(registry := seen.registry[name := store]), name, assoc, junk);
    assert Captured(seen.vars, name) == Some(Original(s, name));
    assert bound.vars == seen.vars[name := bound.vars[name]];
  }

  /** A getter changes its own variable only. */
  lemma FoundIsLocal(s: State, name: CString)
    requires LinksOk(s.vars) && name in s.vars
    ensures var seen := Found(s, name);
            && name in seen.vars && seen == s.(vars := s.vars[name := seen.vars[name]]) && LinksOk(seen.vars)
  {
    var seen := Found(s, name);
    assert seen.vars == s.vars[name := seen.vars[name]];
  }

  /**
   * bind -p and then unbind give back the array, element by element, and a scalar as element 0.
   * The database keeps the entry; other variables, entries and stores are as they were.
   */
  lemma PreserveRoundTrip(s: State, name: CString, store: StoreId, assoc: bool, junk: CString)
    requires LinksOk(s.vars) && name in s.vars && store in s.stores
    ensures var (bound, ok) := AfterBind(s, name, store, true, assoc, true, junk);
            var after := AfterUnbind(bound, name);
            && ok && LinksOk(bound.vars)
            && after.vars == s.vars[name := Variable(Cells(Original(s, name)), Plain)]
            && after.registry == s.registry - {name}
            && after.stores == s.stores[store := SetEntry(s.stores[store], name, Original(s, name))]
  {
    var (bound, ok) := AfterBind(s, name, store, true, assoc, true, junk);
    Preserving(s, name, store, assoc, true, junk, bound, ok);
    UnbindRestores(s, name, store, Original(s, name), bound);
  }

  lemma UnbindRestores(s: State, name: CString, store: StoreId, data: VarData, bound: State)
    requires name in bound.vars && bound.vars == s.vars[name := bound.vars[name]]
    requires bound.registry == s.registry[name := store]
    requires store in bound.stores && name in bound.stores[store] && bound.stores[store][name] == data
    ensures var after := AfterUnbind(bound, name);
            after.vars == s.vars[name := Variable(Cells(data), Plain)] && after.registry == s.registry - {name}
  {
    var after := AfterUnbind(bound, name);
    assert bound.vars - {name} == s.vars - {name};
    assert after.vars == s.vars[name := Variable(Cells(data), Plain)];
    assert after.registry == s.registry - {name};
  }

  /** While it is bound it reads as the preserved value exactly if -A was given for associative arrays only. */
  lemma PreservedReadsBackIff(s: State, name: CString, store: StoreId, assoc: bool, junk: CString)
    requires LinksOk(s.vars) && name in s.vars && store in s.stores
    ensures var bound := AfterBind(s, name, store, true, assoc, true, junk).0;
            Found(bound, name).vars[name].contents == Cells(Original(s, name))
            <==> (Original(s, name).Assoc? <==> assoc)
  {
    var (bound, ok) := AfterBind(s, name, store, true, assoc, true, junk);
    Preserving(s, name, store, assoc, true, junk, bound, ok);
    ShownAfterSeed(bound, name, store, Original(s, name), assoc);
  }

  lemma ShownAfterSeed(bound: State, name: CString, store: StoreId, data: VarData, assoc: bool)
    requires name in bound.vars && bound.vars[name].link == if assoc then SharedAssoc else SharedArray
    requires name in bound.registry && bound.registry[name] == store && store in bound.stores
    requires name in bound.stores[store] && bound.stores[store][name] == data
    ensures Found(bound, name).vars[name].contents == Cells(data) <==> (data.Assoc? <==> assoc)
  {
  }

  /** A preserving bind that cannot write fails, leaves the stores alone, and the value is no longer read. */
  lemma FailedPreserve(s: State, name: CString, store: StoreId, assoc: bool, junk: CString)
    requires LinksOk(s.vars) && name in s.vars && store in s.stores
    ensures var (bound, ok) := AfterBind(s, name, store, true, assoc, false, junk);
            && !ok && bound.stores == s.stores
            && Found(bound, name).vars[name].contents
               == Cells(Shown(s.stores[store], name, if assoc then SharedAssoc else SharedArray))
  {
    var (bound, ok) := AfterBind(s, name, store, true, assoc, false, junk);
    Preserving(s, name, store, assoc, false, junk, bound, ok);
  }

  /**
   * unbind leaves exactly the database's value, or no variable where the database has none; the stores
   * are unchanged. (ShellRuns has the writes that come before it.)
   */
  lemma UnbindTakesTheDatabase(s: State, name: CString)
    ensures var after := AfterUnbind(s, name);
            && after.stores == s.stores
            && (name in after.vars <==>
                name in s.registry && s.registry[name] in s.stores && name in s.stores[s.registry[name]])
            && (name in after.vars ==>
                after.vars[name] == Variable(Cells(s.stores[s.registry[name]][name]), Plain))
            && name !in after.registry
            && forall n: CString :: n != name ==>
                 && (n in after.vars <==> n in s.vars) && (n in s.vars ==> after.vars[n] == s.vars[n])
                 && (n in after.registry <==> n in s.registry)
                 && (n in s.registry ==> after.registry[n] == s.registry[n])
  {
  }

  /**
   * unbind is to keep the value that the variable had while it was shared. It does exactly when the
   * store can be read and holds an entry of the variable's own kind: a variable that nothing was
   * written to, or whose store is gone, disappears, and an entry of the other kind comes back.
   */
  lemma UnbindKeepsValueIff(s: State, name: CString)
    requires LinksOk(s.vars) && name in s.vars && s.vars[name].link != Plain
    ensures var after := AfterUnbind(s, name);
            (name in after.vars && after.vars[name].contents == Found(s, name).vars[name].contents)
            <==>
            ReadFor(s, name).Some? && name in ReadFor(s, name).value
            && (ReadFor(s, name).value[name].Assoc? <==> s.vars[name].link == SharedAssoc)
  {
  }

  /** A variable that was bound and never written to reads as empty, and unbind removes it. */
  lemma UnwrittenVariableDisappears(name: CString, store: StoreId)
    ensures var s := State(map[], map[], map[store := EMPTY_DATABASE]);
            var bound := AfterBind(s, name, store, false, false, true, []).0;
            && name in bound.vars && Found(bound, name).vars[name].contents == Cells(Array(map[]))
            && name !in AfterUnbind(bound, name).vars
  {
  }

  /** A scalar bound with -p -A reads as empty while it is bound, although the database has its value. */
  lemma ScalarUnderDashAReadsEmpty(name: CString, store: StoreId, v: CString)
    ensures var s := State(map[name := Variable(Scalar(Some(v)), Plain)], map[], map[store := EMPTY_DATABASE]);
            var bound := AfterBind(s, name, store, true, true, true, []).0;
            && name in bound.vars && Found(bound, name).vars[name].contents == Cells(Assoc(map[]))
            && bound.stores[store] == map[name := Array(map[0 := v])]
  {
  }

  function EmptyFor(link: Link): VarData {
    if link == SharedAssoc then Assoc(map[]) else Array(map[])
  }

  ghost predicate EntryRemoved(before: map<StoreId, Database>, after: map<StoreId, Database>, store: StoreId,
                               name: CString)
  {
    && after.Keys == before.Keys && store in after && name !in after[store]
    && (forall k :: k in before && k != store ==> after[k] == before[k])
    && forall n: CString :: n != name ==>
         && (n in after[store] <==> n in before[store]) && (n in before[store] ==> after[store][n] == before[store][n])
  }

  /** The variable is bound to this store, which can be read. */
  predicate BoundTo(s: State, name: CString, store: StoreId) {
    name in s.registry && s.registry[name] == store && store in s.stores
  }

  /** A shell reads this linked variable as empty. */
  predicate ReadsEmpty(o: State, name: CString)
    requires name in o.vars
  {
    Found(o, name).vars[name].contents == Cells(EmptyFor(o.vars[name].link))
  }

  /**
   * drop succeeds exactly when the variable is bound to a store that can be read and written. Then
   * variable, binding and entry are gone and nothing else is, and every other shell that has the
   * variable on that store reads it as empty; otherwise nothing has changed.
   */
  lemma DropRemoves(s: State, name: CString, fits: bool, o: State)
    requires o.stores == AfterDrop(s, name, fits).0.stores
    ensures var (t, ok) := AfterDrop(s, name, fits);
            && (ok <==> name in s.registry && s.registry[name] in s.stores && fits)
            && (!ok ==> t == s)
            && (ok ==>
                  && name !in t.vars && name !in t.registry && OthersAsBefore(s, t, name)
                  && EntryRemoved(s.stores, t.stores, s.registry[name], name)
                  && (name in o.vars && o.vars[name].link != Plain && BoundTo(o, name, s.registry[name]) ==>
                        ReadsEmpty(o, name)))
  {
  }

  /**
   * clear succeeds exactly when the store can be read and written; then every shell reads every
   * variable that is bound to it as empty, and the other stores, variables and bindings stay.
   */
  lemma ClearEmpties(s: State, store: StoreId, fits: bool, o: State, name: CString)
    requires o.stores == AfterClear(s, store, fits).0.stores
    ensures var (t, ok) := AfterClear(s, store, fits);
            && (ok <==> store in s.stores && fits)
            && (!ok ==> t == s)
            && t.vars == s.vars && t.registry == s.registry
            && t.stores.Keys == s.stores.Keys
            && (forall k :: k in s.stores && k != store ==> t.stores[k] == s.stores[k])
            && (ok && name in o.vars && o.vars[name].link != Plain && BoundTo(o, name, store) ==> ReadsEmpty(o, name))
  {
  }

  // ----- In place -----

  class Shell {
    var vars: map<CString, Variable>
    var registry: map<CString, StoreId>
    var stores: map<StoreId, Database>

    ghost function Current(): State
      reads this
    {
      State(vars, registry, stores)
    }

    /** shm_array_getter */
    method ArrayGetter(name: CString) returns (ghost touched: multiset<Index>)
      requires name in vars && vars[name].link == SharedArray && LinkOk(vars[name])
      modifies this`vars
      ensures Current() == Found(old(Current()), name)
      ensures forall k ::
        touched[k] == if StaleArray(old(Current()), name, k) then 1 else 0
    {
      touched := multiset{};
      if name in registry && registry[name] in stores {
        var table := new BashTable(vars[name].contents.data.elems);
        var repr := stores[registry[name]];
        Reconcile(table, Elements(repr, name));
        touched := table.touched;
        vars := vars[name := Variable(Cells(Array(table.elems)), SharedArray)];
      }
    }

    /** shm_assoc_getter */
    method AssocGetter(name: CString) returns (ghost touched: multiset<CString>)
      requires name in vars && vars[name].link == SharedAssoc && LinkOk(vars[name])
      modifies this`vars
      ensures Current() == Found(old(Current()), name)
      ensures forall k ::
        touched[k] == if StaleAssoc(old(Current()), name, k) then 1 else 0
    {
      touched := multiset{};
      if name in registry && registry[name] in stores {
        var table := new BashTable(vars[name].contents.data.pairs);
        var repr := stores[registry[name]];
        Reconcile(table, Pairs(repr, name));
        touched := table.touched;
        vars := vars[name := Variable(Cells(Assoc(table.elems)), SharedAssoc)];
      }
    }

    method FindVariable(name: CString) returns (found: bool)
      requires LinksOk(vars)
      modifies this`vars
      ensures Current() == Found(old(Current()), name) && found == (name in vars)
      ensures LinksOk(vars)
    {
      found := name in vars;
      if found && vars[name].link == SharedArray {
        var _ := ArrayGetter(name);
      } else if found && vars[name].link == SharedAssoc {
        var _ := AssocGetter(name);
      }
    }

    /** l_array_max_index */
    method MaxIndex(elems: map<Index, CString>) returns (top: int)
      ensures IsMaxIndex(elems, top)
    {
      top := -1;
      var todo := elems.Keys;
      while todo != {}
        invariant todo <= elems.Keys
        invariant -1 <= top < 0x8000_0000_0000_0000 && (top == -1 || top in elems.Keys)
        invariant forall i :: i in elems && i !in todo ==> i <= top
        decreases |todo|
      {
        var i :| i in todo;
        if i > top { top := i; }
        todo := todo - {i};
      }
    }

    /** shm_array_setter: a negative index appends after the last element that this shell holds. */
    method ArraySetter(name: CString, ind: Index, value: Option<CString>, fits: bool) returns (idx: Index)
      requires name in vars && vars[name].link == SharedArray && LinkOk(vars[name])
      modifies this
      ensures ind >= 0 ==> idx == ind
      ensures ind < 0 ==> exists top :: IsMaxIndex(old(vars)[name].contents.data.elems, top) && idx == NextIndex(top)
      ensures Current() == AfterSetElement(old(Current()), name, idx, if value.Some? then value.value else [], fits)
    {
      var elems := vars[name].contents.data.elems;
      if ind < 0 {
        var top := MaxIndex(elems);
        idx := NextIndex(top);
      } else {
        idx := ind;
      }
      if name in registry {
        var cval := if value.Some? then value.value else [];
        var local := new BashTable(elems);
        local.Insert(idx, cval);
        vars := vars[name := Variable(Cells(Array(local.elems)), SharedArray)];
        if registry[name] in stores && fits {
          var repr := stores[registry[name]];
          var slot := new VarSlot(if name in repr then repr[name] else Array(map[]));
          slot.InsertIndexInPlace(idx, cval);
          stores := stores[registry[name] := SetEntry(repr, name, slot.data)];
        }
      }
    }

    /** shm_assoc_setter */
    method AssocSetter(name: CString, key: Option<CString>, value: Option<CString>, fits: bool)
      requires name in vars && vars[name].link == SharedAssoc && LinkOk(vars[name])
      modifies this
      ensures Current() == AfterSetPair(old(Current()), name, if key.Some? then key.value else [],
                                        if value.Some? then value.value else [], fits)
    {
      if name in registry {
        var ckey := if key.Some? then key.value else [];
        var cval := if value.Some? then value.value else [];
        var local := new BashTable(vars[name].contents.data.pairs);
        local.Insert(ckey, cval);
        vars := vars[name := Variable(Cells(Assoc(local.elems)), SharedAssoc)];
        if registry[name] in stores && fits {
          var repr := stores[registry[name]];
          var slot := new VarSlot(if name in repr then repr[name] else Array(map[]));
          slot.InsertKeyInPlace(ckey, cval);
          stores := stores[registry[name] := SetEntry(repr, name, slot.data)];
        }
      }
    }

    /** l_init_dynamic_array_var, l_init_dynamic_assoc_var */
    method AttachCallbacks(name: CString, assoc: bool, junk: CString)
      requires LinksOk(vars)
      modifies this`vars
      ensures Current() == WithCallbacks(old(Current()), name, assoc, junk) && LinksOk(vars)
    {
      var found := FindVariable(name);
      var cells := if assoc then Assoc(map[]) else Array(map[]);
      if found { cells := Converted(vars[name].contents, assoc, junk); }
      vars := vars[name := Variable(Cells(cells), if assoc then SharedAssoc else SharedArray)];
    }

    method Bind(name: CString, store: StoreId, preserve: bool, assoc: bool, fits: bool, junk: CString)
      returns (ok: bool)
      requires LinksOk(vars)
      modifies this
      ensures (Current(), ok) == AfterBind(old(Current()), name, store, preserve, assoc, fits, junk) && LinksOk(vars)
    {
      var preserved: Option<VarData> := None;
      if preserve {
        var _ := FindVariable(name);
        preserved := Captured(vars, name);
      }
      registry := registry[name := store];
      AttachCallbacks(name, assoc, junk);
      ok := preserved == None || (store in stores && fits);
      if preserved.Some? && ok {
        stores := stores[store := SetEntry(stores[store], name, preserved.value)];
      }
    }

    method Unbind(name: CString)
      modifies this
      ensures Current() == AfterUnbind(old(Current()), name)
    {
      var snapshot := if name in registry && registry[name] in stores && name in stores[registry[name]]
                      then Some(stores[registry[name]][name]) else None;
      registry := registry - {name};
      vars := vars - {name};
      match snapshot
      case None =>
      case Some(Array(m)) =>
        var cell := new BashTable<Index>(map[]);
        Refill(cell, m);
        vars := vars[name := Variable(Cells(Array(cell.elems)), Plain)];
      case Some(Assoc(m)) =>
        var cell := new BashTable<CString>(map[]);
        Refill(cell, m);
        vars := vars[name := Variable(Cells(Assoc(cell.elems)), Plain)];
    }

    method Drop(name: CString, fits: bool) returns (ok: bool)
      modifies this
      ensures (Current(), ok) == AfterDrop(old(Current()), name, fits)
    {
      if name !in registry { return false; }
      var store := registry[name];
      if store !in stores || !fits { return false; }
      stores := stores[store := RemoveEntry(stores[store], name)];
      registry := registry - {name};
      vars := vars - {name};
      ok := true;
    }

    method Clear(store: StoreId, fits: bool) returns (ok: bool)
      modifies this
      ensures (Current(), ok) == AfterClear(old(Current()), store, fits)
    {
      ok := store in stores && fits;
      if ok { stores := stores[store := EMPTY_DATABASE]; }
    }
  }
}
