// The shared-variable database of l_builtin/src/vardb.rs: every bound variable's contents.

module Databases {
  import opened Bytes

  /** Bytes of a C string, without its terminator: NUL-free. */
  type CString = s: seq<byte> | 0 !in s

  /** bash's `arrayind_t`. */
  type Index = i: int | -0x8000_0000_0000_0000 <= i < 0x8000_0000_0000_0000

  datatype VarData =
    | Array(elems: map<Index, CString>)
    | Assoc(pairs: map<CString, CString>)
  {
    function AsArray(): Option<map<Index, CString>> {
      if Array? then Some(elems) else None
    }

    function AsAssoc(): Option<map<CString, CString>> {
      if Assoc? then Some(pairs) else None
    }
  }

  type Database = map<CString, VarData>

  const EMPTY_DATABASE: Database := map[]

  /** The entry after `insert_index`: an associative entry is discarded first. */
  function InsertIndex(v: VarData, i: Index, value: CString): VarData {
    Array((if v.Array? then v.elems else map[])[i := value])
  }

  /** The entry after `insert_key`: an indexed entry is discarded first. */
  function InsertKey(v: VarData, key: CString, value: CString): VarData {
    Assoc((if v.Assoc? then v.pairs else map[])[key := value])
  }

  /** What the database shows for an indexed variable: nothing, if its entry is associative. */
  function Elements(d: Database, name: CString): map<Index, CString> {
    if name in d && d[name].AsArray().Some? then d[name].AsArray().value else map[]
  }

  function Pairs(d: Database, name: CString): map<CString, CString> {
    if name in d && d[name].AsAssoc().Some? then d[name].AsAssoc().value else map[]
  }

  /** `repr.vars.insert` */
  function SetEntry(d: Database, name: CString, v: VarData): Database {
    d[name := v]
  }

  /** `repr.vars.remove` */
  function RemoveEntry(d: Database, name: CString): Database {
    d - {name}
  }

  /** What `NAME[i]=value` does to the database. */
  function SetElement(d: Database, name: CString, i: Index, value: CString): Database {
    d[name := InsertIndex(if name in d then d[name] else Array(map[]), i, value)]
  }

  /** What `NAME[key]=value` does to the database, for an associative array. */
  function SetPair(d: Database, name: CString, key: CString, value: CString): Database {
    d[name := InsertKey(if name in d then d[name] else Array(map[]), key, value)]
  }

  lemma ElementsOfSet(d: Database, name: CString, i: Index, value: CString)
    ensures Elements(SetElement(d, name, i, value), name) == Elements(d, name)[i := value]
  {
  }

  /** One entry of the database, updated in place. */
  class VarSlot {
    var data: VarData

    constructor (data: VarData)
      ensures this.data == data
    {
      this.data := data;
    }

    method InsertIndexInPlace(i: Index, value: CString)
      modifies this
      ensures data == InsertIndex(old(data), i, value)
    {
      if !data.Array? { data := Array(map[]); }
      data := Array(data.elems[i := value]);
    }

    method InsertKeyInPlace(key: CString, value: CString)
      modifies this
      ensures data == InsertKey(old(data), key, value)
    {
      if !data.Assoc? { data := Assoc(map[]); }
      data := Assoc(data.pairs[key := value]);
    }
  }
}
