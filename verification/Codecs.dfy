// Serialization of a database, as the store uses it. The store never looks inside a blob, so
// every result about it holds for any codec that is faithful; one concrete codec shows that
// faithful codecs exist.

module Codecs {
  import opened Bytes
  import opened Databases

  datatype Codec = Codec(enc: Database -> seq<byte>, dec: seq<byte> -> Option<Database>)

  /** What the store relies on: decoding undoes encoding, and a blob is at least one u64 long. */
  ghost predicate Faithful(c: Codec) {
    forall d: Database :: c.dec(c.enc(d)) == Some(d) && |c.enc(d)| >= 8
  }

  // ----- A concrete codec, from self-delimiting parts -----

  /** Reads a value off the front of a byte string, and returns what is left. */
  type Reader<!T> = seq<byte> -> Option<(T, seq<byte>)>

  ghost predicate Inverts<T(!new)>(w: T -> seq<byte>, r: Reader<T>) {
    forall x: T, rest: seq<byte> :: r(w(x) + rest) == Some((x, rest))
  }

  ghost function SomeKey<K(!new), V(!new)>(m: map<K, V>): (k: K)
    requires m != map[]
    ensures k in m
  {
    var k :| k in m;
    k
  }

  ghost function WriteMap<K(!new), V(!new)>(wk: K -> seq<byte>, wv: V -> seq<byte>, m: map<K, V>): seq<byte>
    decreases |m|
  {
    if m == map[] then [0]
    else
      var k := SomeKey(m);
      [1] + wk(k) + wv(m[k]) + WriteMap(wk, wv, m - {k})
  }

  /** Reads that do not shorten their input are refused, so that reading a map ends. */
  function ReadMap<K, V>(rk: Reader<K>, rv: Reader<V>, s: seq<byte>): Option<(map<K, V>, seq<byte>)>
    decreases |s|
  {
    if s == [] then None
    else if s[0] == 0 then Some((map[], s[1..]))
    else match rk(s[1..])
      case None => None
      case Some((k, afterKey)) =>
        match rv(afterKey)
        case None => None
        case Some((v, afterValue)) =>
          if |afterValue| >= |s| then None
          else match ReadMap(rk, rv, afterValue)
            case None => None
            case Some((m, rest)) => Some((m[k := v], rest))
  }

  lemma ReadEntry<K(!new), V(!new)>(wk: K -> seq<byte>, rk: Reader<K>, wv: V -> seq<byte>, rv: Reader<V>,
                                    k: K, v: V, tail: seq<byte>)
    requires Inverts(wk, rk) && Inverts(wv, rv)
    requires ReadMap(rk, rv, tail).Some?
    ensures var (m, rest) := ReadMap(rk, rv, tail).value;
            ReadMap(rk, rv, [1] + wk(k) + wv(v) + tail) == Some((m[k := v], rest))
  {
    var s: seq<byte> := [1] + wk(k) + wv(v) + tail;
    assert s[0] == 1 && s[1..] == wk(k) + (wv(v) + tail);
  }

  lemma WrittenEntry<K(!new), V(!new)>(wk: K -> seq<byte>, wv: V -> seq<byte>, m: map<K, V>, k: K, rest: seq<byte>)
    requires m != map[] && k == SomeKey(m)
    ensures WriteMap(wk, wv, m) + rest == [1] + wk(k) + wv(m[k]) + (WriteMap(wk, wv, m - {k}) + rest)
  {
    var head, tail := [1] + wk(k) + wv(m[k]), WriteMap(wk, wv, m - {k});
    assert WriteMap(wk, wv, m) == head + tail;
    assert head + tail + rest == head + (tail + rest);
  }

  lemma {:induction false} MapRoundTrip<K(!new), V(!new)>(wk: K -> seq<byte>, rk: Reader<K>,
        wv: V -> seq<byte>, rv: Reader<V>, m: map<K, V>, rest: seq<byte>)
    requires Inverts(wk, rk) && Inverts(wv, rv)
    ensures ReadMap(rk, rv, WriteMap(wk, wv, m) + rest) == Some((m, rest))
    decreases |m|
  {
    if m == map[] {
      assert (WriteMap(wk, wv, m) + rest)[1..] == rest;
    } else {
      var k := SomeKey(m);
      var tail := WriteMap(wk, wv, m - {k}) + rest;
      MapRoundTrip(wk, rk, wv, rv, m - {k}, rest);
      ReadEntry(wk, rk, wv, rv, k, m[k], tail);
      WrittenEntry(wk, wv, m, k, rest);
      assert (m - {k})[k := m[k]] == m;
    }
  }

  function WriteString(s: CString): seq<byte> {
    s + [0]
  }

  function ReadString(s: seq<byte>): (r: Option<(CString, seq<byte>)>) {
    if s == [] then None
    else if s[0] == 0 then Some(([], s[1..]))
    else match ReadString(s[1..])
      case None => None
      case Some((tail, rest)) => Some(([s[0]] + tail, rest))
  }

  lemma {:induction false} StringRoundTrip(x: CString, rest: seq<byte>)
    ensures ReadString(WriteString(x) + rest) == Some((x, rest))
  {
    var s := WriteString(x) + rest;
    if x == [] {
      assert s[1..] == rest;
    } else {
      assert s[1..] == WriteString(x[1..]) + rest;
      StringRoundTrip(x[1..], rest);
      assert [x[0]] + x[1..] == x;
    }
  }

  function WriteIndex(i: Index): seq<byte> {
    ToBytes(i + 0x8000_0000_0000_0000, 8)
  }

  function ReadIndex(s: seq<byte>): Option<(Index, seq<byte>)> {
    if |s| < 8 then None
    else
      var n := FromBytes(s[..8]);
      if n < U64_LIMIT then Some((n - 0x8000_0000_0000_0000, s[8..])) else None
  }

  lemma IndexRoundTrip(i: Index, rest: seq<byte>)
    ensures ReadIndex(WriteIndex(i) + rest) == Some((i, rest))
  {
    Power8();
    LengthRoundTrip(i + 0x8000_0000_0000_0000, 8);
    assert (WriteIndex(i) + rest)[..8] == WriteIndex(i);
    assert (WriteIndex(i) + rest)[8..] == rest;
  }

  lemma LeavesRoundTrip()
    ensures Inverts(WriteString, ReadString) && Inverts(WriteIndex, ReadIndex)
  {
    forall x: CString, rest: seq<byte> ensures ReadString(WriteString(x) + rest) == Some((x, rest)) {
      StringRoundTrip(x, rest);
    }
    forall x: Index, rest: seq<byte> ensures ReadIndex(WriteIndex(x) + rest) == Some((x, rest)) {
      IndexRoundTrip(x, rest);
    }
  }

  ghost function WriteVar(v: VarData): seq<byte> {
    match v
    case Array(elems) => [1] + WriteMap(WriteIndex, WriteString, elems)
    case Assoc(pairs) => [2] + WriteMap(WriteString, WriteString, pairs)
  }

  function ReadVar(s: seq<byte>): Option<(VarData, seq<byte>)> {
    if s == [] then None
    else if s[0] == 1 then
      match ReadMap(ReadIndex, ReadString, s[1..])
      case None => None
      case Some((m, rest)) => Some((Array(m), rest))
    else
      match ReadMap(ReadString, ReadString, s[1..])
      case None => None
      case Some((m, rest)) => Some((Assoc(m), rest))
  }

  lemma VarRoundTrip(v: VarData, rest: seq<byte>)
    ensures ReadVar(WriteVar(v) + rest) == Some((v, rest))
  {
    LeavesRoundTrip();
    match v {
      case Array(elems) =>
        assert (WriteVar(v) + rest)[1..] == WriteMap(WriteIndex, WriteString, elems) + rest;
        MapRoundTrip(WriteIndex, ReadIndex, WriteString, ReadString, elems, rest);
      case Assoc(pairs) =>
        assert (WriteVar(v) + rest)[1..] == WriteMap(WriteString, WriteString, pairs) + rest;
        MapRoundTrip(WriteString, ReadString, WriteString, ReadString, pairs, rest);
    }
  }

  ghost function Encode(d: Database): seq<byte> {
    Zeros(8) + WriteMap(WriteString, WriteVar, d)
  }

  function Decode(s: seq<byte>): Option<Database> {
    if |s| < 8 then None
    else match ReadMap(ReadString, ReadVar, s[8..])
      case None => None
      case Some((d, _)) => Some(d)
  }

  /** The hypothesis under which the store is proved correct can be met. */
  lemma FaithfulCodecExists() returns (c: Codec)
    ensures Faithful(c)
  {
    LeavesRoundTrip();
    forall v: VarData, rest: seq<byte> ensures ReadVar(WriteVar(v) + rest) == Some((v, rest)) {
      VarRoundTrip(v, rest);
    }
    assert Inverts(WriteVar, ReadVar);
    forall d: Database ensures Decode(Encode(d)) == Some(d) {
      MapRoundTrip(WriteString, ReadString, WriteVar, ReadVar, d, []);
      assert Encode(d)[8..] == WriteMap(WriteString, WriteVar, d) + [];
    }
    c := Codec(d => Encode(d), s => Decode(s));
  }
}
