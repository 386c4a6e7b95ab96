// The integer-keyed lookup table of llib/src/intlookup.rs: a sorted index of packed keys that
// answers exact and unique-prefix queries by masked binary search.

module IntLookups {
  import opened Bytes
  import opened PackOrder
  import opened Bits

  datatype Entry<V> = Entry(name: seq<byte>, value: V)

  // ----- What a query means -----

  ghost predicate OnlyMatch<V(!new)>(entries: seq<Entry<V>>, q: seq<byte>, e: Entry<V>) {
    e in entries && q <= e.name && forall f :: f in entries && q <= f.name ==> f == e
  }

  /** The exact key's value if present, else that of the only key with prefix q, else None. */
  ghost predicate Answers<V(!new)>(entries: seq<Entry<V>>, q: seq<byte>, r: Option<V>) {
    if exists e :: e in entries && e.name == q then
      exists e :: e in entries && e.name == q && r == Some(e.value)
    else match r
      case Some(v) => exists e :: OnlyMatch(entries, q, e) && e.value == v
      case None => !exists e :: OnlyMatch(entries, q, e)
  }

  predicate DistinctNames<V(!new)>(entries: seq<Entry<V>>) {
    forall i, j :: 0 <= i < j < |entries| ==> entries[i].name != entries[j].name
  }

  /** No two names have one key. */
  predicate DistinctKeys<V(!new)>(entries: seq<Entry<V>>) {
    forall i, j :: 0 <= i < j < |entries| ==> Stripped(entries[i].name) != Stripped(entries[j].name)
  }

  ghost predicate NamesNulFree<V(!new)>(entries: seq<Entry<V>>) {
    forall e :: e in entries ==> e.name != [] && NulFree(e.name)
  }

  lemma NulFreeNamesDistinct<V(!new)>(entries: seq<Entry<V>>)
    requires NamesNulFree(entries)
    ensures DistinctKeys(entries) <==> DistinctNames(entries)
  {
    forall i, j | 0 <= i < j < |entries|
      ensures Stripped(entries[i].name) == Stripped(entries[j].name) <==> entries[i].name == entries[j].name
    {
      assert entries[i] in entries && entries[j] in entries;
      NulFreePrefixes(entries[i].name, entries[j].name);
    }
  }

  /** A table of distinct names has one answer to each query. */
  lemma AnswerIsUnique<V(!new)>(entries: seq<Entry<V>>, q: seq<byte>, r: Option<V>, t: Option<V>)
    requires DistinctNames(entries) && Answers(entries, q, r) && Answers(entries, q, t)
    ensures r == t
  {
    if exists e :: e in entries && e.name == q {
      var e :| e in entries && e.name == q && r == Some(e.value);
      var f :| f in entries && f.name == q && t == Some(f.value);
      var i :| 0 <= i < |entries| && entries[i] == e;
      var j :| 0 <= j < |entries| && entries[j] == f;
      assert i == j;
    } else if r.Some? && t.Some? {
      var e :| OnlyMatch(entries, q, e) && e.value == r.value;
      var f :| OnlyMatch(entries, q, f) && f.value == t.value;
      assert e == f;
    }
  }

  /** Only which entries there are matters, not their order. */
  lemma OrderDoesNotMatter<V(!new)>(a: seq<Entry<V>>, b: seq<Entry<V>>, q: seq<byte>, r: Option<V>)
    requires multiset(a) == multiset(b) && Answers(a, q, r)
    ensures Answers(b, q, r)
  {
    forall e: Entry<V> ensures e in a <==> e in b {
      assert e in multiset(a) <==> e in multiset(b);
    }
    forall e: Entry<V> ensures OnlyMatch(a, q, e) <==> OnlyMatch(b, q, e) {}
  }

  // ----- What the table answers to any bytes -----

  ghost predicate OnlyPaddedMatch<V(!new)>(entries: seq<Entry<V>>, q: seq<byte>, e: Entry<V>) {
    e in entries && PaddedPrefix(q, e.name) && forall f :: f in entries && PaddedPrefix(q, f.name) ==> f == e
  }

  ghost predicate HasKey<V(!new)>(entries: seq<Entry<V>>, q: seq<byte>) {
    exists e :: e in entries && Stripped(e.name) == Stripped(q)
  }

  /** As Answers, between strings padded with NULs. */
  ghost predicate PaddedAnswers<V(!new)>(entries: seq<Entry<V>>, q: seq<byte>, r: Option<V>) {
    if HasKey(entries, q) then
      exists e :: e in entries && Stripped(e.name) == Stripped(q) && r == Some(e.value)
    else match r
      case Some(v) => exists e :: OnlyPaddedMatch(entries, q, e) && e.value == v
      case None => !exists e :: OnlyPaddedMatch(entries, q, e)
  }

  /** The reply to a query of any length. */
  ghost predicate Reply<V(!new)>(entries: seq<Entry<V>>, width: nat, q: seq<byte>, r: Option<V>) {
    if |q| > width then r == None else PaddedAnswers(entries, q, r)
  }

  /** For a query without NULs the two agree. */
  lemma PaddedIsExact<V(!new)>(entries: seq<Entry<V>>, q: seq<byte>, r: Option<V>)
    requires NamesNulFree(entries) && NulFree(q)
    ensures PaddedAnswers(entries, q, r) <==> Answers(entries, q, r)
  {
    forall e | e in entries
      ensures PaddedPrefix(q, e.name) <==> q <= e.name
      ensures Stripped(e.name) == Stripped(q) <==> e.name == q
    {
      NulFreePrefixes(e.name, q);
    }
    assert HasKey(entries, q) <==> exists e :: e in entries && e.name == q;
    forall e ensures OnlyPaddedMatch(entries, q, e) <==> OnlyMatch(entries, q, e) {}
  }

  /** Between names without NULs and a query with one, only a key that the query pads can match. */
  lemma NulQueryMatches<V(!new)>(entries: seq<Entry<V>>, q: seq<byte>, e: Entry<V>)
    requires NamesNulFree(entries) && e in entries && !NulFree(q)
    ensures !(q <= e.name)
    ensures PaddedPrefix(q, e.name) <==> e.name == Stripped(q)
    ensures Stripped(e.name) == Stripped(q) <==> e.name == Stripped(q)
  {
    var n :| 0 <= n < |q| && q[n] == 0;
    var k := e.name;
    NulBeyond(q, k, n);
    StrippedIsClean(k);
    StrippedTail(q);
    if PaddedPrefix(q, k) {
      StrippedPadding(k, |q| - |k|);
      assert q == k + Zeros(|q| - |k|);
    }
  }

  lemma NulBeyond(q: seq<byte>, k: seq<byte>, n: nat)
    requires n < |q| && q[n] == 0 && NulFree(k)
    ensures PaddedPrefix(q, k) || q <= k ==> |k| <= n
    ensures !(q <= k)
  {
    if n < |k| { assert q[n] != k[n]; }
  }

  lemma {:induction false} StrippedPadding(k: seq<byte>, n: nat)
    ensures Stripped(k + Zeros(n)) == Stripped(k)
  {
    if n == 0 {
      assert k + Zeros(0) == k;
    } else {
      StrippedPadding(k, n - 1);
      assert (k + Zeros(n))[..|k| + n - 1] == k + Zeros(n - 1);
    }
  }

  lemma {:induction false} StrippedTail(q: seq<byte>)
    ensures Stripped(q) <= q && forall i :: |Stripped(q)| <= i < |q| ==> q[i] == 0
  {
    if !Clean(q) { StrippedTail(q[..|q| - 1]); }
  }

  /**
   * On a table of names without NULs the reply is the documented answer exactly when the query has
   * no NUL byte, is too long for the keys, or does not pad a name.
   */
  lemma AnswersIff<V(!new)>(entries: seq<Entry<V>>, width: nat, q: seq<byte>, r: Option<V>)
    requires NamesNulFree(entries) && DistinctNames(entries) && q != []
    requires (forall e :: e in entries ==> |e.name| <= width) && Reply(entries, width, q, r)
    ensures Answers(entries, q, r) <==>
            NulFree(q) || |q| > width || !exists e :: e in entries && e.name == Stripped(q)
  {
    if |q| > width {
      assert forall e :: e in entries ==> !(q <= e.name);
    } else if NulFree(q) {
      PaddedIsExact(entries, q, r);
    } else {
      forall e | e in entries
        ensures !(q <= e.name) && (PaddedPrefix(q, e.name) <==> e.name == Stripped(q))
        ensures Stripped(e.name) == Stripped(q) <==> e.name == Stripped(q)
      {
        NulQueryMatches(entries, q, e);
      }
      assert HasKey(entries, q) <==> exists e :: e in entries && e.name == Stripped(q);
      assert Answers(entries, q, r) <==> r == None;
    }
  }

  /** With the one name "a", the query "a\0" gets its value, although no name has the query as a prefix. */
  lemma NulQueryIsAnswered<V(!new)>(v: V, r: Option<V>)
    ensures var (entries, q) := ([Entry([0x61], v)], [0x61, 0]);
            Reply(entries, 4, q, r) ==> r == Some(v) && !Answers(entries, q, r)
  {
    var entries, q := [Entry([0x61], v)], [0x61, 0];
    assert q[..1] == [0x61] && Stripped(q) == Stripped([0x61]);
    assert entries[0] in entries;
    assert forall e :: e in entries ==> e == entries[0] && !(q <= e.name);
  }

  // ----- Sorted tables -----

  ghost predicate ValidName(name: seq<byte>, width: nat) {
    name != [] && |name| <= width
  }

  ghost predicate Sorted<V(!new)>(entries: seq<Entry<V>>, width: nat) {
    && (forall i :: 0 <= i < |entries| ==> ValidName(entries[i].name, width))
    && (forall i, j :: 0 <= i < j < |entries| ==> Pack(entries[i].name, width) < Pack(entries[j].name, width))
  }

  /** Sorted by packed key is sorted by string. */
  lemma SortedIsLexicographic<V(!new)>(entries: seq<Entry<V>>, width: nat, i: nat, j: nat)
    requires Sorted(entries, width) && i < j < |entries|
    ensures Lex(Stripped(entries[i].name), Stripped(entries[j].name))
  {
    var a, b := entries[i].name, entries[j].name;
    StrippedPacksAlike(a, width);
    StrippedPacksAlike(b, width);
    StrippedIsClean(a);
    StrippedIsClean(b);
    PackIsOrderIso(Stripped(a), Stripped(b), width);
  }

  /** An exact match is the least key that has it as a prefix. */
  lemma ExactIsFirst(k: seq<byte>, q: seq<byte>, width: nat)
    requires ValidName(k, width) && ValidName(q, width) && PaddedPrefix(q, k)
    ensures Pack(q, width) <= Pack(k, width)
  {
    MaskTestsPrefix(k, q, width);
  }

  /** What the search for the lower bound has established when it ends at `low`. */
  ghost predicate LowerBound<V(!new)>(entries: seq<Entry<V>>, width: nat, q: seq<byte>, low: nat)
    requires Sorted(entries, width) && |q| <= width
  {
    var p := Power256(width - |q|);
    && low <= |entries|
    && (forall i :: 0 <= i < low ==> Masked(Pack(entries[i].name, width), p) < Pack(q, width))
    && (forall i :: low <= i < |entries| ==> Masked(Pack(entries[i].name, width), p) >= Pack(q, width))
  }

  /** Keys with prefix q are consecutive from the lower bound on. */
  lemma MatchesFromLow<V(!new)>(entries: seq<Entry<V>>, width: nat, q: seq<byte>, low: nat, i: nat)
    requires Sorted(entries, width) && ValidName(q, width) && LowerBound(entries, width, q, low)
    requires i < |entries| && PaddedPrefix(q, entries[i].name)
    ensures low <= i
    ensures forall k :: low <= k <= i ==> PaddedPrefix(q, entries[k].name)
    ensures Stripped(entries[i].name) == Stripped(q) ==> i == low
  {
    MaskTestsPrefix(entries[i].name, q, width);
    forall k | low <= k <= i ensures PaddedPrefix(q, entries[k].name) {
      MatchesBetween(entries, width, q, low, i, k);
    }
    ExactIsFirst(entries[low].name, q, width);
    AliasesIff(entries[i].name, q, width);
  }

  lemma MatchesBetween<V(!new)>(entries: seq<Entry<V>>, width: nat, q: seq<byte>, low: nat, i: nat, k: nat)
    requires Sorted(entries, width) && ValidName(q, width) && LowerBound(entries, width, q, low)
    requires low <= k <= i < |entries| && PaddedPrefix(q, entries[i].name)
    ensures PaddedPrefix(q, entries[k].name)
  {
    MaskTestsPrefix(entries[i].name, q, width);
    MaskTestsPrefix(entries[k].name, q, width);
    if k < i {
      MaskIsMonotone(Pack(entries[k].name, width), Pack(entries[i].name, width), Power256(width - |q|));
    }
  }

  /** The three tests after the search give the answer. */
  function Decide<V(!new)>(entries: seq<Entry<V>>, q: seq<byte>, low: nat): Option<V> {
    if low < |entries| && PaddedPrefix(q, entries[low].name) then
      if Stripped(entries[low].name) == Stripped(q) then Some(entries[low].value)
      else if low + 1 < |entries| && PaddedPrefix(q, entries[low + 1].name) then None
      else Some(entries[low].value)
    else None
  }

  lemma SameKeyMatches(k: seq<byte>, q: seq<byte>, width: nat)
    requires |k| <= width && |q| <= width && Stripped(k) == Stripped(q)
    ensures PaddedPrefix(q, k)
  {
    AliasesIff(k, q, width);
    MaskTestsPrefix(k, q, width);
  }

  lemma DecideAnswers<V(!new)>(entries: seq<Entry<V>>, width: nat, q: seq<byte>, low: nat)
    requires Sorted(entries, width) && ValidName(q, width) && LowerBound(entries, width, q, low)
    ensures PaddedAnswers(entries, q, Decide(entries, q, low))
  {
    forall i | 0 <= i < |entries| && PaddedPrefix(q, entries[i].name)
      ensures low <= i && (Stripped(entries[i].name) == Stripped(q) ==> i == low)
      ensures forall k :: low <= k <= i ==> PaddedPrefix(q, entries[k].name)
    {
      MatchesFromLow(entries, width, q, low, i);
    }
    forall i | 0 <= i < |entries| && Stripped(entries[i].name) == Stripped(q)
      ensures PaddedPrefix(q, entries[i].name)
    {
      SameKeyMatches(entries[i].name, q, width);
    }
    if i :| 0 <= i < |entries| && Stripped(entries[i].name) == Stripped(q) {
      assert entries[low] in entries;
    } else if low < |entries| && PaddedPrefix(q, entries[low].name) {
      if low + 1 < |entries| && PaddedPrefix(q, entries[low + 1].name) {
        TwoMatches(entries, width, q, low);
      } else {
        assert OnlyPaddedMatch(entries, q, entries[low]);
      }
    }
  }

  lemma TwoMatches<V(!new)>(entries: seq<Entry<V>>, width: nat, q: seq<byte>, low: nat)
    requires Sorted(entries, width) && low + 1 < |entries|
    requires PaddedPrefix(q, entries[low].name) && PaddedPrefix(q, entries[low + 1].name)
    ensures !exists e :: OnlyPaddedMatch(entries, q, e)
  {
    assert Pack(entries[low].name, width) < Pack(entries[low + 1].name, width);
    assert entries[low] in entries && entries[low + 1] in entries;
  }

  /** What the tests on a packed key say about its string. */
  ghost predicate KeyTests(key: nat, name: seq<byte>, q: seq<byte>, width: nat)
    requires |q| <= width
  {
    var p := Power256(width - |q|);
    && p <= Power256(width)
    && BitAnd(key, Power256(width) - p) == Masked(key, p)
    && (Masked(key, p) == Pack(q, width) <==> PaddedPrefix(q, name))
    && (key == Pack(q, width) <==> Stripped(name) == Stripped(q))
  }

  lemma PackedKeyTests(name: seq<byte>, q: seq<byte>, width: nat)
    requires |name| <= width && |q| <= width
    ensures KeyTests(Pack(name, width), name, q, width)
  {
    PackBound(name, width);
    MaskIsBitwise(Pack(name, width), width - |q|, width);
    MaskTestsPrefix(name, q, width);
    AliasesIff(name, q, width);
  }

  // ----- Building the table -----

  /** `keys_max_bits`, which counts bytes. */
  method MaxLength<V(!new)>(arr: seq<Entry<V>>) returns (max: nat)
    ensures forall i :: 0 <= i < |arr| ==> |arr[i].name| <= max
    ensures max == 0 || exists i :: 0 <= i < |arr| && |arr[i].name| == max
  {
    max := 0;
    for i := 0 to |arr|
      invariant forall k :: 0 <= k < i ==> |arr[k].name| <= max
      invariant max == 0 || exists k :: 0 <= k < i && |arr[k].name| == max
    {
      if |arr[i].name| > max { max := |arr[i].name|; }
    }
  }

  /** `pack` as the loop over the bytes, most significant first; None is its assertion. */
  method PackLoop(s: seq<byte>, width: nat) returns (r: Option<nat>)
    requires |s| <= width
    ensures r == if s == [] then None else Some(Pack(s, width))
  {
    if s == [] { return None; }
    var val := 0;
    for i := 0 to |s|
      invariant val == Pack(s[..i], width)
    {
      var shifted := ByteAt(s[i], i, width);
      OrPacksByte(s, i, width);
      val := BitOr(val, shifted);
    }
    assert s[..|s|] == s;
    r := Some(val);
  }

  /** Smallest length for which this width is not wasteful. */
  function MinRequired(width: nat): nat {
    if width == 16 then 9 else if width == 8 then 5 else 0
  }

  /** `key_type_bits` in bytes; None is its panic. */
  function WidthFor(max: nat): Option<nat> {
    if max <= 4 then Some(4) else if max <= 8 then Some(8) else if max <= 16 then Some(16) else None
  }

  ghost predicate Buildable<V(!new)>(arr: seq<Entry<V>>, width: nat) {
    && arr != []
    && (forall e :: e in arr ==> e.name != [] && |e.name| <= width)
    && (exists e :: e in arr && |e.name| >= MinRequired(width))
    && DistinctKeys(arr)
  }

  function KeyOf<V>(e: Entry<V>, width: nat): nat {
    if |e.name| <= width then Pack(e.name, width) else 0
  }

  // ----- Reordering entries -----

  lemma {:induction false} DistinctCount<V(!new)>(es: seq<Entry<V>>, e: Entry<V>)
    requires DistinctKeys(es)
    ensures multiset(es)[e] <= 1
  {
    if es != [] {
      var n := |es| - 1;
      assert es == es[..n] + [es[n]];
      DistinctCount(es[..n], e);
    }
  }

  lemma RepeatedCount<V(!new)>(es: seq<Entry<V>>, i: nat, j: nat)
    requires i < j < |es| && es[i] == es[j]
    ensures multiset(es)[es[i]] >= 2
  {
    assert es == es[..j] + [es[j]] + es[j + 1..];
    assert es[..j][i] == es[i];
    assert es[i] in multiset(es[..j]);
  }

  /** Distinctness of keys does not depend on the order of entries. */
  lemma DistinctCarriesOver<V(!new)>(a: seq<Entry<V>>, b: seq<Entry<V>>)
    requires multiset(a) == multiset(b) && DistinctKeys(a)
    ensures DistinctKeys(b)
  {
    forall i, j | 0 <= i < j < |b| ensures Stripped(b[i].name) != Stripped(b[j].name) {
      assert b[i] in multiset(a) && b[j] in multiset(a);
      var x :| 0 <= x < |a| && a[x] == b[i];
      var y :| 0 <= y < |a| && a[y] == b[j];
      if b[i] == b[j] {
        RepeatedCount(b, i, j);
        DistinctCount(a, b[i]);
      }
    }
  }

  /** The entries are those of `arr` in another order. */
  ghost predicate Reordered<V(!new)>(arr: seq<Entry<V>>, es: seq<Entry<V>>) {
    |es| == |arr| && multiset(es) == multiset(arr)
  }

  lemma NamesStayValid<V(!new)>(arr: seq<Entry<V>>, es: seq<Entry<V>>, width: nat)
    requires Reordered(arr, es) && forall k :: 0 <= k < |arr| ==> ValidName(arr[k].name, width)
    ensures forall k :: 0 <= k < |es| ==> ValidName(es[k].name, width)
  {
    forall k | 0 <= k < |es| ensures ValidName(es[k].name, width) {
      assert es[k] in multiset(arr);
    }
  }

  /**
   * Insertion sort of the two arrays in place. The duplicate assertion fires (ok is false) exactly
   * when two names have one key; otherwise the keys are strictly increasing and every key still has
   * its value.
   */
  method Sort<V(!new)>(keys: array<nat>, vals: array<V>, width: nat, ghost arr: seq<Entry<V>>)
    returns (ok: bool, ghost es: seq<Entry<V>>)
    requires keys as object != vals && AllHold(keys, vals, arr, width)
    requires forall k :: 0 <= k < |arr| ==> ValidName(arr[k].name, width)
    modifies keys, vals
    ensures ok <==> DistinctKeys(arr)
    ensures Reordered(arr, es)
    ensures ok ==> Sorted(es, width) && AllHold(keys, vals, es, width)
  {
    es := arr;
    for i := 0 to keys.Length
      invariant Reordered(arr, es)
      invariant AllHold(keys, vals, es, width)
      invariant Sorted(es[..i], width)
    {
      NamesStayValid(arr, es, width);
      ghost var before := es;
      ok, es := Insert(keys, vals, width, i, before);
      if !ok {
        if DistinctKeys(arr) { DistinctCarriesOver(arr, before); }
        return;
      }
    }
    ok := true;
    assert es[..|es|] == es;
    forall a, b | 0 <= a < b < |es| ensures Stripped(es[a].name) != Stripped(es[b].name) {
      assert Pack(es[a].name, width) < Pack(es[b].name, width);
      AliasesIff(es[a].name, es[b].name, width);
    }
    DistinctCarriesOver(es, arr);
  }

  /** Every position of both arrays holds its entry. */
  ghost predicate AllHold<V(!new)>(keys: array<nat>, vals: array<V>, es: seq<Entry<V>>, width: nat)
    reads keys, vals
  {
    && keys.Length == vals.Length == |es|
    && (forall k :: 0 <= k < |es| ==> keys[k] == KeyOf(es[k], width))
    && (forall k :: 0 <= k < |es| ==> vals[k] == es[k].value)
  }

  /** Entry i moved down to position j <= i. */
  function Rotated<T>(s: seq<T>, j: nat, i: nat): (r: seq<T>)
    requires j <= i < |s|
    ensures |r| == |s|
    ensures forall k :: 0 <= k < |s| ==> r[k] == if k < j || i < k then s[k] else if k == j then s[i] else s[k - 1]
  {
    s[..j] + [s[i]] + s[j..i] + s[i + 1..]
  }

  lemma RotationReorders<V(!new)>(es: seq<Entry<V>>, j: nat, i: nat)
    requires j <= i < |es|
    ensures multiset(Rotated(es, j, i)) == multiset(es)
  {
    assert es == es[..j] + es[j..i] + [es[i]] + es[i + 1..];
  }

  ghost predicate Increasing<V(!new)>(es: seq<Entry<V>>, width: nat, n: nat)
    requires n <= |es|
  {
    forall a, b :: 0 <= a < b < n ==> KeyOf(es[a], width) < KeyOf(es[b], width)
  }

  lemma RotationIncreases<V(!new)>(es: seq<Entry<V>>, width: nat, j: nat, i: nat)
    requires j <= i < |es| && Increasing(es, width, i)
    requires forall k :: j <= k < i ==> KeyOf(es[i], width) < KeyOf(es[k], width)
    requires j > 0 ==> KeyOf(es[j - 1], width) < KeyOf(es[i], width)
    ensures Increasing(Rotated(es, j, i), width, i + 1)
  {
    var r := Rotated(es, j, i);
    forall a, b | 0 <= a < b <= i ensures KeyOf(r[a], width) < KeyOf(r[b], width) {
      if b == j && a < j - 1 { assert KeyOf(es[a], width) < KeyOf(es[j - 1], width); }
    }
  }

  /** For names that fit, increasing keys are what makes a table sorted. */
  lemma SortedIsIncreasing<V(!new)>(es: seq<Entry<V>>, width: nat, n: nat)
    requires n <= |es| && forall k :: 0 <= k < |es| ==> ValidName(es[k].name, width)
    ensures Sorted(es[..n], width) <==> Increasing(es, width, n)
  {
    var part := es[..n];
    if Sorted(part, width) {
      forall a, b | 0 <= a < b < n ensures KeyOf(es[a], width) < KeyOf(es[b], width) {
        assert part[a] == es[a] && part[b] == es[b];
      }
    }
    if Increasing(es, width, n) {
      forall a, b | 0 <= a < b < n ensures Pack(part[a].name, width) < Pack(part[b].name, width) {
        assert KeyOf(es[a], width) < KeyOf(es[b], width);
      }
    }
  }

  lemma RotationSorts<V(!new)>(es: seq<Entry<V>>, width: nat, j: nat, i: nat)
    requires j <= i < |es| && forall k :: 0 <= k < |es| ==> ValidName(es[k].name, width)
    requires Sorted(es[..i], width)
    requires forall k :: j <= k < i ==> KeyOf(es[i], width) < KeyOf(es[k], width)
    requires j > 0 ==> KeyOf(es[j - 1], width) < KeyOf(es[i], width)
    ensures Sorted(Rotated(es, j, i)[..i + 1], width)
  {
    SortedIsIncreasing(es, width, i);
    RotationIncreases(es, width, j, i);
    SortedIsIncreasing(Rotated(es, j, i), width, i + 1);
  }

  /** Entries j to i - 1 have moved up by one; position j is free, and the rest are in place. */
  ghost predicate MovedUp<V(!new)>(keys: array<nat>, vals: array<V>, es: seq<Entry<V>>, width: nat, j: nat, i: nat)
    requires j <= i < |es|
    reads keys, vals
  {
    && keys.Length == vals.Length == |es|
    && (forall k :: 0 <= k < |es| && k != j ==> keys[k] == KeyOf(es[if j < k <= i then k - 1 else k], width))
    && (forall k :: 0 <= k < |es| && k != j ==> vals[k] == es[if j < k <= i then k - 1 else k].value)
  }

  /** The inner loop: larger keys before i move up, and the place j for entry i is found. */
  method Descend<V(!new)>(keys: array<nat>, vals: array<V>, width: nat, i: nat, ghost es: seq<Entry<V>>)
    returns (ok: bool, j: nat)
    requires keys as object != vals && i < |es| && AllHold(keys, vals, es, width)
    modifies keys, vals
    ensures j <= i && forall k :: j <= k < i ==> KeyOf(es[i], width) < KeyOf(es[k], width)
    ensures if ok then j > 0 ==> KeyOf(es[j - 1], width) < KeyOf(es[i], width)
            else j > 0 && KeyOf(es[j - 1], width) == KeyOf(es[i], width)
    ensures MovedUp(keys, vals, es, width, j, i)
  {
    var key := keys[i];
    j := i;
    ok := true;
    while j > 0
      invariant j <= i
      invariant MovedUp(keys, vals, es, width, j, i)
      invariant forall k :: j <= k < i ==> key < KeyOf(es[k], width)
    {
      var prev := keys[j - 1];
      if key == prev {
        ok := false;
        break;
      }
      if key >= prev { break; }
      MoveUp(keys, vals, width, j, i, es);
      j := j - 1;
    }
  }

  /** The entry before the free position moves into it. */
  method MoveUp<V(!new)>(keys: array<nat>, vals: array<V>, width: nat, j: nat, i: nat, ghost es: seq<Entry<V>>)
    requires keys as object != vals && 0 < j <= i < |es| && MovedUp(keys, vals, es, width, j, i)
    modifies keys, vals
    ensures MovedUp(keys, vals, es, width, j - 1, i)
    ensures keys[j - 1] == old(keys[j - 1])
  {
    keys[j] := keys[j - 1];
    vals[j] := vals[j - 1];
  }

  /** The entry taken out goes into the free position. */
  method Place<V(!new)>(keys: array<nat>, vals: array<V>, width: nat, j: nat, i: nat, key: nat, val: V,
                        ghost es: seq<Entry<V>>)
    requires keys as object != vals && j <= i < |es| && MovedUp(keys, vals, es, width, j, i)
    requires key == KeyOf(es[i], width) && val == es[i].value
    modifies keys, vals
    ensures AllHold(keys, vals, Rotated(es, j, i), width)
  {
    keys[j] := key;
    vals[j] := val;
    var r := Rotated(es, j, i);
    forall k | 0 <= k < |es| ensures keys[k] == KeyOf(r[k], width) && vals[k] == r[k].value {}
  }

  /** One round of the sort. */
  method Insert<V(!new)>(keys: array<nat>, vals: array<V>, width: nat, i: nat, ghost before: seq<Entry<V>>)
    returns (ok: bool, ghost es: seq<Entry<V>>)
    requires keys as object != vals && i < |before| && AllHold(keys, vals, before, width)
    requires forall k :: 0 <= k < |before| ==> ValidName(before[k].name, width)
    requires Sorted(before[..i], width)
    modifies keys, vals
    ensures Reordered(before, es) && (!ok ==> !DistinctKeys(before))
    ensures ok ==> Sorted(es[..i + 1], width) && AllHold(keys, vals, es, width)
  {
    var key, val := keys[i], vals[i];
    var j;
    ok, j := Descend(keys, vals, width, i, before);
    es := Rotated(before, j, i);
    RotationReorders(before, j, i);
    if ok {
      Place(keys, vals, width, j, i, key, val, before);
      RotationSorts(before, width, j, i);
    } else {
      AliasesIff(before[j - 1].name, before[i].name, width);
    }
  }

  class IntLookup<V(!new)> {
    const width: nat
    const keys: array<nat>
    const vals: array<V>
    ghost const entries: seq<Entry<V>>

    ghost predicate Valid()
      reads keys, vals
    {
      entries != [] && Sorted(entries, width) && AllHold(keys, vals, entries, width)
    }

    constructor (width: nat, keys: array<nat>, vals: array<V>, ghost entries: seq<Entry<V>>)
      requires entries != [] && Sorted(entries, width) && AllHold(keys, vals, entries, width)
      ensures Valid() && this.width == width && this.entries == entries
    {
      this.width, this.keys, this.vals, this.entries := width, keys, vals, entries;
    }

    /** Packs all keys; false is the assertion that a key is not empty. */
    static method Fill(arr: seq<Entry<V>>, width: nat) returns (ok: bool, keys: array<nat>, vals: array<V>)
      requires arr != [] && forall e :: e in arr ==> |e.name| <= width
      ensures ok <==> forall e :: e in arr ==> e.name != []
      ensures ok ==> AllHold(keys, vals, arr, width) && fresh(keys) && fresh(vals) && keys as object != vals
    {
      keys := new nat[|arr|];
      vals := new V[|arr|](_ => arr[0].value);
      for i := 0 to |arr|
        invariant forall k :: 0 <= k < i ==> arr[k].name != []
        invariant forall k :: 0 <= k < i ==> keys[k] == KeyOf(arr[k], width)
        invariant forall k :: 0 <= k < i ==> vals[k] == arr[k].value
      {
        assert arr[i] in arr;
        var key := PackLoop(arr[i].name, width);
        if key == None { return false, keys, vals; }
        keys[i] := key.value;
        vals[i] := arr[i].value;
      }
      ok := true;
    }

    /** None stands for the assertion that stops compilation. */
    static method New(arr: seq<Entry<V>>, width: nat) returns (r: Option<IntLookup<V>>)
      ensures r.Some? <==> Buildable(arr, width)
      ensures r.Some? ==> r.value.Valid() && r.value.width == width && multiset(r.value.entries) == multiset(arr)
    {
      if arr == [] { return None; }
      var max := MaxLength(arr);
      if max == 0 || max > width || max < MinRequired(width) {
        assert forall e :: e in arr ==> |e.name| <= max;
        return None;
      }
      var filled, keys, vals := Fill(arr, width);
      if !filled { return None; }
      var ok, es := Sort(keys, vals, width, arr);
      if !ok { return None; }
      var longest :| 0 <= longest < |arr| && |arr[longest].name| == max;
      assert arr[longest] in arr;
      var table := new IntLookup(width, keys, vals, es);
      r := Some(table);
    }

    /**
     * Exact match, else unique prefix, else nothing; also for a query longer than any key. The
     * outer None is the panic of `pack`, which only the empty query meets.
     */
    method Lookup(q: seq<byte>) returns (r: Option<Option<V>>)
      requires Valid()
      ensures r == None <==> q == []
      ensures r.Some? ==> Reply(entries, width, q, r.value)
    {
      if |q| > width { return Some(None); }
      var packed := PackLoop(q, width);
      if packed == None { return None; }
      var target := packed.value;
      var shift := width - |q|;
      AllKeyTests(q);
      MaskTestsPrefix(q, q, width);
      var mask := Power256(width) - Power256(shift);
      var masked := BitAnd(target, mask);
      var low := LowerBoundOf(q, mask, masked);
      DecideAnswers(entries, width, q, low);
      if low < keys.Length && BitAnd(keys[low], mask) == masked {
        if keys[low] == target { return Some(Some(vals[low])); }
        if low + 1 < keys.Length && BitAnd(keys[low + 1], mask) == masked { return Some(None); }
        return Some(Some(vals[low]));
      }
      return Some(None);
    }

    /** The tests on integers are the tests on strings. */
    lemma AllKeyTests(q: seq<byte>)
      requires Valid() && ValidName(q, width)
      ensures KeyTests(Pack(q, width), q, q, width)
      ensures forall k :: 0 <= k < keys.Length ==>
                vals[k] == entries[k].value && KeyTests(keys[k], entries[k].name, q, width)
    {
      PackedKeyTests(q, q, width);
      forall k | 0 <= k < keys.Length
        ensures vals[k] == entries[k].value && KeyTests(keys[k], entries[k].name, q, width)
      {
        PackedKeyTests(entries[k].name, q, width);
      }
    }

    /** The names before n have masked keys below `masked`, and those from m on have not. */
    ghost predicate Bounds(p: nat, masked: nat, n: nat, m: nat)
      requires Valid() && p > 0
      reads keys, vals
    {
      && n <= m <= |entries|
      && (forall i :: 0 <= i < n ==> Masked(Pack(entries[i].name, width), p) < masked)
      && (forall i :: m <= i < |entries| ==> Masked(Pack(entries[i].name, width), p) >= masked)
    }

    lemma BoundsNarrow(p: nat, masked: nat, n: nat, m: nat, mid: nat)
      requires Valid() && p > 0 && Bounds(p, masked, n, m) && n <= mid < m
      ensures if Masked(keys[mid], p) < masked then Bounds(p, masked, mid + 1, m) else Bounds(p, masked, n, mid)
    {
      var key := Pack(entries[mid].name, width);
      if Masked(key, p) < masked {
        forall i | 0 <= i < mid + 1 ensures Masked(Pack(entries[i].name, width), p) < masked {
          MaskIsMonotone(Pack(entries[i].name, width), key, p);
        }
      } else {
        forall i | mid <= i < |entries| ensures Masked(Pack(entries[i].name, width), p) >= masked {
          MaskIsMonotone(key, Pack(entries[i].name, width), p);
        }
      }
    }

    method LowerBoundOf(q: seq<byte>, mask: nat, masked: nat) returns (low: nat)
      requires Valid() && ValidName(q, width) && masked == Pack(q, width)
      requires mask as int == Power256(width) - Power256(width - |q|)
      ensures LowerBound(entries, width, q, low)
    {
      ghost var p := Power256(width - |q|);
      low := 0;
      var high := keys.Length;
      while low < high
        invariant 0 <= low && 0 <= high && Bounds(p, masked, low, high)
      {
        var mid := low + (high - low) / 2;
        PackedKeyTests(entries[mid].name, q, width);
        var below := BitAnd(keys[mid], mask) < masked;
        assert below <==> Masked(keys[mid], p) < masked;
        BoundsNarrow(p, masked, low, high, mid);
        if below {
          low := mid + 1;
        } else {
          high := mid;
        }
      }
    }

    /** The exact search by halving, without a branch on equality. */
    method LookupBinarySearch(target: nat) returns (r: Option<V>)
      requires Valid()
      ensures forall k :: 0 <= k < keys.Length && keys[k] == target ==> r == Some(vals[k])
      ensures (forall k :: 0 <= k < keys.Length ==> keys[k] != target) ==> r == None
    {
      var base, size := 0, keys.Length;
      while size > 1
        invariant size >= 1 && base + size <= keys.Length
        invariant forall k :: 0 <= k < keys.Length && keys[k] == target ==> base <= k < base + size
        decreases size
      {
        var half := size / 2;
        var mid := base + half;
        forall k | 0 <= k < keys.Length && k != mid ensures keys[k] < keys[mid] <==> k < mid {
          assert keys[k] == Pack(entries[k].name, width) && keys[mid] == Pack(entries[mid].name, width);
        }
        base := if keys[mid] <= target then mid else base;
        size := size - half;
      }
      r := if keys[base] == target then Some(vals[base]) else None;
    }

    /** The idx-th name in lexicographic order, read back from its packed key without trailing NULs. */
    method Get(idx: nat) returns (r: Option<(seq<byte>, V)>)
      requires Valid()
      ensures r == if idx < |entries| then Some((Stripped(entries[idx].name), entries[idx].value)) else None
    {
      if idx >= keys.Length { return None; }
      ghost var name := Stripped(entries[idx].name);
      StrippedPacksAlike(entries[idx].name, width);
      StrippedIsClean(entries[idx].name);
      if name != [] { LengthRecovered(name, width); }
      UnpackInverts(name);
      var packed := keys[idx];
      var len := PackedLen(packed, width);
      var data := Unpack(packed / Power256(width - len), len);
      r := Some((data, vals[idx]));
    }
  }

  /**
   * Of the integer types, a table can be built over the one that the macro infers and no other; and
   * with that one only empty names and names with one key are refused.
   */
  lemma InferredWidthFits<V(!new)>(arr: seq<Entry<V>>, longest: Entry<V>, width: nat)
    requires longest in arr && forall e :: e in arr ==> |e.name| <= |longest.name|
    requires width in {4, 8, 16}
    ensures Buildable(arr, width) <==>
            && Some(width) == WidthFor(|longest.name|)
            && DistinctKeys(arr) && forall e :: e in arr ==> e.name != []
  {
  }
}
