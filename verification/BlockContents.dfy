// What Rust may rely on between its calls: computed from the calls alone, without looking at the heap
// or at what the allocator records, and true of the heap in every run.

module BlockContents {
  import opened Bytes
  import opened BashAlloc

  /** A block as its owner knows it: the layout it asked for, and the bytes it has stored. */
  datatype Held = Held(raw: nat, size: nat, align: nat, bytes: map<nat, byte>)

  /** Raw addresses that agree modulo the alignment. */
  predicate Agree(a: nat, b: nat, align: nat) {
    align > 0 && a % align == b % align
  }

  /** Bytes that survive a resize to another raw address. */
  function Carried(b: Held, newSize: nat, at: nat): map<nat, byte> {
    if Agree(at, b.raw, b.align) then map i | i in b.bytes && i < newSize :: b.bytes[i] else map[]
  }

  ghost function Allocated(h: map<nat, Held>, size: nat, align: nat, at: nat): map<nat, Held> {
    if align == 0 then h else h[UserPtr(at, align) := Held(at, size, align, map[])]
  }

  ghost function Resized(h: map<nat, Held>, ptr: nat, newSize: nat, at: nat): map<nat, Held> {
    if ptr !in h || h[ptr].align == 0 then h
    else
      var b := h[ptr];
      (h - {ptr})[UserPtr(at, b.align) := Held(at, newSize, b.align, Carried(b, newSize, at))]
  }

  function Stored(h: map<nat, Held>, ptr: nat, i: nat, v: byte): map<nat, Held> {
    if ptr !in h then h else h[ptr := h[ptr].(bytes := h[ptr].bytes[i := v])]
  }

  ghost function KnownByCall(h: map<nat, Held>, c: Call): map<nat, Held> {
    match c
    case Alloc(size, align, at, _) => Allocated(h, size, align, at)
    case Realloc(ptr, newSize, at, _) => Resized(h, ptr, newSize, at)
    case Dealloc(ptr) => h - {ptr}
    case Write(ptr, i, v) => Stored(h, ptr, i, v)
  }

  /** What Rust knows after one more event; bash's own calls change nothing of it. */
  ghost function Known(h: map<nat, Held>, e: Event): map<nat, Held> {
    if e.Rust? then KnownByCall(h, e.call) else h
  }

  ghost function KnownAfter(events: seq<Event>): map<nat, Held> {
    if events == [] then map[]
    else Known(KnownAfter(events[..|events| - 1]), events[|events| - 1])
  }

  // ----- It is true of the heap -----

  ghost predicate BytesTrue(bytes: map<nat, byte>, size: nat, ptr: nat, mem: map<nat, byte>) {
    forall i :: i in bytes ==> i < size && ByteTrue(mem, ptr, i, bytes[i])
  }

  ghost predicate ByteTrue(mem: map<nat, byte>, ptr: nat, i: nat, v: byte) {
    ptr + i in mem && mem[ptr + i] == v
  }

  ghost predicate HeldTrue(b: Held, block: Block, ptr: nat, mem: map<nat, byte>) {
    && b.raw == block.raw && b.size == block.size && b.align == block.align
    && BytesTrue(b.bytes, b.size, ptr, mem)
  }

  ghost predicate KnownTrue(h: map<nat, Held>, live: map<nat, Block>, mem: map<nat, byte>) {
    h.Keys == live.Keys && forall p :: p in h ==> HeldTrue(h[p], live[p], p, mem)
  }

  /** Rust's bytes stay when every byte of its block does. */
  lemma BytesStayTrue(s: State, foreign: set<nat>, p: nat, b: Held, after: map<nat, byte>)
    requires Inv(s, foreign) && p in s.live && HeldTrue(b, s.live[p], p, s.heap.mem)
    requires forall a :: s.live[p].raw <= a < s.live[p].raw + s.heap.raws[s.live[p].raw] && a in s.heap.mem ==>
                           a in after && after[a] == s.heap.mem[a]
    ensures HeldTrue(b, s.live[p], p, after)
  {
    forall i | i in b.bytes ensures ByteTrue(after, p, i, b.bytes[i]) {
      assert ByteTrue(s.heap.mem, p, i, b.bytes[i]);
      UserBytesApart(s, foreign, p, p, i);
    }
  }

  /** Alloc and realloc leave the bytes of every other block of Rust. */
  lemma PlacingLeavesOthers(s: State, foreign: set<nat>, gone: set<nat>, p: Option<nat>, size: nat, align: nat,
                            at: nat, fill: map<nat, byte>, q: nat, b: Held)
    requires Inv(s, foreign) && align > 0 && MayReturn(s.heap, p, size + align, at) && Replaces(s, gone, p)
    requires q in s.live && q !in gone && HeldTrue(b, s.live[q], q, s.heap.mem)
    ensures HeldTrue(b, s.live[q], q, HeapAfter(s.heap, p, size, align, at, fill).mem)
  {
    OthersKeepRaw(s, foreign, gone, p);
    var r, after := s.live[q].raw, HeapAfter(s.heap, p, size, align, at, fill).mem;
    assert BlockOk(s.heap, q, s.live[q]);
    forall a | r <= a < r + s.heap.raws[r] && a in s.heap.mem ensures a in after && after[a] == s.heap.mem[a] {
      BytesStay(s.heap, p, size, align, at, fill, r, a);
    }
    BytesStayTrue(s, foreign, q, b, after);
  }

  ghost predicate OthersTrue(h: map<nat, Held>, live: map<nat, Block>, gone: set<nat>, mem: map<nat, byte>) {
    forall q :: q in live && q !in gone ==> q in h && HeldTrue(h[q], live[q], q, mem)
  }

  lemma PlacingLeavesAll(h: map<nat, Held>, s: State, foreign: set<nat>, gone: set<nat>, p: Option<nat>, size: nat,
                         align: nat, at: nat, fill: map<nat, byte>)
    requires align > 0 && MayReturn(s.heap, p, size + align, at)
    requires Inv(s, foreign) && Replaces(s, gone, p) && KnownTrue(h, s.live, s.heap.mem)
    ensures OthersTrue(h, s.live, gone, HeapAfter(s.heap, p, size, align, at, fill).mem)
  {
    var mem := HeapAfter(s.heap, p, size, align, at, fill).mem;
    forall q | q in s.live && q !in gone ensures HeldTrue(h[q], s.live[q], q, mem) {
      PlacingLeavesOthers(s, foreign, gone, p, size, align, at, fill, q, h[q]);
    }
  }

  lemma AddedTrue(h: map<nat, Held>, live: map<nat, Block>, gone: set<nat>, ptr: nat, b: Held, block: Block,
                  mem: map<nat, byte>)
    requires h.Keys == live.Keys && OthersTrue(h, live, gone, mem) && HeldTrue(b, block, ptr, mem)
    ensures KnownTrue((h - gone)[ptr := b], (live - gone)[ptr := block], mem)
  {
  }

  lemma AllocDoes(s: State, c: Call, t: State)
    requires Allowed(s, c) && c.Alloc? && t == Do(s, c)
    ensures t.live == (s.live - {})[UserPtr(c.at, c.align) := Block(c.at, c.size, c.align)]
    ensures t.heap == HeapAfter(s.heap, None, c.size, c.align, c.at, c.fill)
  {
    assert s.live - {} == s.live;
  }

  lemma AllocIsKnown(h: map<nat, Held>, c: Call)
    requires c.Alloc? && c.align > 0
    ensures KnownByCall(h, c) == (h - {})[UserPtr(c.at, c.align) := Held(c.at, c.size, c.align, map[])]
  {
    assert h - {} == h;
  }

  lemma AllocKeepsTrue(h: map<nat, Held>, s: State, foreign: set<nat>, c: Call,
                     t: State, known: map<nat, Held>)
    requires Inv(s, foreign) && KnownTrue(h, s.live, s.heap.mem) && Allowed(s, c) && c.Alloc? && t == Do(s, c)
    requires known == KnownByCall(h, c)
    ensures KnownTrue(known, t.live, t.heap.mem)
  {
    AllocDoes(s, c, t);
    AllocIsKnown(h, c);
    PlacingLeavesAll(h, s, foreign, {}, None, c.size, c.align, c.at, c.fill);
    AddedTrue(h, s.live, {}, UserPtr(c.at, c.align), Held(c.at, c.size, c.align, map[]),
              Block(c.at, c.size, c.align), t.heap.mem);
  }

  /** The bytes that survive are those at the same place in the moved block. */
  lemma CarriedTrue(b: Held, s: State, foreign: set<nat>, c: Call, after: map<nat, byte>)
    requires Inv(s, foreign) && Allowed(s, c) && c.Realloc? && HeldTrue(b, s.live[c.ptr], c.ptr, s.heap.mem)
    requires s.live[c.ptr].raw in s.heap.raws && s.live[c.ptr].align > 0
    requires after == HeapAfter(s.heap, Some(s.live[c.ptr].raw), c.newSize, s.live[c.ptr].align, c.at, c.fill).mem
    ensures BytesTrue(Carried(b, c.newSize, c.at), c.newSize, UserPtr(c.at, s.live[c.ptr].align), after)
  {
    var block := s.live[c.ptr];
    if Agree(c.at, b.raw, b.align) {
      assert BlockOk(s.heap, c.ptr, block);
      AgreeingMoveKeepsData(s.heap, c.ptr, block, c.newSize, c.at, c.fill);
      MovedBytesTrue(b, c.newSize, c.at, c.ptr, UserPtr(c.at, block.align), s.heap.mem, after);
    }
  }

  lemma MovedBytesTrue(b: Held, newSize: nat, at: nat, ptr: nat, moved: nat,
                       before: map<nat, byte>, after: map<nat, byte>)
    requires BytesTrue(b.bytes, b.size, ptr, before)
    requires AllMoved(before, after, ptr, moved, Common(b.size, newSize))
    ensures BytesTrue(Carried(b, newSize, at), newSize, moved, after)
  {
    forall i | i in Carried(b, newSize, at) ensures ByteTrue(after, moved, i, b.bytes[i]) {
      assert ByteTrue(before, ptr, i, b.bytes[i]);
      assert MovedFrom(before, after, ptr, moved, i);
    }
  }

  lemma ReallocKeepsTrue(h: map<nat, Held>, s: State, foreign: set<nat>, c: Call,
                     t: State, known: map<nat, Held>)
    requires Inv(s, foreign) && KnownTrue(h, s.live, s.heap.mem) && Allowed(s, c) && c.Realloc? && t == Do(s, c)
    requires known == KnownByCall(h, c)
    ensures KnownTrue(known, t.live, t.heap.mem)
  {
    var block := s.live[c.ptr];
    ReallocMoves(s, foreign, c);
    CarriedTrue(h[c.ptr], s, foreign, c, t.heap.mem);
    var b := Held(c.at, c.newSize, block.align, Carried(h[c.ptr], c.newSize, c.at));
    PlacingLeavesAll(h, s, foreign, {c.ptr}, Some(block.raw), c.newSize, block.align, c.at, c.fill);
    AddedTrue(h, s.live, {c.ptr}, UserPtr(c.at, block.align), b, Block(c.at, c.newSize, block.align), t.heap.mem);
  }

  lemma DroppedTrue(h: map<nat, Held>, live: map<nat, Block>, ptr: nat, mem: map<nat, byte>)
    requires KnownTrue(h, live, mem)
    ensures KnownTrue(h - {ptr}, live - {ptr}, mem)
  {
  }

  lemma DeallocKeepsTrue(h: map<nat, Held>, s: State, foreign: set<nat>, c: Call,
                     t: State, known: map<nat, Held>)
    requires Inv(s, foreign) && KnownTrue(h, s.live, s.heap.mem) && Allowed(s, c) && c.Dealloc? && t == Do(s, c)
    requires known == KnownByCall(h, c)
    ensures KnownTrue(known, t.live, t.heap.mem)
  {
    DeallocFrees(s, foreign, c);
    DroppedTrue(h, s.live, c.ptr, s.heap.mem);
  }

  /** Byte i of the block at ptr is in no other block. */
  ghost predicate OneOwner(live: map<nat, Block>, ptr: nat, i: nat) {
    forall q :: q in live && q != ptr ==> !(q <= ptr + i < q + live[q].size)
  }

  lemma UserByteHasOneOwner(s: State, foreign: set<nat>, ptr: nat, i: nat)
    requires Inv(s, foreign) && ptr in s.live && i < s.live[ptr].size
    ensures OneOwner(s.live, ptr, i)
  {
    forall q | q in s.live && q != ptr ensures !(q <= ptr + i < q + s.live[q].size) {
      UserBytesApart(s, foreign, ptr, q, i);
    }
  }

  lemma WriteLeavesOthers(b: Held, block: Block, q: nat, a: nat, v: byte, mem: map<nat, byte>)
    requires HeldTrue(b, block, q, mem) && !(q <= a < q + block.size)
    ensures HeldTrue(b, block, q, mem[a := v])
  {
    forall k | k in b.bytes ensures ByteTrue(mem[a := v], q, k, b.bytes[k]) {
      assert ByteTrue(mem, q, k, b.bytes[k]);
    }
  }

  lemma OwnWriteTrue(b: Held, block: Block, ptr: nat, i: nat, v: byte, mem: map<nat, byte>)
    requires HeldTrue(b, block, ptr, mem) && i < b.size
    ensures HeldTrue(b.(bytes := b.bytes[i := v]), block, ptr, mem[ptr + i := v])
  {
    var bytes := b.bytes[i := v];
    forall k | k in bytes ensures ByteTrue(mem[ptr + i := v], ptr, k, bytes[k]) {
      assert k != i ==> ByteTrue(mem, ptr, k, b.bytes[k]);
    }
  }

  lemma WriteKeepsTrue(h: map<nat, Held>, s: State, c: Call, t: State, known: map<nat, Held>)
    requires Allowed(s, c) && c.Write? && t == Do(s, c) && known == KnownByCall(h, c)
    requires KnownTrue(h, s.live, s.heap.mem) && OneOwner(s.live, c.ptr, c.index)
    ensures KnownTrue(known, t.live, t.heap.mem)
  {
    OwnWriteTrue(h[c.ptr], s.live[c.ptr], c.ptr, c.index, c.value, s.heap.mem);
    forall q | q in h && q != c.ptr ensures HeldTrue(known[q], t.live[q], q, t.heap.mem) {
      WriteLeavesOthers(h[q], s.live[q], q, c.ptr + c.index, c.value, s.heap.mem);
    }
  }

  /** bash moves, frees and overwrites its own blocks only. */
  lemma BashLeavesRust(h: map<nat, Held>, s: System, t: System, e: Event)
    requires Inv(s.rust, s.bash) && KnownTrue(h, s.rust.live, s.rust.heap.mem) && Next(s, t, e) && !e.Rust?
    ensures KnownTrue(h, t.rust.live, t.rust.heap.mem)
  {
    forall p | p in h ensures HeldTrue(h[p], t.rust.live[p], p, t.rust.heap.mem) {
      var r := s.rust.live[p].raw;
      assert BlockOk(s.rust.heap, p, s.rust.live[p]) && r !in s.bash;
      forall a | r <= a < r + s.rust.heap.raws[r] && a in s.rust.heap.mem
        ensures a in t.rust.heap.mem && t.rust.heap.mem[a] == s.rust.heap.mem[a]
      {
        BashByteApart(s, t, e, r, a);
      }
      BytesStayTrue(s.rust, s.bash, p, h[p], t.rust.heap.mem);
    }
  }

  lemma BashByteApart(s: System, t: System, e: Event, r: nat, a: nat)
    requires Inv(s.rust, s.bash) && Next(s, t, e) && !e.Rust?
    requires r in s.rust.heap.raws && r !in s.bash && r <= a < r + s.rust.heap.raws[r] && a in s.rust.heap.mem
    ensures a in t.rust.heap.mem && t.rust.heap.mem[a] == s.rust.heap.mem[a]
  {
    var heap := s.rust.heap;
    match e
    case BashRealloc(p, size, at, fill) => assert !Meets(at, size, r, heap.raws[r]);
    case BashWrite(raw, i, _) => assert !Meets(raw, heap.raws[raw], r, heap.raws[r]);
    case BashFree(_) =>
  }

  lemma CallKeepsTrue(h: map<nat, Held>, s: State, foreign: set<nat>, c: Call,
                     t: State, known: map<nat, Held>)
    requires Inv(s, foreign) && KnownTrue(h, s.live, s.heap.mem) && Allowed(s, c) && t == Do(s, c)
    requires known == KnownByCall(h, c)
    ensures KnownTrue(known, t.live, t.heap.mem)
  {
    match c
    case Alloc(_, _, _, _) => AllocKeepsTrue(h, s, foreign, c, t, known);
    case Realloc(_, _, _, _) => ReallocKeepsTrue(h, s, foreign, c, t, known);
    case Dealloc(_) => DeallocKeepsTrue(h, s, foreign, c, t, known);
    case Write(ptr, i, _) =>
      UserByteHasOneOwner(s, foreign, ptr, i);
      WriteKeepsTrue(h, s, c, t, known);
  }

  lemma EventKeepsTrue(h: map<nat, Held>, s: System, t: System, e: Event)
    requires Inv(s.rust, s.bash) && KnownTrue(h, s.rust.live, s.rust.heap.mem) && Next(s, t, e)
    ensures KnownTrue(Known(h, e), t.rust.live, t.rust.heap.mem)
  {
    if e.Rust? { CallKeepsTrue(h, s.rust, s.bash, e.call, t.rust, Known(h, e)); } else { BashLeavesRust(h, s, t, e); }
  }

  lemma {:induction false} RunKeepsTrue(trace: seq<System>, events: seq<Event>, n: nat)
    requires Run(trace, events) && n < |trace|
    ensures KnownTrue(KnownAfter(events[..n]), trace[n].rust.live, trace[n].rust.heap.mem)
  {
    if n > 0 {
      RunKeepsTrue(trace, events, n - 1);
      RunKeepsInv(trace, events, n - 1);
      assert Follows(trace, events, n - 1);
      EventKeepsTrue(KnownAfter(events[..n - 1]), trace[n - 1], trace[n], events[n - 1]);
      assert events[..n][..n - 1] == events[..n - 1];
    }
  }

  /**
   * In every run: Rust holds exactly the pointers that it was given and has not given back, and behind
   * each there is room for as many bytes as the last alloc or realloc that returned it asked for, at
   * the alignment that was asked for.
   */
  lemma RoomAsAsked(trace: seq<System>, events: seq<Event>, n: nat, p: nat)
    requires Run(trace, events) && n < |trace|
    ensures var (known, s) := (KnownAfter(events[..n]), trace[n].rust);
            && (p in known <==> p in s.live)
            && (p in known ==>
                  && known[p].align > 0 && p % known[p].align == 0
                  && known[p].raw in s.heap.raws && known[p].raw < p
                  && p + known[p].size <= known[p].raw + s.heap.raws[known[p].raw])
  {
    RunKeepsTrue(trace, events, n);
    if p in trace[n].rust.live {
      assert HeldTrue(KnownAfter(events[..n])[p], trace[n].rust.live[p], p, trace[n].rust.heap.mem);
      RunSafe(trace, events, n, p, p);
    }
  }

  /**
   * And whatever Rust stored there is still there, whatever Rust and bash have done since: through
   * every call but its own writes, and through reallocs between agreeing raw addresses.
   */
  lemma ContentsKept(trace: seq<System>, events: seq<Event>, n: nat, p: nat, i: nat)
    requires Run(trace, events) && n < |trace|
    ensures var (known, mem) := (KnownAfter(events[..n]), trace[n].rust.heap.mem);
            p in known && i in known[p].bytes ==> p + i in mem && mem[p + i] == known[p].bytes[i]
  {
    RunKeepsTrue(trace, events, n);
    var known, s := KnownAfter(events[..n]), trace[n].rust;
    if p in known && i in known[p].bytes {
      assert HeldTrue(known[p], s.live[p], p, s.heap.mem);
      assert ByteTrue(s.heap.mem, p, i, known[p].bytes[i]);
    }
  }

  // ----- bash's own blocks, with Rust on the same heap -----

  datatype Own = Own(size: nat, bytes: map<nat, byte>)

  /** Bytes that survive a resize by bash. */
  function Cut(h: map<nat, Own>, p: Option<nat>, size: nat): map<nat, byte> {
    if p.Some? && p.value in h then map i | i in h[p.value].bytes && i < size :: h[p.value].bytes[i] else map[]
  }

  /** What bash knows after one more event; Rust's calls change nothing of it. */
  function OwnAfter(h: map<nat, Own>, e: Event): map<nat, Own> {
    match e
    case Rust(_) => h
    case BashRealloc(p, size, at, _) => (h - OldRaw(p))[at := Own(size, Cut(h, p, size))]
    case BashFree(raw) => h - {raw}
    case BashWrite(raw, i, v) => if raw in h then h[raw := h[raw].(bytes := h[raw].bytes[i := v])] else h
  }

  function OwnAfterAll(h: map<nat, Own>, events: seq<Event>): map<nat, Own> {
    if events == [] then h else OwnAfter(OwnAfterAll(h, events[..|events| - 1]), events[|events| - 1])
  }

  ghost predicate OwnTrue(b: Own, raw: nat, heap: Heap) {
    raw in heap.raws && heap.raws[raw] == b.size && BytesTrue(b.bytes, b.size, raw, heap.mem)
  }

  ghost predicate OwnsTrue(h: map<nat, Own>, bash: set<nat>, heap: Heap) {
    h.Keys == bash && forall raw :: raw in h ==> OwnTrue(h[raw], raw, heap)
  }

  lemma ReallocKeepsSizes(s: State, foreign: set<nat>, c: Call, raw: nat, raws: map<nat, nat>)
    requires Inv(s, foreign) && Allowed(s, c) && c.Realloc? && raw in foreign && raws == Do(s, c).heap.raws
    ensures raw in raws && raws[raw] == s.heap.raws[raw]
  {
    ReallocMoves(s, foreign, c);
    assert s.live[c.ptr].raw !in foreign;
  }

  lemma DeallocKeepsSizes(s: State, foreign: set<nat>, c: Call, raw: nat, raws: map<nat, nat>)
    requires Inv(s, foreign) && Allowed(s, c) && c.Dealloc? && raw in foreign && raws == Do(s, c).heap.raws
    ensures raw in raws && raws[raw] == s.heap.raws[raw]
  {
    DeallocFrees(s, foreign, c);
    assert s.live[c.ptr].raw !in foreign;
  }

  lemma RustKeepsSizes(s: State, foreign: set<nat>, c: Call, raw: nat, raws: map<nat, nat>)
    requires Inv(s, foreign) && Allowed(s, c) && raw in foreign && raws == Do(s, c).heap.raws
    ensures raw in raws && raws[raw] == s.heap.raws[raw]
  {
    match c
    case Alloc(_, _, _, _) =>
    case Realloc(_, _, _, _) => ReallocKeepsSizes(s, foreign, c, raw, raws);
    case Dealloc(_) => DeallocKeepsSizes(s, foreign, c, raw, raws);
    case Write(_, _, _) =>
  }

  lemma RustKeepsBytes(s: State, foreign: set<nat>, c: Call, raw: nat, mem: map<nat, byte>)
    requires Inv(s, foreign) && Allowed(s, c) && raw in foreign && raw in s.heap.raws && mem == Do(s, c).heap.mem
    ensures forall a :: raw <= a < raw + s.heap.raws[raw] && a in s.heap.mem ==> a in mem && mem[a] == s.heap.mem[a]
  {
    forall a | raw <= a < raw + s.heap.raws[raw] && a in s.heap.mem ensures a in mem && mem[a] == s.heap.mem[a] {
      RustLeavesBashAlone(s, foreign, c, raw, a);
    }
  }

  lemma SameBytesTrue(bytes: map<nat, byte>, size: nat, raw: nat, before: map<nat, byte>, after: map<nat, byte>)
    requires BytesTrue(bytes, size, raw, before)
    requires forall a :: raw <= a < raw + size && a in before ==> a in after && after[a] == before[a]
    ensures BytesTrue(bytes, size, raw, after)
  {
    forall i | i in bytes ensures ByteTrue(after, raw, i, bytes[i]) { assert ByteTrue(before, raw, i, bytes[i]); }
  }

  lemma RustKeepsOwn(b: Own, s: State, foreign: set<nat>, c: Call, raw: nat, heap: Heap)
    requires Inv(s, foreign) && Allowed(s, c) && raw in foreign && OwnTrue(b, raw, s.heap) && heap == Do(s, c).heap
    ensures OwnTrue(b, raw, heap)
  {
    RustKeepsSizes(s, foreign, c, raw, heap.raws);
    RustKeepsBytes(s, foreign, c, raw, heap.mem);
    SameBytesTrue(b.bytes, b.size, raw, s.heap.mem, heap.mem);
  }

  /** A block of bash keeps its bytes when bash resizes another one. */
  lemma ReallocKeepsOwn(b: Own, h: Heap, p: Option<nat>, size: nat, at: nat, fill: map<nat, byte>, raw: nat)
    requires MayReturn(h, p, size, at) && OwnTrue(b, raw, h) && Some(raw) != p
    ensures raw != at && OwnTrue(b, raw, XRealloc(h, p, size, at, fill))
  {
    assert !Meets(at, size, raw, h.raws[raw]);
    forall i | i in b.bytes ensures ByteTrue(XRealloc(h, p, size, at, fill).mem, raw, i, b.bytes[i]) {
      assert ByteTrue(h.mem, raw, i, b.bytes[i]);
    }
  }

  lemma ReallocCuts(own: map<nat, Own>, h: Heap, p: Option<nat>, size: nat, at: nat, fill: map<nat, byte>)
    requires MayReturn(h, p, size, at) && (p.Some? ==> p.value in own && OwnTrue(own[p.value], p.value, h))
    ensures OwnTrue(Own(size, Cut(own, p, size)), at, XRealloc(h, p, size, at, fill))
  {
    var bytes := Cut(own, p, size);
    forall i | i in bytes ensures ByteTrue(XRealloc(h, p, size, at, fill).mem, at, i, bytes[i]) {
      assert ByteTrue(h.mem, p.value, i, own[p.value].bytes[i]);
    }
  }

  lemma WriteKeepsOwn(b: Own, h: Heap, raw: nat, i: nat, v: byte, other: nat)
    requires RawsApart(h.raws) && raw in h.raws && i < h.raws[raw] && OwnTrue(b, other, h) && other != raw
    ensures OwnTrue(b, other, h.(mem := h.mem[raw + i := v]))
  {
    assert !Meets(raw, h.raws[raw], other, h.raws[other]);
    forall k | k in b.bytes ensures ByteTrue(h.mem[raw + i := v], other, k, b.bytes[k]) {
      assert ByteTrue(h.mem, other, k, b.bytes[k]);
    }
  }

  lemma WriteOwn(b: Own, h: Heap, raw: nat, i: nat, v: byte)
    requires OwnTrue(b, raw, h) && i < b.size
    ensures OwnTrue(b.(bytes := b.bytes[i := v]), raw, h.(mem := h.mem[raw + i := v]))
  {
    var bytes := b.bytes[i := v];
    forall k | k in bytes ensures ByteTrue(h.mem[raw + i := v], raw, k, bytes[k]) {
      assert k != i ==> ByteTrue(h.mem, raw, k, b.bytes[k]);
    }
  }

  lemma RustKeepsAllOwn(own: map<nat, Own>, s: System, t: System, c: Call)
    requires Inv(s.rust, s.bash) && OwnsTrue(own, s.bash, s.rust.heap) && Next(s, t, Rust(c))
    ensures OwnsTrue(own, t.bash, t.rust.heap)
  {
    forall raw | raw in own ensures OwnTrue(own[raw], raw, t.rust.heap) {
      RustKeepsOwn(own[raw], s.rust, s.bash, c, raw, t.rust.heap);
    }
  }

  lemma ReallocKeepsAllOwn(own: map<nat, Own>, bash: set<nat>, h: Heap, p: Option<nat>, size: nat, at: nat,
                           fill: map<nat, byte>)
    requires OwnsTrue(own, bash, h) && MayReturn(h, p, size, at) && (p.Some? ==> p.value in bash)
    ensures OwnsTrue((own - OldRaw(p))[at := Own(size, Cut(own, p, size))], bash - OldRaw(p) + {at},
                     XRealloc(h, p, size, at, fill))
  {
    ReallocCuts(own, h, p, size, at, fill);
    forall raw | raw in own && Some(raw) != p ensures OwnTrue(own[raw], raw, XRealloc(h, p, size, at, fill)) {
      ReallocKeepsOwn(own[raw], h, p, size, at, fill, raw);
    }
  }

  lemma WriteKeepsAllOwn(own: map<nat, Own>, bash: set<nat>, h: Heap, raw: nat, i: nat, v: byte)
    requires RawsApart(h.raws) && OwnsTrue(own, bash, h) && raw in bash && i < h.raws[raw]
    ensures OwnsTrue(own[raw := own[raw].(bytes := own[raw].bytes[i := v])], bash, h.(mem := h.mem[raw + i := v]))
  {
    WriteOwn(own[raw], h, raw, i, v);
    forall other | other in own && other != raw ensures OwnTrue(own[other], other, h.(mem := h.mem[raw + i := v])) {
      WriteKeepsOwn(own[other], h, raw, i, v, other);
    }
  }

  lemma BashReallocKeeps(own: map<nat, Own>, s: System, t: System, e: Event, after: map<nat, Own>)
    requires OwnsTrue(own, s.bash, s.rust.heap) && Next(s, t, e) && e.BashRealloc? && after == OwnAfter(own, e)
    ensures OwnsTrue(after, t.bash, t.rust.heap)
  {
    ReallocKeepsAllOwn(own, s.bash, s.rust.heap, e.p, e.size, e.at, e.fill);
  }

  lemma BashFreeKeeps(own: map<nat, Own>, s: System, t: System, e: Event, after: map<nat, Own>)
    requires OwnsTrue(own, s.bash, s.rust.heap) && Next(s, t, e) && e.BashFree? && after == OwnAfter(own, e)
    ensures OwnsTrue(after, t.bash, t.rust.heap)
  {
  }

  lemma BashWriteKeeps(own: map<nat, Own>, s: System, t: System, e: Event, after: map<nat, Own>)
    requires RawsApart(s.rust.heap.raws) && OwnsTrue(own, s.bash, s.rust.heap)
    requires Next(s, t, e) && e.BashWrite? && after == OwnAfter(own, e)
    ensures OwnsTrue(after, t.bash, t.rust.heap)
  {
    WriteKeepsAllOwn(own, s.bash, s.rust.heap, e.raw, e.index, e.value);
  }

  lemma BashKeepsAllOwn(own: map<nat, Own>, s: System, t: System, e: Event, after: map<nat, Own>)
    requires RawsApart(s.rust.heap.raws) && OwnsTrue(own, s.bash, s.rust.heap)
    requires Next(s, t, e) && !e.Rust? && after == OwnAfter(own, e)
    ensures OwnsTrue(after, t.bash, t.rust.heap)
  {
    match e
    case BashRealloc(_, _, _, _) => BashReallocKeeps(own, s, t, e, after);
    case BashFree(_) => BashFreeKeeps(own, s, t, e, after);
    case BashWrite(_, _, _) => BashWriteKeeps(own, s, t, e, after);
  }

  /** What bash holds when the run begins, with contents that nobody has looked at. */
  function InitiallyOwned(raws: map<nat, nat>): map<nat, Own> {
    map raw | raw in raws :: Own(raws[raw], map[])
  }

  /**
   * The same for bash: in every run it holds exactly the blocks that it was given or began with and
   * has not freed, each of the size that it last asked for, and every byte that it stored is still
   * there, whatever Rust has allocated, moved, written and freed in between.
   */
  lemma {:induction false} BashContentsKept(trace: seq<System>, events: seq<Event>, n: nat)
    requires Run(trace, events) && n < |trace|
    ensures var own := OwnAfterAll(InitiallyOwned(trace[0].rust.heap.raws), events[..n]);
            OwnsTrue(own, trace[n].bash, trace[n].rust.heap)
  {
    if n > 0 {
      BashContentsKept(trace, events, n - 1);
      RunKeepsInv(trace, events, n - 1);
      assert Follows(trace, events, n - 1);
      var own := OwnAfterAll(InitiallyOwned(trace[0].rust.heap.raws), events[..n - 1]);
      var e := events[n - 1];
      assert events[..n][..n - 1] == events[..n - 1];
      if e.Rust? {
        RustKeepsAllOwn(own, trace[n - 1], trace[n], e.call);
      } else {
        BashKeepsAllOwn(own, trace[n - 1], trace[n], e, OwnAfter(own, e));
      }
    }
  }
}
