// The aligning allocator of l_builtin/src/bash_alloc.rs, over an underlying allocator that is free
// to choose addresses, on the heap that bash itself uses. Addresses are unbounded: arithmetic on them
// is assumed not to wrap.

module BashAlloc {
  import opened Arithmetic
  import opened Bytes
  import opened Bits

  /** Memory, and the blocks that the underlying allocator has handed out, with their sizes. */
  datatype Heap = Heap(mem: map<nat, byte>, raws: map<nat, nat>)

  // ----- The underlying allocator -----

  predicate Meets(a: nat, size: nat, b: nat, other: nat) {
    a < b + other && b < a + size
  }

  /** `at` is an address that xrealloc(p, size) may return. */
  ghost predicate MayReturn(h: Heap, p: Option<nat>, size: nat, at: nat) {
    && at > 0 && (at in h.raws ==> p == Some(at))
    && (p.Some? ==> p.value in h.raws)
    && forall r :: r in h.raws && Some(r) != p ==> !Meets(at, size, r, h.raws[r])
  }

  /** Bytes of the old block that the new one keeps. */
  function Kept(h: Heap, p: Option<nat>): nat
    requires p.Some? ==> p.value in h.raws
  {
    if p.Some? then h.raws[p.value] else 0
  }

  /** The rest of the new block holds whatever `fill` says. */
  function NewBlock(h: Heap, p: Option<nat>, size: nat, at: nat, fill: map<nat, byte>): map<nat, byte>
    requires p.Some? ==> p.value in h.raws
  {
    map a: nat | at <= a < at + size ::
      if a - at < Kept(h, p) && p.value + (a - at) in h.mem then h.mem[p.value + (a - at)]
      else if a in fill then fill[a]
      else 0
  }

  function XRealloc(h: Heap, p: Option<nat>, size: nat, at: nat, fill: map<nat, byte>): Heap
    requires p.Some? ==> p.value in h.raws
  {
    Heap(h.mem + NewBlock(h, p, size, at, fill), Rebooked(h.raws, p, size, at))
  }

  function Rebooked(raws: map<nat, nat>, p: Option<nat>, size: nat, at: nat): map<nat, nat> {
    (raws - OldRaw(p))[at := size]
  }

  function OldRaw(p: Option<nat>): set<nat> {
    if p.Some? then {p.value} else {}
  }

  // ----- Aligning -----

  /** `(addr + align - 1) & !(align - 1)`, for a power of two. */
  function RoundedUp(addr: nat, align: nat): (r: nat)
    requires align > 0
    ensures addr <= r < addr + align && r % align == 0
  {
    var top := addr + align - 1;
    RoundsDown(top, align);
    top - top % align
  }

  /** The address arithmetic of 64-bit words finds the pointer. */
  lemma MaskFindsPointer(raw: nat, align: nat)
    requires PowerOfTwo(align) && align > 0 && raw + align < U64_LIMIT
    ensures BitAnd(raw + 1 + align - 1, U64_LIMIT - align) == UserPtr(raw, align)
  {
    WordIsPower();
    MaskFindsPointerIn(raw, align, U64_LIMIT);
  }

  lemma MaskFindsPointerIn(raw: nat, align: nat, limit: nat)
    requires PowerOfTwo(align) && PowerOfTwo(limit) && align > 0 && raw + align < limit
    ensures BitAnd(raw + align, limit - align) == UserPtr(raw, align)
  {
    MaskClearsLowBits(raw + align, align, limit);
    MaskAlignsUp(raw + 1, align);
    RoundedUpIs(raw, align);
  }

  lemma RoundedUpIs(raw: nat, align: nat)
    requires align > 0
    ensures RoundedUp(raw + 1, align) == raw + align - (raw + align) % align
  {
  }

  /** How many times `align` fits below the one multiple of it within reach of addr. */
  ghost function AlignCount(addr: nat, align: nat): (k: nat)
    requires align > 0
    ensures addr <= Times(k, align) < addr + align
  {
    MaskIsTimes(addr, align);
    var k: nat :| addr <= Times(k, align) < addr + align;
    k
  }

  lemma MaskIsTimes(addr: nat, align: nat)
    requires align > 0
    ensures exists k: nat :: RoundedUp(addr, align) == Times(k, align)
  {
    var k := RoundedUp(addr, align) / align;
    TimesIsProduct(k, align);
    assert RoundedUp(addr, align) == Times(k, align);
  }

  /** What that computes: that multiple. */
  ghost function AlignUp(addr: nat, align: nat): (r: nat)
    requires align > 0
    ensures addr <= r < addr + align
  {
    Times(AlignCount(addr, align), align)
  }

  lemma AlignUpIsMultiple(addr: nat, align: nat)
    requires align > 0
    ensures AlignUp(addr, align) % align == 0
  {
    TimesIsProduct(AlignCount(addr, align), align);
    DivModUnique(AlignCount(addr, align), 0, align);
  }

  lemma MaskAlignsUp(addr: nat, align: nat)
    requires align > 0
    ensures RoundedUp(addr, align) == AlignUp(addr, align)
  {
    AlignUpIsMultiple(addr, align);
    OneMultiple(RoundedUp(addr, align), AlignUp(addr, align), addr, align);
  }

  /** The pointer handed to Rust; the control byte is just before it. */
  ghost function UserPtr(raw: nat, align: nat): (r: nat)
    requires align > 0
    ensures raw + 1 <= r <= raw + align
  {
    AlignUp(raw + 1, align)
  }

  lemma PointerIsAligned(raw: nat, align: nat)
    requires align > 0
    ensures UserPtr(raw, align) % align == 0
  {
    AlignUpIsMultiple(raw + 1, align);
  }

  /** What the control byte has to say. */
  ghost function Offset(raw: nat, align: nat): (r: nat)
    requires align > 0
    ensures r < align
  {
    UserPtr(raw, align) - (raw + 1)
  }

  /** The heap once the byte before ptr says how far it is from the raw block. */
  function WithOffset(h: Heap, raw: nat, ptr: nat): Heap
    requires ptr > raw
  {
    h.(mem := h.mem[ptr - 1 := (ptr - (raw + 1)) % 256])
  }

  /** The heap once the control byte of a raw block is written. */
  ghost function WithControl(h: Heap, raw: nat, align: nat): Heap
    requires align > 0
  {
    WithOffset(h, raw, UserPtr(raw, align))
  }

  ghost function HeapAfter(h: Heap, p: Option<nat>, size: nat, align: nat, at: nat, fill: map<nat, byte>): Heap
    requires align > 0 && (p.Some? ==> p.value in h.raws)
  {
    WithControl(XRealloc(h, p, size + align, at, fill), at, align)
  }

  lemma HeapAfterIs(h: Heap, p: Option<nat>, size: nat, align: nat, at: nat, fill: map<nat, byte>)
    requires align > 0 && (p.Some? ==> p.value in h.raws)
    ensures HeapAfter(h, p, size, align, at, fill)
            == WithOffset(XRealloc(h, p, size + align, at, fill), at, UserPtr(at, align))
  {
  }

  function RawFromAligned(mem: map<nat, byte>, ptr: nat): int
    requires ptr >= 1 && ptr - 1 in mem
  {
    ptr - 1 - mem[ptr - 1]
  }

  /** The one-byte offset leads back to the raw block exactly when it did not overflow. */
  lemma RecoveredIff(h: Heap, p: Option<nat>, size: nat, align: nat, at: nat, fill: map<nat, byte>)
    requires align > 0 && (p.Some? ==> p.value in h.raws)
    ensures var (after, ptr) := (HeapAfter(h, p, size, align, at, fill), UserPtr(at, align));
            RawFromAligned(after.mem, ptr) == at <==> Offset(at, align) < 256
  {
    HeapAfterIs(h, p, size, align, at, fill);
    ControlByteRead(XRealloc(h, p, size + align, at, fill), at, UserPtr(at, align));
    Truncation(Offset(at, align));
  }

  lemma ControlByteRead(h: Heap, raw: nat, ptr: nat)
    requires ptr > raw
    ensures RawFromAligned(WithOffset(h, raw, ptr).mem, ptr) == ptr - 1 - (ptr - (raw + 1)) % 256
  {
  }

  lemma Truncation(offset: nat)
    ensures offset % 256 == offset <==> offset < 256
  {
  }

  /** So every alignment up to 256 is safe at every address, and no larger one is. */
  lemma ControlByteSuffices(align: nat)
    requires align > 0
    ensures (forall raw: nat :: raw > 0 ==> Offset(raw, align) < 256) <==> align <= 256
  {
    if align > 256 {
      var raw := 2 * align - 257;
      DivModUnique(2, 0, align);
      PointerIsAligned(raw, align);
      OneMultiple(UserPtr(raw, align), 2 * align, raw + 1, align);
      assert Offset(raw, align) == 256;
    }
  }

  // ----- Whole runs -----

  datatype Block = Block(raw: nat, size: nat, align: nat)

  /** `live` is what Rust holds: its pointers, and the layouts they were allocated with. */
  datatype State = State(heap: Heap, live: map<nat, Block>)

  datatype Call =
    | Alloc(size: nat, align: nat, at: nat, fill: map<nat, byte>)
    | Realloc(ptr: nat, newSize: nat, at: nat, fill: map<nat, byte>)
    | Dealloc(ptr: nat)
    | Write(ptr: nat, index: nat, value: byte)

  predicate AlignOk(align: nat) {
    PowerOfTwo(align) && 0 < align <= 256
  }

  /** Rust keeps the GlobalAlloc contract, and the underlying allocator keeps its own. */
  ghost predicate Allowed(s: State, c: Call) {
    match c
    case Alloc(size, align, at, _) => PowerOfTwo(align) && align > 0 && MayReturn(s.heap, None, size + align, at)
    case Realloc(ptr, newSize, at, _) =>
      && ptr in s.live && ptr >= 1 && ptr - 1 in s.heap.mem && RawFromAligned(s.heap.mem, ptr) >= 0
      && s.live[ptr].align > 0
      && MayReturn(s.heap, Some(RawFromAligned(s.heap.mem, ptr)), newSize + s.live[ptr].align, at)
    case Dealloc(ptr) =>
      ptr in s.live && ptr >= 1 && ptr - 1 in s.heap.mem && RawFromAligned(s.heap.mem, ptr) >= 0
    case Write(ptr, i, _) => ptr in s.live && i < s.live[ptr].size
  }

  /** What the one-byte offset asks of Rust: alignments up to 256. */
  predicate Small(c: Call) {
    c.Alloc? ==> c.align <= 256
  }

  ghost function Do(s: State, c: Call): State
    requires Allowed(s, c)
  {
    match c
    case Alloc(size, align, at, fill) =>
      State(HeapAfter(s.heap, None, size, align, at, fill), s.live[UserPtr(at, align) := Block(at, size, align)])
    case Realloc(old_, newSize, at, fill) =>
      var (raw, align) := (RawFromAligned(s.heap.mem, old_), s.live[old_].align);
      State(HeapAfter(s.heap, Some(raw), newSize, align, at, fill),
            (s.live - {old_})[UserPtr(at, align) := Block(at, newSize, align)])
    case Dealloc(ptr) =>
      State(s.heap.(raws := s.heap.raws - {RawFromAligned(s.heap.mem, ptr)}), s.live - {ptr})
    case Write(ptr, i, value) =>
      s.(heap := s.heap.(mem := s.heap.mem[ptr + i := value]))
  }

  // ----- The invariant -----

  ghost predicate BlockOk(h: Heap, ptr: nat, b: Block) {
    && AlignOk(b.align)
    && b.raw > 0 && b.raw in h.raws && h.raws[b.raw] == b.size + b.align
    && ptr == UserPtr(b.raw, b.align)
    && Mapped(h.mem, b.raw, b.size + b.align)
    && h.mem[ptr - 1] == Offset(b.raw, b.align)
  }

  ghost predicate Mapped(mem: map<nat, byte>, start: nat, size: nat) {
    forall a :: start <= a < start + size ==> a in mem
  }

  ghost predicate RawsApart(raws: map<nat, nat>) {
    forall r, q :: r in raws && q in raws && r != q ==> !Meets(r, raws[r], q, raws[q])
  }

  /** `foreign` are the blocks of bash itself, on the same heap. */
  ghost predicate Inv(s: State, foreign: set<nat>) {
    && BlocksOk(s.heap, s.live, foreign)
    && RawsApart(s.heap.raws)
    && RawsDistinct(s.live)
    && s.heap.raws.Keys == foreign + RawSet(s.live)
  }

  ghost predicate BlocksOk(h: Heap, live: map<nat, Block>, foreign: set<nat>) {
    forall p :: p in live ==> BlockOk(h, p, live[p]) && live[p].raw !in foreign
  }

  ghost predicate RawsDistinct(live: map<nat, Block>) {
    forall p, q :: p in live && q in live && p != q ==> live[p].raw != live[q].raw
  }

  function RawSet(live: map<nat, Block>): set<nat> {
    set p | p in live :: live[p].raw
  }

  lemma RawRecovered(h: Heap, ptr: nat, b: Block)
    requires BlockOk(h, ptr, b)
    ensures RawFromAligned(h.mem, ptr) == b.raw
  {
  }

  /** Every address of a raw block but the new one keeps its byte. */
  lemma BytesStay(h: Heap, p: Option<nat>, size: nat, align: nat, at: nat, fill: map<nat, byte>, r: nat, a: nat)
    requires align > 0 && MayReturn(h, p, size + align, at)
    requires r in h.raws && Some(r) != p && r <= a < r + h.raws[r]
    ensures var after := HeapAfter(h, p, size, align, at, fill);
            r in after.raws && after.raws[r] == h.raws[r]
            && (a in h.mem <==> a in after.mem) && (a in h.mem ==> after.mem[a] == h.mem[a])
  {
    assert !Meets(at, size + align, r, h.raws[r]);
  }

  lemma NewBlockOk(h: Heap, p: Option<nat>, size: nat, align: nat, at: nat, fill: map<nat, byte>)
    requires AlignOk(align) && MayReturn(h, p, size + align, at)
    ensures var (after, ptr) := (HeapAfter(h, p, size, align, at, fill), UserPtr(at, align));
            BlockOk(after, ptr, Block(at, size, align))
  {
    Truncation(Offset(at, align));
  }

  lemma OtherBlockOk(h: Heap, p: Option<nat>, size: nat, align: nat, at: nat, fill: map<nat, byte>, q: nat, b: Block)
    requires align > 0 && MayReturn(h, p, size + align, at)
    requires BlockOk(h, q, b) && Some(b.raw) != p
    ensures BlockOk(HeapAfter(h, p, size, align, at, fill), q, b)
  {
    forall a | b.raw <= a < b.raw + b.size + b.align ensures a in HeapAfter(h, p, size, align, at, fill).mem {
      BytesStay(h, p, size, align, at, fill, b.raw, a);
    }
    BytesStay(h, p, size, align, at, fill, b.raw, q - 1);
  }

  lemma RawsStayApart(h: Heap, p: Option<nat>, size: nat, at: nat, after: map<nat, nat>)
    requires RawsApart(h.raws) && MayReturn(h, p, size, at) && after == Rebooked(h.raws, p, size, at)
    ensures RawsApart(after)
  {
    forall r, q | r in after && q in after && r != q ensures !Meets(r, after[r], q, after[q]) {
      if r == at { assert !Meets(at, size, q, h.raws[q]); }
      if q == at { assert !Meets(at, size, r, h.raws[r]); }
    }
  }

  /** The blocks Rust holds after placing one, for alloc (`gone` is empty) and realloc. */
  ghost predicate Replaces(s: State, gone: set<nat>, p: Option<nat>) {
    if p == None then gone == {}
    else exists o :: gone == {o} && o in s.live && s.live[o].raw == p.value
  }

  lemma OthersKeepRaw(s: State, foreign: set<nat>, gone: set<nat>, p: Option<nat>)
    requires Inv(s, foreign) && Replaces(s, gone, p)
    ensures forall q :: q in s.live && q !in gone ==> Some(s.live[q].raw) != p
    ensures p.Some? ==> p.value !in foreign
  {
  }

  lemma PlacingKeepsBlocks(s: State, foreign: set<nat>, gone: set<nat>, p: Option<nat>,
                           size: nat, align: nat, at: nat, fill: map<nat, byte>)
    requires Inv(s, foreign) && AlignOk(align) && MayReturn(s.heap, p, size + align, at) && Replaces(s, gone, p)
    ensures var (heap, ptr) := (HeapAfter(s.heap, p, size, align, at, fill), UserPtr(at, align));
            var live := (s.live - gone)[ptr := Block(at, size, align)];
            && at !in foreign
            && BlocksOk(heap, live, foreign)
            && (forall q :: q in s.live && q !in gone && q != ptr ==> s.live[q].raw != at)
  {
    var heap, ptr := HeapAfter(s.heap, p, size, align, at, fill), UserPtr(at, align);
    NewBlockOk(s.heap, p, size, align, at, fill);
    OthersKeepRaw(s, foreign, gone, p);
    assert at in foreign ==> at in s.heap.raws;
    forall q | q in s.live && q !in gone ensures BlockOk(heap, q, s.live[q]) && s.live[q].raw != at {
      OtherBlockOk(s.heap, p, size, align, at, fill, q, s.live[q]);
    }
  }

  /** The new pointer is not one that Rust holds already. */
  lemma PointerIsNew(s: State, foreign: set<nat>, gone: set<nat>, p: Option<nat>,
                     size: nat, align: nat, at: nat, q: nat)
    requires Inv(s, foreign) && align > 0 && MayReturn(s.heap, p, size + align, at) && Replaces(s, gone, p)
    requires q in s.live && q !in gone
    ensures q != UserPtr(at, align)
  {
    var b := s.live[q];
    OthersKeepRaw(s, foreign, gone, p);
    assert BlockOk(s.heap, q, b);
    assert !Meets(at, size + align, b.raw, s.heap.raws[b.raw]);
  }

  lemma RawSetAdds(live: map<nat, Block>, ptr: nat, b: Block)
    requires ptr !in live
    ensures RawSet(live[ptr := b]) == RawSet(live) + {b.raw}
  {
    var more := live[ptr := b];
    assert more[ptr].raw in RawSet(more);
    forall r | r in RawSet(live) ensures r in RawSet(more) {
      var q :| q in live && live[q].raw == r;
      assert more[q].raw == r;
    }
  }

  lemma RawSetRemoves(live: map<nat, Block>, o: nat)
    requires o in live && forall q :: q in live && q != o ==> live[q].raw != live[o].raw
    ensures RawSet(live - {o}) == RawSet(live) - {live[o].raw}
  {
    forall r | r in RawSet(live) && r != live[o].raw ensures r in RawSet(live - {o}) {
      var q :| q in live && live[q].raw == r;
      assert (live - {o})[q].raw == r;
    }
  }

  lemma PlacedRawSet(s: State, foreign: set<nat>, gone: set<nat>, p: Option<nat>, size: nat, align: nat, at: nat)
    requires Inv(s, foreign) && align > 0 && MayReturn(s.heap, p, size + align, at) && Replaces(s, gone, p)
    ensures RawSet((s.live - gone)[UserPtr(at, align) := Block(at, size, align)])
            == RawSet(s.live) - OldRaw(p) + {at}
  {
    var ptr := UserPtr(at, align);
    if ptr in s.live - gone { PointerIsNew(s, foreign, gone, p, size, align, at, ptr); }
    RawSetAdds(s.live - gone, ptr, Block(at, size, align));
    if p.Some? {
      var o :| gone == {o} && o in s.live && s.live[o].raw == p.value;
      RawSetRemoves(s.live, o);
    } else {
      assert s.live - gone == s.live;
    }
  }

  lemma RebookedKeys(raws: map<nat, nat>, p: Option<nat>, size: nat, at: nat)
    ensures Rebooked(raws, p, size, at).Keys == raws.Keys - OldRaw(p) + {at}
  {
  }

  lemma PlacingKeepsRaws(s: State, gone: set<nat>, p: Option<nat>, size: nat, align: nat, at: nat,
                         raws: map<nat, nat>, live: map<nat, Block>)
    requires RawsApart(s.heap.raws) && RawsDistinct(s.live)
    requires align > 0 && MayReturn(s.heap, p, size + align, at)
    requires raws == Rebooked(s.heap.raws, p, size + align, at)
    requires live == (s.live - gone)[UserPtr(at, align) := Block(at, size, align)]
    requires forall q :: q in s.live && q !in gone && q != UserPtr(at, align) ==> s.live[q].raw != at
    ensures RawsApart(raws) && RawsDistinct(live)
  {
    RawsStayApart(s.heap, p, size + align, at, raws);
    DistinctAfterAdding(s.live, gone, UserPtr(at, align), Block(at, size, align));
  }

  lemma PlacingKeepsKeys(s: State, foreign: set<nat>, gone: set<nat>, p: Option<nat>,
                         size: nat, align: nat, at: nat, keys: set<nat>)
    requires Inv(s, foreign) && align > 0 && MayReturn(s.heap, p, size + align, at) && Replaces(s, gone, p)
    requires keys == Rebooked(s.heap.raws, p, size + align, at).Keys
    ensures keys == foreign + RawSet((s.live - gone)[UserPtr(at, align) := Block(at, size, align)])
  {
    RebookedKeys(s.heap.raws, p, size + align, at);
    OthersKeepRaw(s, foreign, gone, p);
    PlacedRawSet(s, foreign, gone, p, size, align, at);
    ForeignStay(foreign, RawSet(s.live), OldRaw(p), {at});
  }

  lemma ForeignStay(foreign: set<nat>, mine: set<nat>, gone: set<nat>, new_: set<nat>)
    requires gone !! foreign
    ensures foreign + mine - gone + new_ == foreign + (mine - gone + new_)
  {
  }

  lemma DistinctAfterAdding(live: map<nat, Block>, gone: set<nat>, ptr: nat, b: Block)
    requires RawsDistinct(live) && forall q :: q in live && q !in gone && q != ptr ==> live[q].raw != b.raw
    ensures RawsDistinct((live - gone)[ptr := b])
  {
  }

  /** t is s after a block has been placed. */
  ghost predicate Placed(s: State, gone: set<nat>, p: Option<nat>,
                         size: nat, align: nat, at: nat, fill: map<nat, byte>, t: State)
    requires align > 0 && (p.Some? ==> p.value in s.heap.raws)
  {
    && t.heap == HeapAfter(s.heap, p, size, align, at, fill)
    && t.live == (s.live - gone)[UserPtr(at, align) := Block(at, size, align)]
  }

  lemma PlacedKeepsInv(s: State, foreign: set<nat>, gone: set<nat>, p: Option<nat>,
                       size: nat, align: nat, at: nat, fill: map<nat, byte>, t: State)
    requires Inv(s, foreign) && AlignOk(align) && MayReturn(s.heap, p, size + align, at) && Replaces(s, gone, p)
    requires Placed(s, gone, p, size, align, at, fill, t)
    ensures Inv(t, foreign)
  {
    PlacingKeepsBlocks(s, foreign, gone, p, size, align, at, fill);
    PlacingKeepsRaws(s, gone, p, size, align, at, t.heap.raws, t.live);
    PlacingKeepsKeys(s, foreign, gone, p, size, align, at, t.heap.raws.Keys);
  }

  lemma AllocKeepsInv(s: State, foreign: set<nat>, c: Call)
    requires Inv(s, foreign) && Allowed(s, c) && c.Alloc? && Small(c)
    ensures Inv(Do(s, c), foreign)
  {
    assert s.live - {} == s.live;
    PlacedKeepsInv(s, foreign, {}, None, c.size, c.align, c.at, c.fill, Do(s, c));
  }

  lemma ReallocMoves(s: State, foreign: set<nat>, c: Call)
    requires Inv(s, foreign) && Allowed(s, c) && c.Realloc?
    ensures var b := s.live[c.ptr];
            && b.raw in s.heap.raws && AlignOk(b.align)
            && MayReturn(s.heap, Some(b.raw), c.newSize + b.align, c.at) && Replaces(s, {c.ptr}, Some(b.raw))
            && Placed(s, {c.ptr}, Some(b.raw), c.newSize, b.align, c.at, c.fill, Do(s, c))
  {
    var b := s.live[c.ptr];
    assert BlockOk(s.heap, c.ptr, b);
    RawRecovered(s.heap, c.ptr, b);
  }

  lemma ReallocKeepsInv(s: State, foreign: set<nat>, c: Call)
    requires Inv(s, foreign) && Allowed(s, c) && c.Realloc?
    ensures Inv(Do(s, c), foreign)
  {
    var b := s.live[c.ptr];
    ReallocMoves(s, foreign, c);
    PlacedKeepsInv(s, foreign, {c.ptr}, Some(b.raw), c.newSize, b.align, c.at, c.fill, Do(s, c));
  }

  /** dealloc gives back exactly the raw block of its pointer. */
  lemma DeallocFrees(s: State, foreign: set<nat>, c: Call)
    requires Inv(s, foreign) && Allowed(s, c) && c.Dealloc?
    ensures var t := Do(s, c);
            && t.heap.mem == s.heap.mem && t.live == s.live - {c.ptr}
            && s.live[c.ptr].raw in s.heap.raws
            && t.heap.raws == s.heap.raws - {s.live[c.ptr].raw}
  {
    RawRecovered(s.heap, c.ptr, s.live[c.ptr]);
  }

  lemma DeallocKeepsInv(s: State, foreign: set<nat>, c: Call)
    requires Inv(s, foreign) && Allowed(s, c) && c.Dealloc?
    ensures Inv(Do(s, c), foreign)
  {
    var t, b := Do(s, c), s.live[c.ptr];
    DeallocFrees(s, foreign, c);
    RawSetRemoves(s.live, c.ptr);
    ForeignStay(foreign, RawSet(s.live), {b.raw}, {});
    forall p | p in t.live ensures BlockOk(t.heap, p, t.live[p]) && t.live[p].raw !in foreign {
      assert BlockOk(s.heap, p, s.live[p]);
    }
  }

  /** Where Rust writes lies in one block's raw block, and is nobody's control byte. */
  lemma UserBytesApart(s: State, foreign: set<nat>, p: nat, q: nat, i: nat)
    requires Inv(s, foreign) && p in s.live && q in s.live && i < s.live[p].size
    ensures p + i != q - 1
    ensures s.live[p].raw < p + i < s.live[p].raw + s.heap.raws[s.live[p].raw]
    ensures p != q ==> !(q <= p + i < q + s.live[q].size)
  {
    var a, b := s.live[p], s.live[q];
    assert BlockOk(s.heap, p, a) && BlockOk(s.heap, q, b);
    if p != q { assert !Meets(a.raw, s.heap.raws[a.raw], b.raw, s.heap.raws[b.raw]); }
  }

  lemma WriteKeepsInv(s: State, foreign: set<nat>, c: Call)
    requires Inv(s, foreign) && Allowed(s, c) && c.Write?
    ensures Inv(Do(s, c), foreign)
  {
    var t := Do(s, c);
    forall p | p in t.live ensures BlockOk(t.heap, p, t.live[p]) {
      assert BlockOk(s.heap, p, s.live[p]);
      UserBytesApart(s, foreign, c.ptr, p, c.index);
    }
  }

  lemma CallKeepsInv(s: State, foreign: set<nat>, c: Call)
    requires Inv(s, foreign) && Allowed(s, c) && Small(c)
    ensures Inv(Do(s, c), foreign)
  {
    match c
    case Alloc(_, _, _, _) => AllocKeepsInv(s, foreign, c);
    case Realloc(_, _, _, _) => ReallocKeepsInv(s, foreign, c);
    case Dealloc(_) => DeallocKeepsInv(s, foreign, c);
    case Write(_, _, _) => WriteKeepsInv(s, foreign, c);
  }

  // ----- bash on the same heap -----

  /** bash allocates (from None) or resizes one of its own blocks. */
  lemma BashReallocKeepsInv(s: State, foreign: set<nat>, p: Option<nat>, size: nat, at: nat, fill: map<nat, byte>)
    requires Inv(s, foreign) && (p.Some? ==> p.value in foreign) && MayReturn(s.heap, p, size, at)
    ensures Inv(s.(heap := XRealloc(s.heap, p, size, at, fill)), foreign - OldRaw(p) + {at})
  {
    var heap := XRealloc(s.heap, p, size, at, fill);
    RawsStayApart(s.heap, p, size, at, heap.raws);
    RebookedKeys(s.heap.raws, p, size, at);
    forall q | q in s.live ensures BlockOk(heap, q, s.live[q]) && s.live[q].raw !in foreign - OldRaw(p) + {at} {
      assert BlockOk(s.heap, q, s.live[q]) && s.live[q].raw !in foreign;
      BlockStaysOk(s.heap, p, size, at, fill, q, s.live[q]);
    }
    ForeignChange(foreign, RawSet(s.live), OldRaw(p), {at});
  }

  lemma BlockStaysOk(h: Heap, p: Option<nat>, size: nat, at: nat, fill: map<nat, byte>, q: nat, b: Block)
    requires BlockOk(h, q, b) && MayReturn(h, p, size, at) && Some(b.raw) != p
    ensures BlockOk(XRealloc(h, p, size, at, fill), q, b) && b.raw != at
  {
    assert !Meets(at, size, b.raw, h.raws[b.raw]);
  }

  lemma ForeignChange(foreign: set<nat>, mine: set<nat>, gone: set<nat>, new_: set<nat>)
    requires gone <= foreign && foreign !! mine
    ensures foreign + mine - gone + new_ == foreign - gone + new_ + mine
  {
  }

  lemma BashFreeKeepsInv(s: State, foreign: set<nat>, raw: nat)
    requires Inv(s, foreign) && raw in foreign
    ensures Inv(s.(heap := s.heap.(raws := s.heap.raws - {raw})), foreign - {raw})
  {
    forall q | q in s.live ensures s.live[q].raw != raw { assert BlockOk(s.heap, q, s.live[q]); }
    ForeignChange(foreign, RawSet(s.live), {raw}, {});
  }

  lemma BashWriteKeepsInv(s: State, foreign: set<nat>, raw: nat, index: nat, value: byte)
    requires Inv(s, foreign) && raw in foreign && index < s.heap.raws[raw]
    ensures Inv(s.(heap := s.heap.(mem := s.heap.mem[raw + index := value])), foreign)
  {
    var t := s.(heap := s.heap.(mem := s.heap.mem[raw + index := value]));
    forall q | q in s.live ensures BlockOk(t.heap, q, s.live[q]) {
      var b := s.live[q];
      assert BlockOk(s.heap, q, b) && b.raw !in foreign;
      assert !Meets(raw, s.heap.raws[raw], b.raw, s.heap.raws[b.raw]);
    }
  }

  /** Rust changes no byte and no size of bash's blocks, and frees none. */
  lemma RustLeavesBashAlone(s: State, foreign: set<nat>, c: Call, raw: nat, a: nat)
    requires Inv(s, foreign) && Allowed(s, c) && raw in foreign && raw <= a < raw + s.heap.raws[raw]
    ensures var after := Do(s, c).heap;
            && raw in after.raws && after.raws[raw] == s.heap.raws[raw]
            && (a in s.heap.mem <==> a in after.mem) && (a in s.heap.mem ==> after.mem[a] == s.heap.mem[a])
  {
    match c
    case Alloc(size, align, at, fill) => BytesStay(s.heap, None, size, align, at, fill, raw, a);
    case Realloc(ptr, newSize, at, fill) =>
      ReallocMoves(s, foreign, c);
      assert s.live[ptr].raw !in foreign;
      BytesStay(s.heap, Some(s.live[ptr].raw), newSize, s.live[ptr].align, at, fill, raw, a);
    case Dealloc(ptr) =>
      DeallocFrees(s, foreign, c);
      assert s.live[ptr].raw !in foreign;
    case Write(ptr, i, _) =>
      UserBytesApart(s, foreign, ptr, ptr, i);
      var mine := s.live[ptr].raw;
      assert mine !in foreign;
      assert !Meets(mine, s.heap.raws[mine], raw, s.heap.raws[raw]);
  }

  // ----- What holds in every run -----

  /** Rust and bash on one heap; `bash` are the raw blocks that bash holds. */
  datatype System = System(rust: State, bash: set<nat>)

  datatype Event =
    | Rust(call: Call)
    | BashRealloc(p: Option<nat>, size: nat, at: nat, fill: map<nat, byte>)
    | BashFree(raw: nat)
    | BashWrite(raw: nat, index: nat, value: byte)

  ghost predicate Next(s: System, t: System, e: Event) {
    var (heap, live) := (s.rust.heap, s.rust.live);
    match e
    case Rust(c) => Allowed(s.rust, c) && Small(c) && t == System(Do(s.rust, c), s.bash)
    case BashRealloc(p, size, at, fill) =>
      && (p.Some? ==> p.value in s.bash) && MayReturn(heap, p, size, at)
      && t == System(State(XRealloc(heap, p, size, at, fill), live), s.bash - OldRaw(p) + {at})
    case BashFree(raw) =>
      && raw in s.bash
      && t == System(State(heap.(raws := heap.raws - {raw}), live), s.bash - {raw})
    case BashWrite(raw, i, value) =>
      && raw in s.bash && raw in heap.raws && i < heap.raws[raw]
      && t == System(State(heap.(mem := heap.mem[raw + i := value]), live), s.bash)
  }

  /** From a heap on which bash holds everything. */
  ghost predicate Run(trace: seq<System>, events: seq<Event>) {
    && |trace| == |events| + 1
    && trace[0].rust.live == map[] && RawsApart(trace[0].rust.heap.raws)
    && trace[0].bash == trace[0].rust.heap.raws.Keys
    && forall k :: 0 <= k < |events| ==> Follows(trace, events, k)
  }

  ghost predicate Follows(trace: seq<System>, events: seq<Event>, k: nat)
    requires k < |events| && |trace| == |events| + 1
  {
    Next(trace[k], trace[k + 1], events[k])
  }

  lemma NextKeepsInv(s: System, t: System, e: Event)
    requires Inv(s.rust, s.bash) && Next(s, t, e)
    ensures Inv(t.rust, t.bash)
  {
    match e
    case Rust(c) => CallKeepsInv(s.rust, s.bash, c);
    case BashRealloc(p, size, at, fill) => BashReallocKeepsInv(s.rust, s.bash, p, size, at, fill);
    case BashFree(raw) => BashFreeKeepsInv(s.rust, s.bash, raw);
    case BashWrite(raw, i, value) => BashWriteKeepsInv(s.rust, s.bash, raw, i, value);
  }

  lemma {:induction false} RunKeepsInv(trace: seq<System>, events: seq<Event>, n: nat)
    requires Run(trace, events) && n < |trace|
    ensures Inv(trace[n].rust, trace[n].bash)
  {
    if n == 0 {
      assert RawSet(trace[0].rust.live) == {};
    } else {
      RunKeepsInv(trace, events, n - 1);
      assert Follows(trace, events, n - 1);
      NextKeepsInv(trace[n - 1], trace[n], events[n - 1]);
    }
  }

  /**
   * Whatever addresses the underlying allocator chooses and whatever bash does with its own blocks:
   * every live block is aligned, lies inside its raw block, and is disjoint from every other block
   * and from every control byte; the control byte leads to its raw block; and each raw block is
   * either bash's or that of one live block, so nothing is leaked or freed twice.
   */
  lemma RunSafe(trace: seq<System>, events: seq<Event>, n: nat, p: nat, q: nat)
    requires Run(trace, events) && n < |trace|
    requires p in trace[n].rust.live && q in trace[n].rust.live
    ensures var (t, b) := (trace[n].rust, trace[n].rust.live[p]);
            && b.align > 0 && p % b.align == 0
            && b.raw in t.heap.raws && b.raw < p && p + b.size <= b.raw + t.heap.raws[b.raw]
            && q >= 1 && !(p <= q - 1 < p + b.size)
            && (p != q ==> p + b.size <= q || q + t.live[q].size <= p)
            && p - 1 in t.heap.mem && RawFromAligned(t.heap.mem, p) == b.raw
            && t.heap.raws.Keys == trace[n].bash + RawSet(t.live) && b.raw !in trace[n].bash
            && (p != q ==> b.raw != t.live[q].raw)
  {
    RunKeepsInv(trace, events, n);
    var t := trace[n].rust;
    var a, b := t.live[p], t.live[q];
    assert BlockOk(t.heap, p, a) && BlockOk(t.heap, q, b);
    if p != q { assert !Meets(a.raw, t.heap.raws[a.raw], b.raw, t.heap.raws[b.raw]); }
    RawRecovered(t.heap, p, a);
    PointerIsAligned(a.raw, a.align);
  }

  // ----- What a realloc keeps -----

  /** Byte i of a raw block, unless it becomes the control byte. */
  lemma BlockMoves(h: Heap, raw: nat, size: nat, align: nat, at: nat, fill: map<nat, byte>, i: nat)
    requires align > 0 && raw in h.raws && i < size + align && i < h.raws[raw] && i != Offset(at, align)
    ensures var after := HeapAfter(h, Some(raw), size, align, at, fill);
            at + i in after.mem && (raw + i in h.mem ==> after.mem[at + i] == h.mem[raw + i])
  {
  }

  /** The raw block is there, whatever its control byte says. */
  ghost predicate InHeap(h: Heap, ptr: nat, b: Block) {
    && b.align > 0 && b.raw in h.raws && h.raws[b.raw] == b.size + b.align
    && Mapped(h.mem, b.raw, b.size + b.align) && b.raw < ptr <= b.raw + b.align
  }

  lemma BlockInHeap(h: Heap, ptr: nat, b: Block)
    requires BlockOk(h, ptr, b)
    ensures InHeap(h, ptr, b)
  {
  }

  lemma RawByteMapped(h: Heap, ptr: nat, b: Block, i: nat)
    requires InHeap(h, ptr, b) && i < b.size + b.align
    ensures b.raw in h.raws && i < h.raws[b.raw] && b.raw + i in h.mem
  {
  }

  /** Byte k of the moved block is the byte that was as far into the old raw block. */
  lemma MovedByte(h: Heap, ptr: nat, b: Block, newSize: nat, at: nat, fill: map<nat, byte>, k: nat)
    requires InHeap(h, ptr, b) && k < newSize && k < b.size
    ensures var after := HeapAfter(h, Some(b.raw), newSize, b.align, at, fill);
            var (from, to) := (b.raw + 1 + Offset(at, b.align) + k, UserPtr(at, b.align) + k);
            from in h.mem && to in after.mem && after.mem[to] == h.mem[from]
  {
    RawByteMapped(h, ptr, b, Offset(at, b.align) + 1 + k);
    BlockMoves(h, b.raw, newSize, b.align, at, fill, Offset(at, b.align) + 1 + k);
  }

  /** The byte at `to` + k afterwards is the one at `from` + k before. */
  ghost predicate MovedFrom(before: map<nat, byte>, after: map<nat, byte>, from: nat, to: nat, k: nat) {
    from + k in before && to + k in after && after[to + k] == before[from + k]
  }

  ghost predicate AllMoved(before: map<nat, byte>, after: map<nat, byte>, from: nat, to: nat, n: nat) {
    forall k :: 0 <= k < n ==> MovedFrom(before, after, from, to, k)
  }

  /** As many bytes as both sizes cover. */
  function Common(size: nat, newSize: nat): nat {
    if size < newSize then size else newSize
  }

  /** All of them survive the call. */
  ghost predicate KeepsData(h: Heap, ptr: nat, b: Block, newSize: nat, at: nat, fill: map<nat, byte>)
    requires b.align > 0 && b.raw in h.raws
  {
    AllMoved(h.mem, HeapAfter(h, Some(b.raw), newSize, b.align, at, fill).mem, ptr, UserPtr(at, b.align),
             Common(b.size, newSize))
  }

  /** Which bytes end up in the moved block: those that were as far into the old raw block. */
  lemma BlockIsMoved(h: Heap, ptr: nat, b: Block, newSize: nat, at: nat, fill: map<nat, byte>)
    requires InHeap(h, ptr, b)
    ensures AllMoved(h.mem, HeapAfter(h, Some(b.raw), newSize, b.align, at, fill).mem,
                     b.raw + 1 + Offset(at, b.align), UserPtr(at, b.align), Common(b.size, newSize))
  {
    var after := HeapAfter(h, Some(b.raw), newSize, b.align, at, fill).mem;
    var from, to := b.raw + 1 + Offset(at, b.align), UserPtr(at, b.align);
    forall k | 0 <= k < Common(b.size, newSize) ensures MovedFrom(h.mem, after, from, to, k) {
      MovedByte(h, ptr, b, newSize, at, fill, k);
    }
  }

  /** What was moved from one place was kept from another exactly if the two places held the same. */
  lemma MovedIsKeptIff(before: map<nat, byte>, after: map<nat, byte>, from: nat, ptr: nat, to: nat, n: nat)
    requires AllMoved(before, after, from, to, n) && forall k :: ptr <= k < ptr + n ==> k in before
    ensures AllMoved(before, after, ptr, to, n) <==> SameBytes(before, from, ptr, n)
  {
    forall k | 0 <= k < n ensures MovedFrom(before, after, ptr, to, k) <==> SameByte(before, from, ptr, k) {
      assert MovedFrom(before, after, from, to, k);
      assert ptr + k in before;
    }
  }

  ghost predicate SameByte(mem: map<nat, byte>, from: nat, to: nat, k: nat) {
    from + k in mem && to + k in mem && mem[from + k] == mem[to + k]
  }

  ghost predicate SameBytes(mem: map<nat, byte>, from: nat, to: nat, n: nat) {
    forall k :: 0 <= k < n ==> SameByte(mem, from, to, k)
  }

  /** The same, in terms of the memory before the call. */
  ghost predicate Survives(h: Heap, ptr: nat, b: Block, newSize: nat, at: nat)
    requires b.align > 0
  {
    SameBytes(h.mem, b.raw + 1 + Offset(at, b.align), ptr, Common(b.size, newSize))
  }

  lemma KeepsDataIff(h: Heap, ptr: nat, b: Block, newSize: nat, at: nat, fill: map<nat, byte>)
    requires InHeap(h, ptr, b)
    ensures KeepsData(h, ptr, b, newSize, at, fill) <==> Survives(h, ptr, b, newSize, at)
  {
    BlockIsMoved(h, ptr, b, newSize, at, fill);
    MovedSurvivesIff(h, ptr, b, newSize, at, HeapAfter(h, Some(b.raw), newSize, b.align, at, fill).mem);
  }

  lemma MovedSurvivesIff(h: Heap, ptr: nat, b: Block, newSize: nat, at: nat, after: map<nat, byte>)
    requires InHeap(h, ptr, b)
    requires AllMoved(h.mem, after, b.raw + 1 + Offset(at, b.align), UserPtr(at, b.align), Common(b.size, newSize))
    ensures AllMoved(h.mem, after, ptr, UserPtr(at, b.align), Common(b.size, newSize))
            <==> Survives(h, ptr, b, newSize, at)
  {
    UserBytesMapped(h, ptr, b);
    MovedIsKeptIff(h.mem, after, b.raw + 1 + Offset(at, b.align), ptr, UserPtr(at, b.align), Common(b.size, newSize));
  }

  lemma UserBytesMapped(h: Heap, ptr: nat, b: Block)
    requires InHeap(h, ptr, b)
    ensures forall a :: ptr <= a < ptr + b.size ==> a in h.mem
  {
  }

  lemma AgreeingMoveSurvives(h: Heap, ptr: nat, b: Block, newSize: nat, at: nat)
    requires BlockOk(h, ptr, b) && at % b.align == b.raw % b.align
    ensures Survives(h, ptr, b, newSize, at)
  {
    OffsetsAgreeIff(at, b.raw, b.align);
    BlockInHeap(h, ptr, b);
    OwnBytesSame(h, ptr, b, Common(b.size, newSize));
  }

  /** Contents survive a move between raw addresses that agree modulo the alignment. */
  lemma AgreeingMoveKeepsData(h: Heap, ptr: nat, b: Block, newSize: nat, at: nat, fill: map<nat, byte>)
    requires BlockOk(h, ptr, b) && at % b.align == b.raw % b.align
    ensures KeepsData(h, ptr, b, newSize, at, fill)
  {
    AgreeingMoveSurvives(h, ptr, b, newSize, at);
    BlockInHeap(h, ptr, b);
    KeepsDataIff(h, ptr, b, newSize, at, fill);
  }

  lemma OwnBytesSame(h: Heap, ptr: nat, b: Block, n: nat)
    requires InHeap(h, ptr, b) && n <= b.size
    ensures SameBytes(h.mem, ptr, ptr, n)
  {
    UserBytesMapped(h, ptr, b);
    forall k | 0 <= k < n ensures SameByte(h.mem, ptr, ptr, k) { assert ptr + k in h.mem; }
  }

  /** The heap after Rust has written v to the first byte of its block. */
  function FirstByteWritten(h: Heap, ptr: nat, v: byte): Heap {
    h.(mem := h.mem[ptr := v])
  }

  /**
   * realloc is to keep the contents; it does, for all contents, exactly when the new raw address
   * agrees with the old one modulo the alignment.
   */
  lemma ReallocKeepsDataIff(h: Heap, ptr: nat, b: Block, newSize: nat, at: nat, fill: map<nat, byte>)
    requires BlockOk(h, ptr, b) && b.size > 0 && newSize > 0
    ensures (forall v: byte :: KeepsData(FirstByteWritten(h, ptr, v), ptr, b, newSize, at, fill))
            <==> at % b.align == b.raw % b.align
  {
    OffsetsAgreeIff(at, b.raw, b.align);
    if Offset(at, b.align) == Offset(b.raw, b.align) {
      forall v: byte ensures KeepsData(FirstByteWritten(h, ptr, v), ptr, b, newSize, at, fill) {
        WritingKeepsBlock(h, ptr, b, v);
        AgreeingMoveKeepsData(FirstByteWritten(h, ptr, v), ptr, b, newSize, at, fill);
      }
    } else {
      MisalignedMoveLosesData(h, ptr, b, newSize, at, fill);
    }
  }

  lemma WritingKeepsBlock(h: Heap, ptr: nat, b: Block, v: byte)
    requires BlockOk(h, ptr, b) && b.size > 0
    ensures BlockOk(FirstByteWritten(h, ptr, v), ptr, b)
  {
  }

  /** The byte that ends up first is not the one that was first. */
  lemma WrongByteMoved(h: Heap, ptr: nat, b: Block, newSize: nat, at: nat)
    requires InHeap(h, ptr, b) && b.size > 0 && newSize > 0
    requires b.raw + 1 + Offset(at, b.align) in h.mem && ptr in h.mem
    requires h.mem[b.raw + 1 + Offset(at, b.align)] != h.mem[ptr]
    ensures !Survives(h, ptr, b, newSize, at)
  {
    FirstByteDiffers(h.mem, b.raw + 1 + Offset(at, b.align), ptr, Common(b.size, newSize));
  }

  lemma FirstByteDiffers(mem: map<nat, byte>, from: nat, to: nat, n: nat)
    requires n > 0 && from in mem && to in mem && mem[from] != mem[to]
    ensures !SameBytes(mem, from, to, n)
  {
    assert !SameByte(mem, from, to, 0);
  }

  lemma MisalignedMoveLosesData(h: Heap, ptr: nat, b: Block, newSize: nat, at: nat, fill: map<nat, byte>)
    requires BlockOk(h, ptr, b) && b.size > 0 && newSize > 0
    requires Offset(at, b.align) != Offset(b.raw, b.align)
    ensures exists v: byte :: !KeepsData(FirstByteWritten(h, ptr, v), ptr, b, newSize, at, fill)
  {
    var v := LosingByte(h, ptr, b, newSize, at);
    var w := FirstByteWritten(h, ptr, v);
    BlockInHeap(w, ptr, b);
    KeepsDataIff(w, ptr, b, newSize, at, fill);
  }

  lemma LosingByte(h: Heap, ptr: nat, b: Block, newSize: nat, at: nat) returns (v: byte)
    requires BlockOk(h, ptr, b) && b.size > 0 && newSize > 0
    requires Offset(at, b.align) != Offset(b.raw, b.align)
    ensures BlockOk(FirstByteWritten(h, ptr, v), ptr, b) && !Survives(FirstByteWritten(h, ptr, v), ptr, b, newSize, at)
  {
    var from := b.raw + 1 + Offset(at, b.align);
    assert from in h.mem;
    v := if h.mem[from] == 0 then 1 else 0;
    WritingKeepsBlock(h, ptr, b, v);
    BlockInHeap(FirstByteWritten(h, ptr, v), ptr, b);
    WrongByteMoved(FirstByteWritten(h, ptr, v), ptr, b, newSize, at);
  }

  // ----- Which alignments a realloc can be trusted with -----

  /** A move that an allocator whose addresses are all multiples of `base` may make. */
  ghost predicate MovesOn(base: nat, h: Heap, ptr: nat, b: Block, newSize: nat, at: nat)
    requires base > 0
  {
    && BlockOk(h, ptr, b) && b.raw % base == 0 && at % base == 0
    && MayReturn(h, Some(b.raw), newSize + b.align, at)
  }

  /**
   * On such an allocator contents survive every move exactly for the alignments that divide `base`:
   * with the 16 bytes of max_align_t, for those up to 16.
   */
  lemma ReallocSafeIff(base: nat, align: nat)
    requires base > 0 && AlignOk(align)
    ensures (forall h, ptr, b, newSize, at, fill ::
               MovesOn(base, h, ptr, b, newSize, at) && b.align == align ==> KeepsData(h, ptr, b, newSize, at, fill))
            <==> base % align == 0
  {
    if base % align == 0 {
      forall h, ptr, b, newSize, at, fill | MovesOn(base, h, ptr, b, newSize, at) && b.align == align
        ensures KeepsData(h, ptr, b, newSize, at, fill)
      {
        MultipleOfMultiple(b.raw, base, align);
        MultipleOfMultiple(at, base, align);
        AgreeingMoveKeepsData(h, ptr, b, newSize, at, fill);
      }
    } else {
      var h, ptr, b, at := LosingMove(base, align);
      assert MovesOn(base, h, ptr, b, 1, at) && !KeepsData(h, ptr, b, 1, at, map[]);
    }
  }

  function ZeroBytes(start: nat, size: nat): (m: map<nat, byte>)
    ensures forall a :: start <= a < start + size ==> a in m
  {
    if size == 0 then map[] else ZeroBytes(start, size - 1)[start + size - 1 := 0]
  }

  /** A heap with one block of zero bytes. */
  ghost function OneBlock(raw: nat, size: nat, align: nat): (h: Heap)
    requires raw > 0 && AlignOk(align)
    ensures BlockOk(h, UserPtr(raw, align), Block(raw, size, align)) && h.raws == map[raw := size + align]
  {
    var ptr := UserPtr(raw, align);
    Heap(ZeroBytes(raw, size + align)[ptr - 1 := Offset(raw, align)], map[raw := size + align])
  }

  lemma LosingContents(h: Heap, ptr: nat, b: Block, newSize: nat, at: nat) returns (w: Heap)
    requires BlockOk(h, ptr, b) && b.size > 0 && newSize > 0 && at % b.align != b.raw % b.align
    ensures BlockOk(w, ptr, b) && w.raws == h.raws && !KeepsData(w, ptr, b, newSize, at, map[])
  {
    ReallocKeepsDataIff(h, ptr, b, newSize, at, map[]);
    var v: byte :| !KeepsData(FirstByteWritten(h, ptr, v), ptr, b, newSize, at, map[]);
    w := FirstByteWritten(h, ptr, v);
    WritingKeepsBlock(h, ptr, b, v);
  }

  /** Otherwise a block of one byte at `base` loses it when it moves to the next multiple. */
  lemma LosingMove(base: nat, align: nat) returns (h: Heap, ptr: nat, b: Block, at: nat)
    requires base > 0 && AlignOk(align) && base % align != 0
    ensures MovesOn(base, h, ptr, b, 1, at) && b == Block(base, 1, align) && at == 2 * base
    ensures !KeepsData(h, ptr, b, 1, at, map[])
  {
    b, at, ptr := Block(base, 1, align), 2 * base, UserPtr(base, align);
    var before := OneBlock(base, 1, align);
    NextMultiple(base, align);
    h := LosingContents(before, ptr, b, 1, at);
  }

  /** A concrete one: 32-byte alignment over addresses that are multiples of 16. */
  lemma AvxMoveLosesData() returns (h: Heap, ptr: nat, b: Block, at: nat)
    ensures MovesOn(16, h, ptr, b, 1, at) && b == Block(16, 1, 32) && at == 32
    ensures !KeepsData(h, ptr, b, 1, at, map[])
  {
    assert PowerOfTwo(2) && PowerOfTwo(8) && PowerOfTwo(32);
    h, ptr, b, at := LosingMove(16, 32);
  }

  lemma MultipleOfMultiple(x: nat, base: nat, align: nat)
    requires base > 0 && align > 0 && x % base == 0 && base % align == 0
    ensures x % align == 0
  {
    var k, m := x / base, base / align;
    assert x == k * base && base == m * align;
    MulAssoc(k, m, align);
    DivModUnique(k * m, 0, align);
  }

  lemma OffsetsAgreeIff(x: nat, y: nat, align: nat)
    requires align > 0
    ensures Offset(x, align) == Offset(y, align) <==> x % align == y % align
  {
    PointerIsAligned(x, align);
    PointerIsAligned(y, align);
    EqualDistancesIff(x, UserPtr(x, align), y, UserPtr(y, align), align);
  }

  // ----- In place -----

  /** `live` records what Rust holds, for the specification only. */
  predicate Addressable(raw: nat, align: nat) {
    align > 0 && raw + align < U64_LIMIT && PowerOfTwo(align)
  }

  class BashAllocator {
    var heap: Heap
    ghost var live: map<nat, Block>

    ghost function Current(): State
      reads this
    {
      State(heap, live)
    }

    method AllocAligned(raw: Option<nat>, size: nat, align: nat, at: nat, fill: map<nat, byte>) returns (ptr: nat)
      requires Addressable(at, align) && (raw.Some? ==> raw.value in heap.raws)
      modifies this`heap
      ensures heap == HeapAfter(old(heap), raw, size, align, at, fill)
      ensures ptr == UserPtr(at, align)
    {
      HeapAfterIs(heap, raw, size, align, at, fill);
      ptr := Reallocate(raw, size, align, at, fill);
    }

    method Reallocate(raw: Option<nat>, size: nat, align: nat, at: nat, fill: map<nat, byte>) returns (ptr: nat)
      requires Addressable(at, align) && (raw.Some? ==> raw.value in heap.raws)
      modifies this`heap
      ensures heap == WithOffset(XRealloc(old(heap), raw, size + align, at, fill), at, UserPtr(at, align))
      ensures ptr == UserPtr(at, align)
    {
      heap := XRealloc(heap, raw, size + align, at, fill);
      ptr := FindPointer(at, align);
      heap := WithOffset(heap, at, ptr);
    }

    /** The aligned address within a raw block. */
    method FindPointer(raw: nat, align: nat) returns (ptr: nat)
      requires Addressable(raw, align)
      ensures ptr == UserPtr(raw, align)
    {
      var addr := raw + 1;
      ptr := BitAnd(addr + align - 1, U64_LIMIT - align);
      MaskFindsPointer(raw, align);
    }

    method Alloc(size: nat, align: nat, at: nat, fill: map<nat, byte>) returns (ptr: nat)
      requires Allowed(Current(), Call.Alloc(size, align, at, fill)) && at + size + align < U64_LIMIT
      modifies this
      ensures Current() == Do(old(Current()), Call.Alloc(size, align, at, fill)) && ptr == UserPtr(at, align)
      ensures at < ptr && at in heap.raws && ptr + size <= at + heap.raws[at]
    {
      ptr := AllocAligned(None, size, align, at, fill);
      live := live[ptr := Block(at, size, align)];
    }

    method Realloc(ptr: nat, align: nat, newSize: nat, at: nat, fill: map<nat, byte>) returns (moved: nat)
      requires Allowed(Current(), Call.Realloc(ptr, newSize, at, fill)) && at + newSize + align < U64_LIMIT
      requires align == live[ptr].align && PowerOfTwo(align)
      modifies this
      ensures Current() == Do(old(Current()), Call.Realloc(ptr, newSize, at, fill)) && moved == UserPtr(at, align)
      ensures at < moved && at in heap.raws && moved + newSize <= at + heap.raws[at]
    {
      var raw := RawFromAligned(heap.mem, ptr);
      moved := AllocAligned(Some(raw), newSize, align, at, fill);
      live := (live - {ptr})[moved := Block(at, newSize, align)];
    }

    method Dealloc(ptr: nat)
      requires Allowed(Current(), Call.Dealloc(ptr))
      modifies this
      ensures Current() == Do(old(Current()), Call.Dealloc(ptr))
    {
      heap := heap.(raws := heap.raws - {RawFromAligned(heap.mem, ptr)});
      live := live - {ptr};
    }
  }
}
