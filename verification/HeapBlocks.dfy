/**
 The block list of the lwIP heap (net/lwip/core/mem.c, the branch without pools): the
 headers `struct mem` by their offset in `ram`, and the steps that change them.
 HeapMemory.dfy stores these headers in the bytes of the heap.
 */
module HeapBlocks {
  import opened Words

  /** MEM_SIZE_ALIGNED for the values in net/lwip/jos/lwipopts.h. */
  const SIZE: nat := 2228224
  const SIZEOF_STRUCT_MEM: nat := 12
  const MIN_SIZE_ALIGNED: nat := 12

  datatype Mem = Mem(next: nat, prev: nat, used: nat)

  /** The headers in the chain, with the sentinel at SIZE, and the lowest-free pointer. */
  datatype Heap = Heap(hd: map<nat, Mem>, lfree: nat)

  // ---------- Well-formedness ----------

  /**
   One block: aligned, large enough, linked both ways, and not free next to a free block unless `x`
   is one of the two.
   */
  ghost predicate BlockOk(hd: map<nat, Mem>, x: int, b: nat) {
    b in hd ==>
      && b <= SIZE && b % 4 == 0 && hd[b].used <= 1 && hd[b].prev <= SIZE
      && (b < SIZE ==>
        && b + SIZEOF_STRUCT_MEM + MIN_SIZE_ALIGNED <= hd[b].next <= SIZE
        && hd[b].next in hd
        && (hd[b].next < SIZE ==> hd[hd[b].next].prev == b)
        && (hd[b].used == 0 && hd[b].next < SIZE && b != x && hd[b].next != x ==> hd[hd[b].next].used == 1))
  }

  /** Blocks do not overlap and no block start lies inside another block. */
  ghost predicate GapOk(hd: map<nat, Mem>, b: nat, c: nat) {
    b in hd && c in hd && b < c ==> hd[b].next <= c
  }

  /** The previous block of `b` is one of the blocks. */
  ghost predicate PrevOk(hd: map<nat, Mem>, b: nat) {
    b in hd && 0 < b < SIZE ==> hd[b].prev in hd && hd[b].prev < b && hd[hd[b].prev].next == b
  }

  ghost predicate Shape(hd: map<nat, Mem>, x: int) {
    && 0 in hd && SIZE in hd && hd[0].prev == 0 && hd[SIZE].used == 1 && hd[SIZE].next == SIZE
    && (forall b :: BlockOk(hd, x, b))
    && (forall b, c :: GapOk(hd, b, c))
    && (forall b :: PrevOk(hd, b))
  }

  ghost predicate UsedBelow(h: Heap, b: nat) {
    b in h.hd && b < h.lfree ==> h.hd[b].used == 1
  }

  /** Nothing below the lowest-free pointer is free. */
  ghost predicate Low(h: Heap) {
    h.lfree in h.hd && forall b :: UsedBelow(h, b)
  }

  /** Every reachable heap. */
  ghost predicate Inv(h: Heap) {
    Shape(h.hd, -1) && Low(h) && (h.lfree < SIZE ==> h.hd[h.lfree].used == 0)
  }

  // ---------- mem_init ----------

  function InitialHeap(): Heap {
    Heap(map[0 := Mem(SIZE, 0, 0), SIZE := Mem(SIZE, SIZE, 1)], 0)
  }

  lemma InitialOk()
    ensures Inv(InitialHeap())
  {
    var h := InitialHeap();
    forall b ensures BlockOk(h.hd, -1, b) {}
    forall b, c ensures GapOk(h.hd, b, c) {}
    forall b ensures PrevOk(h.hd, b) {}
    forall b ensures UsedBelow(h, b) {}
  }

  // ---------- mem_free and plug_holes ----------

  predicate Live(hd: map<nat, Mem>, b: nat) {
    b in hd && b < SIZE && hd[b].used == 1
  }

  function Release(h: Heap, m: nat): Heap
    requires m in h.hd
  {
    Heap(h.hd[m := h.hd[m].(used := 0)], if m < h.lfree then m else h.lfree)
  }

  function PlugForward(h: Heap, m: nat): Heap
    requires m in h.hd && h.hd[m].next in h.hd && h.hd[h.hd[m].next].next in h.hd
  {
    var n := h.hd[m].next;
    if m != n && h.hd[n].used == 0 && n != SIZE then
      var nn := h.hd[n].next;
      var hd1 := h.hd[m := h.hd[m].(next := nn)];
      Heap(hd1[nn := hd1[nn].(prev := m)] - {n}, if h.lfree == n then m else h.lfree)
    else h
  }

  function PlugBackward(h: Heap, m: nat): Heap
    requires m in h.hd && h.hd[m].prev in h.hd && h.hd[m].next in h.hd
  {
    var p := h.hd[m].prev;
    if p != m && h.hd[p].used == 0 then
      var n := h.hd[m].next;
      var hd1 := h.hd[p := h.hd[p].(next := n)];
      Heap(hd1[n := hd1[n].(prev := p)] - {m}, if h.lfree == m then p else h.lfree)
    else h
  }

  lemma ReleaseKeeps(h: Heap, m: nat)
    requires Inv(h) && Live(h.hd, m)
    ensures var t := Release(h, m); Shape(t.hd, m) && Low(t) && (t.lfree < SIZE ==> t.hd[t.lfree].used == 0)
  {
    var t := Release(h, m);
    forall b ensures BlockOk(t.hd, m, b) { assert BlockOk(h.hd, -1, b); }
    forall b, c ensures GapOk(t.hd, b, c) { assert GapOk(h.hd, b, c); }
    forall b ensures PrevOk(t.hd, b) { assert PrevOk(h.hd, b); }
    forall b ensures UsedBelow(t, b) { assert UsedBelow(h, b); }
  }

  lemma PlugForwardKeeps(h: Heap, m: nat)
    requires Shape(h.hd, m) && Low(h) && (h.lfree < SIZE ==> h.hd[h.lfree].used == 0)
    requires m in h.hd && m < SIZE && h.hd[m].used == 0
    ensures h.hd[m].next in h.hd && h.hd[h.hd[m].next].next in h.hd
    ensures var t := PlugForward(h, m);
      && Shape(t.hd, m) && Low(t) && (t.lfree < SIZE ==> t.hd[t.lfree].used == 0)
      && m in t.hd && t.hd[m].used == 0 && t.hd[m].next in t.hd
      && (t.hd[m].next < SIZE ==> t.hd[t.hd[m].next].used == 1)
  {
    var n := h.hd[m].next;
    assert BlockOk(h.hd, m, m) && BlockOk(h.hd, m, n) && UsedBelow(h, m);
    var t := PlugForward(h, m);
    if h.hd[n].used == 0 && n != SIZE {
      var nn := h.hd[n].next;
      assert BlockOk(h.hd, m, nn) && UsedBelow(h, n);
      forall b ensures BlockOk(t.hd, m, b) { assert BlockOk(h.hd, m, b) && GapOk(h.hd, b, n) && PrevOk(h.hd, b); }
      forall b, c ensures GapOk(t.hd, b, c) { assert GapOk(h.hd, b, c) && GapOk(h.hd, n, c); }
      forall b ensures PrevOk(t.hd, b) { assert PrevOk(h.hd, b) && PrevOk(h.hd, nn) && BlockOk(h.hd, m, b); }
      forall b ensures UsedBelow(t, b) { assert UsedBelow(h, b); }
    }
  }

  lemma PlugBackwardKeeps(h: Heap, m: nat)
    requires Shape(h.hd, m) && Low(h) && (h.lfree < SIZE ==> h.hd[h.lfree].used == 0)
    requires m in h.hd && m < SIZE && h.hd[m].used == 0 && h.hd[m].next in h.hd
    requires h.hd[m].next < SIZE ==> h.hd[h.hd[m].next].used == 1
    ensures h.hd[m].prev in h.hd
    ensures Inv(PlugBackward(h, m))
  {
    var p, n := h.hd[m].prev, h.hd[m].next;
    assert BlockOk(h.hd, m, m) && PrevOk(h.hd, m) && BlockOk(h.hd, m, n);
    var t := PlugBackward(h, m);
    if p != m && h.hd[p].used == 0 {
      assert BlockOk(h.hd, m, p) && UsedBelow(h, p) && UsedBelow(h, m);
      forall b ensures BlockOk(t.hd, -1, b) { assert BlockOk(h.hd, m, b) && GapOk(h.hd, b, m) && PrevOk(h.hd, b); }
      forall b, c ensures GapOk(t.hd, b, c) { assert GapOk(h.hd, b, c) && GapOk(h.hd, m, c); }
      forall b ensures PrevOk(t.hd, b) { assert PrevOk(h.hd, b) && PrevOk(h.hd, n) && BlockOk(h.hd, m, b); }
      forall b ensures UsedBelow(t, b) { assert UsedBelow(h, b); }
    } else {
      forall b ensures BlockOk(t.hd, -1, b) { assert BlockOk(h.hd, m, b) && PrevOk(h.hd, m); }
    }
  }

  /** mem_free of the block at `m`. */
  ghost function Freed(h: Heap, m: nat): Heap
    requires Inv(h) && Live(h.hd, m)
  {
    ReleaseKeeps(h, m);
    PlugForwardKeeps(Release(h, m), m);
    var t := PlugForward(Release(h, m), m);
    PlugBackwardKeeps(t, m);
    PlugBackward(t, m)
  }

  /** A block that is live and keeps its extent. */
  ghost predicate Kept(hd: map<nat, Mem>, hd': map<nat, Mem>, b: nat) {
    Live(hd, b) ==> Live(hd', b) && hd'[b].next == hd[b].next
  }

  lemma FreedBlock(h: Heap, m: nat, b: nat)
    requires Inv(h) && Live(h.hd, m)
    ensures var hd := Freed(h, m).hd; if b == m then !Live(hd, m) else Kept(h.hd, hd, b) && Kept(hd, h.hd, b)
  {
    ReleaseKeeps(h, m);
    var r := Release(h, m);
    PlugForwardKeeps(r, m);
    assert BlockOk(h.hd, -1, b) && BlockOk(r.hd, m, b) && BlockOk(PlugForward(r, m).hd, m, b);
  }

  /** Freeing a block keeps the heap well formed, and the live blocks are the others, unmoved. */
  lemma FreedKeeps(h: Heap, m: nat)
    requires Inv(h) && Live(h.hd, m)
    ensures Inv(Freed(h, m))
    ensures forall b :: b != m ==> Kept(h.hd, Freed(h, m).hd, b) && Kept(Freed(h, m).hd, h.hd, b)
    ensures !Live(Freed(h, m).hd, m)
  {
    ReleaseKeeps(h, m);
    PlugForwardKeeps(Release(h, m), m);
    PlugBackwardKeeps(PlugForward(Release(h, m), m), m);
    FreedBlock(h, m, m);
    forall b | b != m ensures Kept(h.hd, Freed(h, m).hd, b) && Kept(Freed(h, m).hd, h.hd, b) { FreedBlock(h, m, b); }
  }

  // ---------- mem_malloc ----------

  /** LWIP_MEM_ALIGN_SIZE in u32 arithmetic, then the minimum. */
  function Rounded(size: nat): nat {
    var aligned := (size + 3) % U32 / 4 * 4;
    if aligned < MIN_SIZE_ALIGNED then MIN_SIZE_ALIGNED else aligned
  }

  /** Rounding keeps room for the request exactly when it does not wrap. */
  lemma RoundedHolds(size: nat)
    requires size < U32
    ensures Rounded(size) >= size <==> size <= U32 - 4
    ensures Rounded(size) % 4 == 0 && Rounded(size) >= MIN_SIZE_ALIGNED
  {
  }

  predicate Fits(hd: map<nat, Mem>, b: nat, size: nat) {
    b in hd && b < SIZE && hd[b].used == 0 && hd[b].next >= b + SIZEOF_STRUCT_MEM + size
  }

  /** The change mem_malloc makes to the block it has chosen. */
  function Take(hd: map<nat, Mem>, b: nat, size: nat): map<nat, Mem>
    requires b in hd && hd[b].next in hd
  {
    if hd[b].next >= b + SIZEOF_STRUCT_MEM + (size + SIZEOF_STRUCT_MEM + MIN_SIZE_ALIGNED) then
      var p2, n := b + SIZEOF_STRUCT_MEM + size, hd[b].next;
      var hd1 := hd[p2 := Mem(n, b, 0)][b := hd[b].(next := p2, used := 1)];
      if n != SIZE then hd1[n := hd1[n].(prev := p2)] else hd1
    else hd[b := hd[b].(used := 1)]
  }

  lemma TakeGap(h: Heap, b: nat, size: nat, c: nat, d: nat)
    requires Inv(h) && Fits(h.hd, b, size) && size >= MIN_SIZE_ALIGNED && size % 4 == 0 && h.hd[b].next in h.hd
    ensures GapOk(Take(h.hd, b, size), c, d)
  {
    assert BlockOk(h.hd, -1, b) && BlockOk(h.hd, -1, c) && BlockOk(h.hd, -1, d);
    assert GapOk(h.hd, c, d) && GapOk(h.hd, b, d) && GapOk(h.hd, c, b) && GapOk(h.hd, b, c);
  }

  lemma TakeShape(h: Heap, b: nat, size: nat)
    requires Inv(h) && Fits(h.hd, b, size) && size >= MIN_SIZE_ALIGNED && size % 4 == 0 && h.hd[b].next in h.hd
    ensures Shape(Take(h.hd, b, size), -1)
  {
    assert BlockOk(h.hd, -1, b);
    var n := h.hd[b].next;
    var hd := Take(h.hd, b, size);
    assert BlockOk(h.hd, -1, n) && GapOk(h.hd, b, b + SIZEOF_STRUCT_MEM + size);
    forall c ensures BlockOk(hd, -1, c) {
      assert BlockOk(h.hd, -1, c) && GapOk(h.hd, b, c) && GapOk(h.hd, c, b) && PrevOk(h.hd, c) && PrevOk(h.hd, b);
    }
    forall c, d ensures GapOk(hd, c, d) { TakeGap(h, b, size, c, d); }
    forall c ensures PrevOk(hd, c) { assert PrevOk(h.hd, c) && BlockOk(h.hd, -1, c) && GapOk(h.hd, b, c); }
  }

  lemma TakeKeeps(h: Heap, b: nat, size: nat)
    requires Inv(h) && Fits(h.hd, b, size) && size >= MIN_SIZE_ALIGNED && size % 4 == 0
    ensures h.hd[b].next in h.hd
    ensures var hd := Take(h.hd, b, size);
      && Shape(hd, -1) && Low(h.(hd := hd)) && (h.lfree < SIZE && b != h.lfree ==> hd[h.lfree].used == 0)
      && Live(hd, b) && hd[b].next >= b + SIZEOF_STRUCT_MEM + size
      && (forall c :: Kept(h.hd, hd, c))
      && (forall c :: c != b ==> Kept(hd, h.hd, c))
  {
    assert BlockOk(h.hd, -1, b);
    var n := h.hd[b].next;
    var hd := Take(h.hd, b, size);
    assert BlockOk(h.hd, -1, n) && UsedBelow(h, b) && GapOk(h.hd, b, b + SIZEOF_STRUCT_MEM + size);
    TakeShape(h, b, size);
    forall c ensures UsedBelow(h.(hd := hd), c) { assert UsedBelow(h, c); }
    forall c ensures Kept(h.hd, hd, c) && (c != b ==> Kept(hd, h.hd, c)) {
      assert BlockOk(h.hd, -1, c) && GapOk(h.hd, b, c);
    }
  }

  // ---------- mem_realloc ----------

  function Payload(hd: map<nat, Mem>, b: nat): int
    requires b in hd
  {
    hd[b].next - b - SIZEOF_STRUCT_MEM
  }

  /** mem_realloc of the block at `b`, for a rounded size below the present one. */
  function Shrunk(h: Heap, b: nat, size: nat): Heap
    requires b in h.hd && h.hd[b].next in h.hd && h.hd[h.hd[b].next].next in h.hd
  {
    var hd, n, p2 := h.hd, h.hd[b].next, b + SIZEOF_STRUCT_MEM + size;
    if hd[n].used == 0 then
      var nn := hd[n].next;
      var hd1 := (hd - {n})[p2 := Mem(nn, b, 0)][b := hd[b].(next := p2)];
      Heap(if nn != SIZE && nn in hd1 then hd1[nn := hd1[nn].(prev := p2)] else hd1,
           if h.lfree == n then p2 else h.lfree)
    else if size + SIZEOF_STRUCT_MEM + MIN_SIZE_ALIGNED <= Payload(hd, b) then
      var hd1 := hd[p2 := Mem(n, b, 0)][b := hd[b].(next := p2)];
      Heap(if n != SIZE then hd1[n := hd1[n].(prev := p2)] else hd1, if p2 < h.lfree then p2 else h.lfree)
    else h
  }

  /** The free block after `b` moves down to the end of the shrunk block. */
  ghost predicate Moving(h: Heap, b: nat, size: nat) {
    && Inv(h) && Live(h.hd, b) && MIN_SIZE_ALIGNED <= size < Payload(h.hd, b) && size % 4 == 0
    && h.hd[b].next in h.hd && h.hd[h.hd[b].next].next in h.hd && h.hd[h.hd[b].next].used == 0
  }

  lemma MoveBlock(h: Heap, b: nat, size: nat, c: nat)
    requires Moving(h, b, size)
    ensures BlockOk(Shrunk(h, b, size).hd, -1, c)
  {
    var n, p2 := h.hd[b].next, b + SIZEOF_STRUCT_MEM + size;
    assert BlockOk(h.hd, -1, b) && BlockOk(h.hd, -1, n) && BlockOk(h.hd, -1, h.hd[n].next) && GapOk(h.hd, b, p2)
      && PrevOk(h.hd, n);
    assert BlockOk(h.hd, -1, c) && GapOk(h.hd, b, c) && GapOk(h.hd, c, n) && PrevOk(h.hd, c);
  }

  lemma MoveGap(h: Heap, b: nat, size: nat, c: nat, d: nat)
    requires Moving(h, b, size)
    ensures GapOk(Shrunk(h, b, size).hd, c, d)
  {
    var n, p2 := h.hd[b].next, b + SIZEOF_STRUCT_MEM + size;
    assert BlockOk(h.hd, -1, b) && BlockOk(h.hd, -1, n) && BlockOk(h.hd, -1, c) && GapOk(h.hd, b, p2);
    assert GapOk(h.hd, c, d) && GapOk(h.hd, b, d) && GapOk(h.hd, n, d) && GapOk(h.hd, b, c) && GapOk(h.hd, c, b);
  }

  lemma MoveShape(h: Heap, b: nat, size: nat)
    requires Moving(h, b, size)
    ensures Shape(Shrunk(h, b, size).hd, -1)
  {
    var hd, n, p2 := Shrunk(h, b, size).hd, h.hd[b].next, b + SIZEOF_STRUCT_MEM + size;
    assert BlockOk(h.hd, -1, b) && BlockOk(h.hd, -1, n) && GapOk(h.hd, b, p2) && PrevOk(h.hd, n);
    forall c ensures BlockOk(hd, -1, c) { MoveBlock(h, b, size, c); }
    forall c, d ensures GapOk(hd, c, d) { MoveGap(h, b, size, c, d); }
    forall c ensures PrevOk(hd, c) { assert PrevOk(h.hd, c) && BlockOk(h.hd, -1, c) && GapOk(h.hd, b, c); }
  }

  lemma ShrunkIntoFree(h: Heap, b: nat, size: nat)
    requires Moving(h, b, size)
    ensures var t := Shrunk(h, b, size);
      && Inv(t)
      && Live(t.hd, b) && t.hd[b].next == b + SIZEOF_STRUCT_MEM + size
      && (forall c :: c != b ==> Kept(h.hd, t.hd, c) && Kept(t.hd, h.hd, c))
  {
    MoveShape(h, b, size);
    var t, n, p2 := Shrunk(h, b, size), h.hd[b].next, b + SIZEOF_STRUCT_MEM + size;
    assert BlockOk(h.hd, -1, b) && BlockOk(h.hd, -1, n) && GapOk(h.hd, b, p2) && UsedBelow(h, n);
    forall c ensures UsedBelow(t, c) { assert UsedBelow(h, c) && GapOk(h.hd, b, c) && GapOk(h.hd, b, h.lfree); }
    forall c | c != b ensures Kept(h.hd, t.hd, c) && Kept(t.hd, h.hd, c) {
      assert BlockOk(h.hd, -1, c) && GapOk(h.hd, b, c);
    }
  }

  /** The end of the block at `b` becomes a free block. */
  ghost predicate Splitting(h: Heap, b: nat, size: nat) {
    && Inv(h) && Live(h.hd, b) && MIN_SIZE_ALIGNED <= size && size % 4 == 0
    && size + SIZEOF_STRUCT_MEM + MIN_SIZE_ALIGNED <= Payload(h.hd, b)
    && h.hd[b].next in h.hd && h.hd[h.hd[b].next].next in h.hd && h.hd[h.hd[b].next].used != 0
  }

  lemma SplitBlock(h: Heap, b: nat, size: nat, c: nat)
    requires Splitting(h, b, size)
    ensures BlockOk(Shrunk(h, b, size).hd, -1, c)
  {
    assert BlockOk(h.hd, -1, b) && BlockOk(h.hd, -1, h.hd[b].next) && GapOk(h.hd, b, b + SIZEOF_STRUCT_MEM + size);
    assert BlockOk(h.hd, -1, c) && GapOk(h.hd, b, c) && GapOk(h.hd, c, b) && PrevOk(h.hd, c);
  }

  lemma SplitGap(h: Heap, b: nat, size: nat, c: nat, d: nat)
    requires Splitting(h, b, size)
    ensures GapOk(Shrunk(h, b, size).hd, c, d)
  {
    assert BlockOk(h.hd, -1, b) && BlockOk(h.hd, -1, h.hd[b].next) && BlockOk(h.hd, -1, c) && BlockOk(h.hd, -1, d);
    assert GapOk(h.hd, c, d) && GapOk(h.hd, b, d) && GapOk(h.hd, c, b) && GapOk(h.hd, b, c);
  }

  lemma SplitShape(h: Heap, b: nat, size: nat)
    requires Splitting(h, b, size)
    ensures Shape(Shrunk(h, b, size).hd, -1)
  {
    var hd, n, p2 := Shrunk(h, b, size).hd, h.hd[b].next, b + SIZEOF_STRUCT_MEM + size;
    assert BlockOk(h.hd, -1, b) && BlockOk(h.hd, -1, n) && GapOk(h.hd, b, p2);
    forall c ensures BlockOk(hd, -1, c) { SplitBlock(h, b, size, c); }
    forall c, d ensures GapOk(hd, c, d) { SplitGap(h, b, size, c, d); }
    forall c ensures PrevOk(hd, c) { assert PrevOk(h.hd, c) && BlockOk(h.hd, -1, c) && GapOk(h.hd, b, c); }
  }

  lemma ShrunkBeforeUsed(h: Heap, b: nat, size: nat)
    requires Inv(h) && Live(h.hd, b) && MIN_SIZE_ALIGNED <= size < Payload(h.hd, b) && size % 4 == 0
    requires h.hd[b].next in h.hd && h.hd[h.hd[b].next].next in h.hd && h.hd[h.hd[b].next].used != 0
    ensures var t := Shrunk(h, b, size);
      && Inv(t)
      && Live(t.hd, b)
      && t.hd[b].next == (if size + SIZEOF_STRUCT_MEM + MIN_SIZE_ALIGNED <= Payload(h.hd, b)
                          then b + SIZEOF_STRUCT_MEM + size else h.hd[b].next)
      && (forall c :: c != b ==> Kept(h.hd, t.hd, c) && Kept(t.hd, h.hd, c))
  {
    if size + SIZEOF_STRUCT_MEM + MIN_SIZE_ALIGNED <= Payload(h.hd, b) {
      SplitShape(h, b, size);
      var t, n, p2 := Shrunk(h, b, size), h.hd[b].next, b + SIZEOF_STRUCT_MEM + size;
      assert BlockOk(h.hd, -1, b) && BlockOk(h.hd, -1, n) && GapOk(h.hd, b, p2);
      forall c ensures UsedBelow(t, c) { assert UsedBelow(h, c) && GapOk(h.hd, b, c); }
      forall c | c != b ensures Kept(h.hd, t.hd, c) && Kept(t.hd, h.hd, c) {
        assert BlockOk(h.hd, -1, c) && GapOk(h.hd, b, c);
      }
    }
  }

  lemma ShrunkKeeps(h: Heap, b: nat, size: nat)
    requires Inv(h) && Live(h.hd, b) && MIN_SIZE_ALIGNED <= size < Payload(h.hd, b) && size % 4 == 0
    ensures h.hd[b].next in h.hd && h.hd[h.hd[b].next].next in h.hd
    ensures var t := Shrunk(h, b, size);
      && Inv(t)
      && Live(t.hd, b) && b + SIZEOF_STRUCT_MEM + size <= t.hd[b].next <= h.hd[b].next
      && (forall c :: c != b ==> Kept(h.hd, t.hd, c) && Kept(t.hd, h.hd, c))
  {
    assert BlockOk(h.hd, -1, b);
    var n, p2 := h.hd[b].next, b + SIZEOF_STRUCT_MEM + size;
    assert BlockOk(h.hd, -1, n) && GapOk(h.hd, b, p2);
    if h.hd[n].used == 0 {
      ShrunkIntoFree(h, b, size);
    } else {
      ShrunkBeforeUsed(h, b, size);
    }
  }

  // ---------- What the invariant gives ----------

  /** Every byte below SIZE lies in exactly one block. */
  lemma {:induction false} BlockOfByte(hd: map<nat, Mem>, from: nat, x: nat) returns (b: nat)
    requires Shape(hd, -1) && from in hd && from <= x < SIZE
    ensures b in hd && b <= x < hd[b].next
    ensures forall c :: c in hd && c <= x < hd[c].next ==> c == b
    decreases x - from
  {
    assert BlockOk(hd, -1, from);
    if x < hd[from].next {
      b := from;
      forall c | c in hd && c <= x < hd[c].next ensures c == b {
        assert GapOk(hd, b, c) && GapOk(hd, c, b);
      }
    } else {
      b := BlockOfByte(hd, hd[from].next, x);
    }
  }

  /** The block starts met by following `next`. */
  ghost function Chain(hd: map<nat, Mem>, from: nat): seq<nat>
    requires Shape(hd, -1) && from in hd
    decreases SIZE - from
  {
    assert BlockOk(hd, -1, from);
    if from == SIZE then [SIZE] else [from] + Chain(hd, hd[from].next)
  }

  /** Following `next` from the start of the heap meets every block once, in address order, and ends at the sentinel. */
  lemma {:induction false} ChainMeetsEveryBlock(hd: map<nat, Mem>, from: nat)
    requires Shape(hd, -1) && from in hd
    ensures forall c :: c in Chain(hd, from) <==> c in hd && from <= c
    ensures forall i, j :: 0 <= i < j < |Chain(hd, from)| ==> Chain(hd, from)[i] < Chain(hd, from)[j]
    ensures Chain(hd, from)[|Chain(hd, from)| - 1] == SIZE
    decreases SIZE - from
  {
    assert BlockOk(hd, -1, from);
    if from < SIZE {
      var rest := Chain(hd, hd[from].next);
      ChainMeetsEveryBlock(hd, hd[from].next);
      forall c ensures c in Chain(hd, from) <==> c in hd && from <= c {
        assert GapOk(hd, from, c);
      }
      forall j | 0 <= j < |rest| ensures from < rest[j] {
        assert rest[j] in rest;
      }
    } else {
      forall c ensures c in Chain(hd, from) <==> c in hd && from <= c {
        assert BlockOk(hd, -1, c);
      }
    }
  }

  /** A heap without live blocks is the single free block that mem_init made. */
  lemma NoLiveBlockIsInitial(h: Heap)
    requires Inv(h) && forall b :: !Live(h.hd, b)
    ensures h.hd.Keys == {0, SIZE} && h.hd[0] == Mem(SIZE, 0, 0) && h.lfree == 0
  {
    assert BlockOk(h.hd, -1, 0) && !Live(h.hd, 0) && UsedBelow(h, 0);
    var n := h.hd[0].next;
    assert !Live(h.hd, n) && BlockOk(h.hd, -1, n);
    forall c ensures c in h.hd <==> c == 0 || c == SIZE {
      assert GapOk(h.hd, 0, c) && BlockOk(h.hd, -1, c);
    }
  }

  ghost predicate FreeableInOrder(h: Heap, ms: seq<nat>)
    requires Inv(h)
    decreases |ms|
  {
    ms != [] ==> Live(h.hd, ms[0]) && (FreedKeeps(h, ms[0]); FreeableInOrder(Freed(h, ms[0]), ms[1..]))
  }

  ghost function FreedAll(h: Heap, ms: seq<nat>): Heap
    requires Inv(h) && FreeableInOrder(h, ms)
    decreases |ms|
  {
    if ms == [] then h else FreedKeeps(h, ms[0]); FreedAll(Freed(h, ms[0]), ms[1..])
  }

  ghost predicate ListsLive(h: Heap, ms: seq<nat>) {
    && (forall b :: Live(h.hd, b) <==> b in ms)
    && (forall i, j :: 0 <= i < j < |ms| ==> ms[i] != ms[j])
  }

  /** Freeing all live blocks, in any order, succeeds and restores the initial heap. */
  lemma {:induction false} FreeAllInAnyOrder(h: Heap, ms: seq<nat>)
    requires Inv(h) && ListsLive(h, ms)
    ensures FreeableInOrder(h, ms)
    ensures var t := FreedAll(h, ms); t.hd.Keys == {0, SIZE} && t.hd[0] == Mem(SIZE, 0, 0) && t.lfree == 0
    decreases |ms|
  {
    if ms == [] {
      forall b ensures !Live(h.hd, b) { assert b !in ms; }
      NoLiveBlockIsInitial(h);
    } else {
      var m, t := ms[0], Freed(h, ms[0]);
      FreedKeeps(h, m);
      forall b ensures Live(t.hd, b) <==> b in ms[1..] {
        assert Live(h.hd, b) <==> b in ms;
        assert b != m ==> Kept(h.hd, t.hd, b) && Kept(t.hd, h.hd, b);
        assert b in ms <==> b == m || b in ms[1..];
      }
      FreeAllInAnyOrder(t, ms[1..]);
    }
  }
}
