/**
 The lwIP heap in its bytes: headers are stored little-endian in `ram` among the payloads,
 and the routines of net/lwip/core/mem.c read and write them there.
 */
module HeapMemory {
  import opened Options
  import opened Words
  import opened HeapBlocks

  // ---------- struct mem in bytes ----------

  function Dec(s: seq<byte>, p: nat): Mem
    requires p + SIZEOF_STRUCT_MEM <= |s|
  {
    Mem(Get32(s, p), Get32(s, p + 4), s[p + 8])
  }

  ghost predicate LayoutAt(s: seq<byte>, hd: map<nat, Mem>, b: nat) {
    b in hd ==> b + SIZEOF_STRUCT_MEM <= |s| && Dec(s, b) == hd[b]
  }

  /** The bytes hold the headers. */
  ghost predicate Layout(s: seq<byte>, hd: map<nat, Mem>) {
    forall b: nat :: LayoutAt(s, hd, b)
  }

  /** A header at `p` overlaps no other header. */
  ghost predicate Apart(hd: map<nat, Mem>, p: nat) {
    forall b :: b in hd && b != p ==> b + SIZEOF_STRUCT_MEM <= p || p + SIZEOF_STRUCT_MEM <= b
  }

  lemma NextStored(s: seq<byte>, hd: map<nat, Mem>, p: nat, v: nat)
    requires Layout(s, hd) && p in hd && Apart(hd, p) && v < U32
    ensures p + SIZEOF_STRUCT_MEM <= |s| && Layout(Put32(s, p, v), hd[p := hd[p].(next := v)])
  {
    assert LayoutAt(s, hd, p);
    var s', hd' := Put32(s, p, v), hd[p := hd[p].(next := v)];
    forall b: nat ensures LayoutAt(s', hd', b) {
      assert LayoutAt(s, hd, b);
      if b in hd {
        Get32Put32(s, p, v, b);
        Get32Put32(s, p, v, b + 4);
      }
    }
  }

  lemma PrevStored(s: seq<byte>, hd: map<nat, Mem>, p: nat, v: nat)
    requires Layout(s, hd) && p in hd && Apart(hd, p) && v < U32
    ensures p + SIZEOF_STRUCT_MEM <= |s| && Layout(Put32(s, p + 4, v), hd[p := hd[p].(prev := v)])
  {
    assert LayoutAt(s, hd, p);
    var s', hd' := Put32(s, p + 4, v), hd[p := hd[p].(prev := v)];
    forall b: nat ensures LayoutAt(s', hd', b) {
      assert LayoutAt(s, hd, b);
      if b in hd {
        Get32Put32(s, p + 4, v, b);
        Get32Put32(s, p + 4, v, b + 4);
      }
    }
  }

  lemma UsedStored(s: seq<byte>, hd: map<nat, Mem>, p: nat, v: byte)
    requires Layout(s, hd) && p in hd && Apart(hd, p)
    ensures p + SIZEOF_STRUCT_MEM <= |s| && Layout(s[p + 8 := v], hd[p := hd[p].(used := v)])
  {
    assert LayoutAt(s, hd, p);
    var s', hd' := s[p + 8 := v], hd[p := hd[p].(used := v)];
    forall b: nat ensures LayoutAt(s', hd', b) { assert LayoutAt(s, hd, b); }
  }

  /** Any bytes at a place apart from the headers can be read as one more header. */
  lemma HeaderAdded(s: seq<byte>, hd: map<nat, Mem>, p: nat)
    requires Layout(s, hd) && p + SIZEOF_STRUCT_MEM <= |s|
    ensures Layout(s, hd[p := Dec(s, p)])
  {
    var hd' := hd[p := Dec(s, p)];
    forall b: nat ensures LayoutAt(s, hd', b) { assert LayoutAt(s, hd, b); }
  }

  lemma HeaderDropped(s: seq<byte>, hd: map<nat, Mem>, p: nat)
    requires Layout(s, hd)
    ensures Layout(s, hd - {p})
  {
    var hd' := hd - {p};
    forall b: nat ensures LayoutAt(s, hd', b) { assert LayoutAt(s, hd, b); }
  }

  lemma ShapeApart(hd: map<nat, Mem>, x: int, p: nat)
    requires Shape(hd, x) && p in hd
    ensures Apart(hd, p)
  {
    forall b | b in hd && b != p ensures b + SIZEOF_STRUCT_MEM <= p || p + SIZEOF_STRUCT_MEM <= b {
      assert GapOk(hd, b, p) && GapOk(hd, p, b) && BlockOk(hd, x, b) && BlockOk(hd, x, p);
    }
  }

  // ---------- Payloads ----------

  /** The payload of every live block of `hd` holds the same bytes in both. */
  ghost predicate PayloadsKept(s: seq<byte>, s': seq<byte>, hd: map<nat, Mem>) {
    && |s| == |s'|
    && forall c: nat, x: nat :: Live(hd, c) && c + SIZEOF_STRUCT_MEM <= x < hd[c].next && x < |s| ==> s'[x] == s[x]
  }

  /** `s'` differs from `s` at most inside the header at `p`. */
  ghost predicate OnlyHeader(s: seq<byte>, s': seq<byte>, p: nat) {
    |s| == |s'| && forall x: nat :: x < |s| && !(p <= x < p + SIZEOF_STRUCT_MEM) ==> s'[x] == s[x]
  }

  /** A header at `p` would lie outside every live payload. */
  ghost predicate ClearOf(hd: map<nat, Mem>, p: nat) {
    forall c :: Live(hd, c) ==> p <= c || hd[c].next <= p
  }

  lemma HeaderStoreKeepsPayloads(s: seq<byte>, s': seq<byte>, hd: map<nat, Mem>, p: nat)
    requires OnlyHeader(s, s', p) && ClearOf(hd, p)
    ensures PayloadsKept(s, s', hd)
  {
  }

  lemma BlockStartsClear(hd: map<nat, Mem>, p: nat)
    requires Shape(hd, -1) && p in hd
    ensures ClearOf(hd, p)
  {
    forall c | Live(hd, c) ensures p <= c || hd[c].next <= p { assert GapOk(hd, c, p); }
  }

  /** A place inside block `b` is clear of the live payloads once `b` ends there or is not live. */
  lemma InsideClear(hd: map<nat, Mem>, b: nat, p: nat)
    requires Shape(hd, -1) && b in hd && b < p <= hd[b].next
    ensures ClearOf(hd[b := hd[b].(next := p)], p) && (!Live(hd, b) ==> ClearOf(hd, p))
  {
    forall c | Live(hd, c) && c != b ensures p <= c || hd[c].next <= p {
      assert GapOk(hd, c, b) && GapOk(hd, b, c);
    }
  }

  lemma PayloadsKeptChain(a: seq<byte>, b: seq<byte>, c: seq<byte>, hd: map<nat, Mem>)
    requires PayloadsKept(a, b, hd) && PayloadsKept(b, c, hd)
    ensures PayloadsKept(a, c, hd)
  {
    forall d: nat, x: nat | Live(hd, d) && d + SIZEOF_STRUCT_MEM <= x < hd[d].next && x < |a| ensures c[x] == a[x] {
      assert b[x] == a[x];
    }
  }

  /** The places that mem_realloc writes are clear of the payloads that remain. */
  lemma ShrinkClear(hd: map<nat, Mem>, b: nat, p: nat, q: nat)
    requires Shape(hd, -1) && b in hd && b < p <= hd[b].next && hd[b].next <= q && q in hd
    ensures var live := hd[b := hd[b].(next := p)]; ClearOf(live, b) && ClearOf(live, p) && ClearOf(live, q)
  {
    InsideClear(hd, b, p);
    BlockStartsClear(hd, b);
    BlockStartsClear(hd, q);
  }

  /** Replacing the free header at `n`, the next block of `b`, by one at `p` below it overlaps no other header. */
  lemma MovedApart(hd: map<nat, Mem>, b: nat, p: nat, n: nat, nn: nat)
    requires
      && Shape(hd, -1) && b in hd && b < SIZE && n == hd[b].next && n in hd && n < SIZE && nn == hd[n].next
      && nn in hd
    requires b + SIZEOF_STRUCT_MEM <= p < n
    ensures var rest := hd - {n};
      && p !in rest && Apart(rest, p) && Apart(rest, b) && Apart(rest, nn)
      && p + SIZEOF_STRUCT_MEM <= nn && b in rest && nn in rest && nn <= SIZE
    ensures var live := hd[b := hd[b].(next := p)]; ClearOf(live, b) && ClearOf(live, p) && ClearOf(live, nn)
  {
    assert BlockOk(hd, -1, b) && BlockOk(hd, -1, n) && GapOk(hd, b, p);
    ShapeApart(hd, -1, b);
    ShapeApart(hd, -1, nn);
    ShrinkClear(hd, b, p, nn);
    forall c | c in hd && c != n ensures c + SIZEOF_STRUCT_MEM <= p || p + SIZEOF_STRUCT_MEM <= c {
      assert GapOk(hd, b, c) && GapOk(hd, c, b) && GapOk(hd, n, c) && BlockOk(hd, -1, c);
    }
  }

  /** A new header with a minimal block on either side inside block `b` overlaps no header. */
  lemma SplitApart(hd: map<nat, Mem>, b: nat, p: nat)
    requires Shape(hd, -1) && b in hd && b < SIZE
    requires b + SIZEOF_STRUCT_MEM <= p && p + SIZEOF_STRUCT_MEM <= hd[b].next
    ensures p !in hd && Apart(hd, p) && Apart(hd[p := Mem(0, 0, 0)], b) && Apart(hd[p := Mem(0, 0, 0)], hd[b].next)
  {
    assert GapOk(hd, b, p) && BlockOk(hd, -1, b);
    ShapeApart(hd, -1, b);
    ShapeApart(hd, -1, hd[b].next);
    forall c | c in hd && c != p ensures c + SIZEOF_STRUCT_MEM <= p || p + SIZEOF_STRUCT_MEM <= c {
      assert GapOk(hd, b, c) && GapOk(hd, c, b) && BlockOk(hd, -1, c);
    }
  }

  class LwipHeap {
    const ram: array<byte>
    var lfree: nat
    ghost var hd: map<nat, Mem>

    ghost function Blocks(): Heap
      reads this
    {
      Heap(hd, lfree)
    }

    ghost predicate Stored()
      reads this, ram
    {
      ram.Length == SIZE + SIZEOF_STRUCT_MEM && Layout(ram[..], hd)
    }

    ghost predicate Valid()
      reads this, ram
    {
      Stored() && Inv(Blocks())
    }

    function NextAt(p: nat): (v: nat)
      requires p + SIZEOF_STRUCT_MEM <= ram.Length
      reads ram
      ensures v == Dec(ram[..], p).next
    {
      ram[p] as int + 0x100 * (ram[p + 1] as int) + 0x1_0000 * (ram[p + 2] as int) + 0x100_0000 * (ram[p + 3] as int)
    }

    function PrevAt(p: nat): (v: nat)
      requires p + SIZEOF_STRUCT_MEM <= ram.Length
      reads ram
      ensures v == Dec(ram[..], p).prev
    {
      ram[p + 4] as int + 0x100 * (ram[p + 5] as int) + 0x1_0000 * (ram[p + 6] as int)
        + 0x100_0000 * (ram[p + 7] as int)
    }

    function UsedAt(p: nat): (v: nat)
      requires p + SIZEOF_STRUCT_MEM <= ram.Length
      reads ram
      ensures v == Dec(ram[..], p).used
    {
      ram[p + 8]
    }

    method SetNext(p: nat, v: nat)
      requires Stored() && p in hd && Apart(hd, p) && v < U32
      modifies ram, this`hd
      ensures Stored() && hd == old(hd)[p := old(hd)[p].(next := v)]
      ensures OnlyHeader(old(ram[..]), ram[..], p)
    {
      NextStored(ram[..], hd, p, v);
      ram[p], ram[p + 1], ram[p + 2], ram[p + 3] := v % 0x100, v / 0x100 % 0x100, v / 0x1_0000 % 0x100,
        v / 0x100_0000 % 0x100;
      assert ram[..] == Put32(old(ram[..]), p, v);
      hd := hd[p := hd[p].(next := v)];
    }

    method SetPrev(p: nat, v: nat)
      requires Stored() && p in hd && Apart(hd, p) && v < U32
      modifies ram, this`hd
      ensures Stored() && hd == old(hd)[p := old(hd)[p].(prev := v)]
      ensures OnlyHeader(old(ram[..]), ram[..], p)
    {
      PrevStored(ram[..], hd, p, v);
      ram[p + 4], ram[p + 5], ram[p + 6], ram[p + 7] := v % 0x100, v / 0x100 % 0x100, v / 0x1_0000 % 0x100,
        v / 0x100_0000 % 0x100;
      assert ram[..] == Put32(old(ram[..]), p + 4, v);
      hd := hd[p := hd[p].(prev := v)];
    }

    method SetUsed(p: nat, v: byte)
      requires Stored() && p in hd && Apart(hd, p)
      modifies ram, this`hd
      ensures Stored() && hd == old(hd)[p := old(hd)[p].(used := v)]
      ensures OnlyHeader(old(ram[..]), ram[..], p)
    {
      UsedStored(ram[..], hd, p, v);
      ram[p + 8] := v;
      assert ram[..] == old(ram[..])[p + 8 := v];
      hd := hd[p := hd[p].(used := v)];
    }

    /** The three stores that make a header at a place where none was. */
    method NewHeader(p: nat, next: nat, prev: nat)
      requires Stored() && p !in hd && Apart(hd, p) && p + SIZEOF_STRUCT_MEM <= ram.Length && next < U32 && prev < U32
      modifies ram, this`hd
      ensures Stored() && hd == old(hd)[p := Mem(next, prev, 0)]
      ensures OnlyHeader(old(ram[..]), ram[..], p)
    {
      HeaderAdded(ram[..], hd, p);
      hd := hd[p := Dec(ram[..], p)];
      SetUsed(p, 0);
      SetNext(p, next);
      SetPrev(p, prev);
    }

    /** mem_init */
    constructor ()
      ensures Valid() && fresh(ram) && Blocks() == InitialHeap()
    {
      ram := new byte[SIZE + SIZEOF_STRUCT_MEM](_ => 0);
      lfree := 0;
      hd := map[];
      new;
      NewHeader(0, SIZE, 0);
      NewHeader(SIZE, SIZE, SIZE);
      SetUsed(SIZE, 1);
      InitialOk();
    }

    /** What the owner of a block does with it: a store inside its payload. */
    method StorePayload(b: nat, i: nat, v: byte)
      requires Valid() && Live(hd, b) && i < Payload(hd, b)
      modifies ram
      ensures Valid() && b + SIZEOF_STRUCT_MEM + i < ram.Length
        && ram[..] == old(ram[..])[b + SIZEOF_STRUCT_MEM + i := v]
      ensures PayloadsKept(old(ram[..]), ram[..], hd - {b})
    {
      var x := b + SIZEOF_STRUCT_MEM + i;
      ghost var s := ram[..];
      assert BlockOk(hd, -1, b);
      ram[x] := v;
      assert ram[..] == s[x := v];
      forall c: nat ensures LayoutAt(ram[..], hd, c) {
        assert LayoutAt(s, hd, c) && GapOk(hd, b, c) && GapOk(hd, c, b) && BlockOk(hd, -1, c);
      }
      forall c: nat, y: nat | Live(hd - {b}, c) && c + SIZEOF_STRUCT_MEM <= y < hd[c].next && y < |s|
        ensures ram[..][y] == s[y]
      {
        assert GapOk(hd, b, c) && GapOk(hd, c, b);
      }
    }

    /** plug_holes, forward part, for the block `m` that has just been freed. */
    method JoinNext(m: nat, ghost live: map<nat, Mem>)
      requires Stored() && Shape(hd, m) && Low(Blocks()) && (lfree < SIZE ==> hd[lfree].used == 0)
      requires m in hd && m < SIZE && hd[m].used == 0 && hd[m].next in hd && hd[hd[m].next].next in hd
      requires Shape(live, -1) && hd.Keys <= live.Keys
      modifies ram, this`hd, this`lfree
      ensures Stored() && Blocks() == PlugForward(old(Blocks()), m)
      ensures PayloadsKept(old(ram[..]), ram[..], live)
    {
      assert LayoutAt(ram[..], hd, m) && BlockOk(hd, m, m);
      var n := NextAt(m);
      assert LayoutAt(ram[..], hd, n) && BlockOk(hd, m, n);
      if m != n && UsedAt(n) == 0 && n != SIZE {
        if lfree == n {
          lfree := m;
        }
        var nn := NextAt(n);
        ShapeApart(hd, m, m);
        ShapeApart(hd, m, nn);
        BlockStartsClear(live, m);
        BlockStartsClear(live, nn);
        SetNext(m, nn);
        HeaderStoreKeepsPayloads(old(ram[..]), ram[..], live, m);
        ghost var mid := ram[..];
        SetPrev(nn, m);
        HeaderStoreKeepsPayloads(mid, ram[..], live, nn);
        PayloadsKeptChain(old(ram[..]), mid, ram[..], live);
        HeaderDropped(ram[..], hd, n);
        hd := hd - {n};
      }
    }

    /** plug_holes, backward part. */
    method JoinPrev(m: nat, ghost live: map<nat, Mem>)
      requires Stored() && Shape(hd, m) && m in hd && m < SIZE && hd[m].prev in hd && hd[m].next in hd
      requires Shape(live, -1) && hd.Keys <= live.Keys
      modifies ram, this`hd, this`lfree
      ensures Stored() && Blocks() == PlugBackward(old(Blocks()), m)
      ensures PayloadsKept(old(ram[..]), ram[..], live)
    {
      assert LayoutAt(ram[..], hd, m) && BlockOk(hd, m, m);
      var p := PrevAt(m);
      assert LayoutAt(ram[..], hd, p);
      if p != m && UsedAt(p) == 0 {
        if lfree == m {
          lfree := p;
        }
        var n := NextAt(m);
        ShapeApart(hd, m, p);
        ShapeApart(hd, m, n);
        BlockStartsClear(live, p);
        BlockStartsClear(live, n);
        SetNext(p, n);
        HeaderStoreKeepsPayloads(old(ram[..]), ram[..], live, p);
        ghost var mid := ram[..];
        SetPrev(n, p);
        HeaderStoreKeepsPayloads(mid, ram[..], live, n);
        PayloadsKeptChain(old(ram[..]), mid, ram[..], live);
        HeaderDropped(ram[..], hd, m);
        hd := hd - {m};
      }
    }

    /** mem_free: `rmem` is an offset into `ram`; NULL and addresses outside the heap are ignored. */
    method MemFree(rmem: Option<int>)
      requires Valid()
      requires rmem.Some? && 0 <= rmem.value < SIZE ==>
        rmem.value >= SIZEOF_STRUCT_MEM && Live(hd, rmem.value - SIZEOF_STRUCT_MEM)
      modifies ram, this`hd, this`lfree
      ensures Valid() && PayloadsKept(old(ram[..]), ram[..], old(hd))
      ensures if rmem.Some? && 0 <= rmem.value < SIZE then
        Blocks() == Freed(old(Blocks()), rmem.value - SIZEOF_STRUCT_MEM)
              else Blocks() == old(Blocks()) && ram[..] == old(ram[..])
    {
      if rmem.None? || rmem.value < 0 || rmem.value >= SIZE {
        return;
      }
      var m := rmem.value - SIZEOF_STRUCT_MEM;
      ReleaseKeeps(Blocks(), m);
      PlugForwardKeeps(Release(Blocks(), m), m);
      PlugBackwardKeeps(PlugForward(Release(Blocks(), m), m), m);
      ShapeApart(hd, -1, m);
      SetUsed(m, 0);
      BlockStartsClear(old(hd), m);
      HeaderStoreKeepsPayloads(old(ram[..]), ram[..], old(hd), m);
      if m < lfree {
        lfree := m;
      }
      ghost var a := ram[..];
      JoinNext(m, old(hd));
      ghost var b := ram[..];
      JoinPrev(m, old(hd));
      PayloadsKeptChain(a, b, ram[..], old(hd));
      PayloadsKeptChain(old(ram[..]), a, ram[..], old(hd));
    }

    /** Makes a free block at `p2`, between the block `b` and the block at `n`. */
    method Carve(b: nat, p2: nat, n: nat, ghost live: map<nat, Mem>)
      requires Stored() && b in hd && n in hd && p2 !in hd && b < p2 < n && n <= SIZE && b < SIZE
      requires
        && Apart(hd, b) && Apart(hd, n) && Apart(hd, p2) && p2 + SIZEOF_STRUCT_MEM <= n
        && b + SIZEOF_STRUCT_MEM <= p2
      requires ClearOf(live, b) && ClearOf(live, p2) && ClearOf(live, n)
      modifies ram, this`hd
      ensures Stored() && PayloadsKept(old(ram[..]), ram[..], live)
      ensures var hd1 := old(hd)[p2 := Mem(n, b, 0)][b := old(hd)[b].(next := p2)];
        hd == if n != SIZE then hd1[n := hd1[n].(prev := p2)] else hd1
    {
      ghost var s0 := ram[..];
      NewHeader(p2, n, b);
      HeaderStoreKeepsPayloads(s0, ram[..], live, p2);
      ghost var s1 := ram[..];
      SetNext(b, p2);
      HeaderStoreKeepsPayloads(s1, ram[..], live, b);
      ghost var s2 := ram[..];
      PayloadsKeptChain(s0, s1, s2, live);
      if n != SIZE {
        SetPrev(n, p2);
        HeaderStoreKeepsPayloads(s2, ram[..], live, n);
        PayloadsKeptChain(s0, s2, ram[..], live);
      }
    }

    /** The change to the chosen block in mem_malloc. */
    method TakeBlock(b: nat, size: nat)
      requires Valid() && Fits(hd, b, size) && size >= MIN_SIZE_ALIGNED && size % 4 == 0 && hd[b].next in hd
      modifies ram, this`hd
      ensures Stored() && hd == Take(old(hd), b, size)
      ensures PayloadsKept(old(ram[..]), ram[..], old(hd))
    {
      assert LayoutAt(ram[..], hd, b) && BlockOk(hd, -1, b);
      var n := NextAt(b);
      ShapeApart(hd, -1, b);
      ShapeApart(hd, -1, n);
      BlockStartsClear(hd, b);
      BlockStartsClear(hd, n);
      if n - (b + SIZEOF_STRUCT_MEM) >= size + SIZEOF_STRUCT_MEM + MIN_SIZE_ALIGNED {
        var p2 := b + SIZEOF_STRUCT_MEM + size;
        SplitApart(hd, b, p2);
        InsideClear(hd, b, p2);
        Carve(b, p2, n, old(hd));
      }
      ghost var mid := ram[..];
      SetUsed(b, 1);
      HeaderStoreKeepsPayloads(mid, ram[..], old(hd), b);
      PayloadsKeptChain(old(ram[..]), mid, ram[..], old(hd));
    }

    /** The loop at the end of mem_malloc that looks for the next free block. */
    method AdvanceLowestFree()
      requires Stored() && Shape(hd, -1) && Low(Blocks())
      modifies this`lfree
      ensures Valid()
    {
      assert LayoutAt(ram[..], hd, lfree) && BlockOk(hd, -1, lfree);
      while UsedAt(lfree) != 0 && lfree != SIZE
        invariant Stored() && Shape(hd, -1) && Low(Blocks()) && LayoutAt(ram[..], hd, lfree) && BlockOk(hd, -1, lfree)
        decreases SIZE - lfree
      {
        ghost var before := Blocks();
        lfree := NextAt(lfree);
        forall c ensures UsedBelow(Blocks(), c) { assert UsedBelow(before, c) && GapOk(hd, before.lfree, c); }
        assert LayoutAt(ram[..], hd, lfree) && BlockOk(hd, -1, lfree);
      }
    }

    /** mem_malloc: the lowest block that fits, or NULL exactly when none does. */
    method MemMalloc(size: nat) returns (rmem: Option<nat>)
      requires Valid() && size < U32
      modifies ram, this`hd, this`lfree
      ensures Valid() && PayloadsKept(old(ram[..]), ram[..], old(hd))
      ensures rmem.None? <==> size == 0 || forall c :: !Fits(old(hd), c, Rounded(size))
      ensures rmem.None? ==> Blocks() == old(Blocks()) && ram[..] == old(ram[..])
      ensures rmem.Some? ==>
        var b := rmem.value - SIZEOF_STRUCT_MEM;
        && 0 <= b && Fits(old(hd), b, Rounded(size)) && (forall c: nat :: c < b ==> !Fits(old(hd), c, Rounded(size)))
        && rmem.value % 4 == 0
        && Live(hd, b) && Payload(hd, b) >= Rounded(size)
        && (forall c :: Kept(old(hd), hd, c)) && (forall c :: c != b ==> Kept(hd, old(hd), c))
    {
      if size == 0 {
        return None;
      }
      RoundedHolds(size);
      var sz := Rounded(size);
      if sz > SIZE {
        forall c ensures !Fits(hd, c, sz) { assert BlockOk(hd, -1, c); }
        return None;
      }
      var ptr := lfree;
      forall c: nat | c < ptr ensures !Fits(hd, c, sz) { assert UsedBelow(Blocks(), c); }
      while ptr < SIZE - sz
        invariant ptr in hd && Valid() && Blocks() == old(Blocks()) && ram[..] == old(ram[..])
        invariant lfree <= ptr
        invariant forall c: nat :: c < ptr ==> !Fits(hd, c, sz)
        decreases SIZE - ptr
      {
        assert LayoutAt(ram[..], hd, ptr) && BlockOk(hd, -1, ptr);
        if UsedAt(ptr) == 0 && NextAt(ptr) - (ptr + SIZEOF_STRUCT_MEM) >= sz {
          assert Fits(old(hd), ptr, Rounded(size));
          TakeKeeps(Blocks(), ptr, sz);
          TakeBlock(ptr, sz);
          if ptr == lfree {
            AdvanceLowestFree();
          }
          return Some(ptr + SIZEOF_STRUCT_MEM);
        }
        forall c: nat | c < NextAt(ptr) ensures !Fits(hd, c, sz) { assert GapOk(hd, ptr, c); }
        ptr := NextAt(ptr);
      }
      forall c ensures !Fits(hd, c, sz) { assert BlockOk(hd, -1, c); }
      return None;
    }

    method ShrinkBlock(b: nat, size: nat)
      requires Valid() && Live(hd, b) && MIN_SIZE_ALIGNED <= size < Payload(hd, b) && size % 4 == 0
      requires hd[b].next in hd && hd[hd[b].next].next in hd
      modifies ram, this`hd, this`lfree
      ensures Stored() && Blocks() == Shrunk(old(Blocks()), b, size)
      ensures PayloadsKept(old(ram[..]), ram[..], old(hd)[b := old(hd)[b].(next := b + SIZEOF_STRUCT_MEM + size)])
    {
      assert LayoutAt(ram[..], hd, b) && BlockOk(hd, -1, b);
      var n, p2 := NextAt(b), b + SIZEOF_STRUCT_MEM + size;
      assert LayoutAt(ram[..], hd, n) && BlockOk(hd, -1, n);
      ghost var live := hd[b := hd[b].(next := p2)];
      if UsedAt(n) == 0 {
        var next := NextAt(n);
        if lfree == n {
          lfree := p2;
        }
        MovedApart(hd, b, p2, n, next);
        HeaderDropped(ram[..], hd, n);
        hd := hd - {n};
        Carve(b, p2, next, live);
      } else if size + SIZEOF_STRUCT_MEM + MIN_SIZE_ALIGNED <= n - b - SIZEOF_STRUCT_MEM {
        if p2 < lfree {
          lfree := p2;
        }
        ShapeApart(hd, -1, b);
        ShapeApart(hd, -1, n);
        SplitApart(hd, b, p2);
        ShrinkClear(hd, b, p2, n);
        Carve(b, p2, n, live);
      }
    }

    /** mem_realloc: shrinks in place. The retained prefix and every other payload keep their bytes. */
    method MemRealloc(rmem: int, newsize: nat) returns (r: Option<int>)
      requires Valid() && newsize < U32
      requires 0 <= rmem < SIZE ==> rmem >= SIZEOF_STRUCT_MEM && Live(hd, rmem - SIZEOF_STRUCT_MEM)
      modifies ram, this`hd, this`lfree
      ensures Valid()
      ensures var sz := Rounded(newsize);
        if 0 <= rmem < SIZE && sz < Payload(old(hd), rmem - SIZEOF_STRUCT_MEM) then
          var b := rmem - SIZEOF_STRUCT_MEM;
          && r == Some(rmem) && 0 <= b && Live(hd, b) && Payload(hd, b) >= sz
          && (forall c: nat :: c != b ==> Kept(old(hd), hd, c) && Kept(hd, old(hd), c))
          && PayloadsKept(old(ram[..]), ram[..], old(hd)[b := old(hd)[b].(next := rmem + sz)])
        else
          && Blocks() == old(Blocks()) && ram[..] == old(ram[..])
          && (r.None? <==> sz > SIZE || (0 <= rmem < SIZE && sz > Payload(old(hd), rmem - SIZEOF_STRUCT_MEM)))
          && (r.Some? ==> r.value == rmem)
    {
      RoundedHolds(newsize);
      var sz := Rounded(newsize);
      if 0 <= rmem < SIZE {
        assert BlockOk(hd, -1, rmem - SIZEOF_STRUCT_MEM);
      }
      if sz > SIZE {
        return None;
      }
      if rmem < 0 || rmem >= SIZE {
        return Some(rmem);
      }
      var b := rmem - SIZEOF_STRUCT_MEM;
      assert LayoutAt(ram[..], hd, b);
      var size := NextAt(b) - b - SIZEOF_STRUCT_MEM;
      if sz > size {
        return None;
      }
      if sz == size {
        return Some(rmem);
      }
      ShrunkKeeps(Blocks(), b, sz);
      ShrinkBlock(b, sz);
      return Some(rmem);
    }
  }
}
