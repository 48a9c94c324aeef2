/** Calls on valid packet buffers (net/lwip/core/pbuf.c) that do not do what their users expect. */
module PbufCases {
  import opened PbufChains
  import opened PbufLengths
  import opened PbufCopying
  import opened PbufRelease
  import opened PbufOps

  // ---------- A chain that pbuf_dechain reports as still there ----------

  function RowFrom(k: nat, n: nat): seq<Ptr>
    requires 1 <= k <= n + 1
  {
    seq(n + 1 - k, i requires 0 <= i => k + i)
  }

  /** `n` empty segments in a row, each referenced once. */
  function Row(n: nat): Store {
    map x | x in RowFrom(1, n) :: Seg(if x < n then x + 1 else 0, [], 0, 1)
  }

  function RowRank(n: nat): map<Ptr, nat> {
    map x | x in RowFrom(1, n) :: n - x
  }

  lemma InRow(x: Ptr, n: nat)
    ensures x in RowFrom(1, n) <==> 1 <= x <= n
  {
    if 1 <= x <= n {
      assert RowFrom(1, n)[x - 1] == x;
    }
  }

  lemma {:induction false} RowChain(k: nat, n: nat)
    requires 1 <= k <= n + 1
    ensures IsChain(Row(n), if k <= n then k else 0, RowFrom(k, n)) && AllIn(Row(n), RowFrom(k, n))
    ensures Unshared(Row(n), RowFrom(k, n)) == n + 1 - k
    decreases n + 1 - k
  {
    if k <= n {
      InRow(k, n);
      RowChain(k + 1, n);
      assert RowFrom(k, n)[1..] == RowFrom(k + 1, n);
    }
  }

  lemma RowKept(n: nat)
    requires n > 0
    ensures Inv(Row(n), multiset{1}, RowRank(n)) && Pointers(Row(n), 1) == {}
  {
    var st := Row(n);
    forall x: Ptr ensures x in st <==> 1 <= x <= n { InRow(x, n); }
    forall x: Ptr ensures RefOk(st, multiset{1}, x) {
      if 1 < x <= n {
        assert Pointers(st, x) == {x - 1};
      } else if x == 1 {
        assert Pointers(st, x) == {};
      }
    }
    forall x: Ptr ensures LinkOk(st, RowRank(n), x) {}
    forall x: Ptr ensures TotOk(st, x) {}
    assert Pointers(st, 1) == {};
  }

  /** A call of pbuf_dechain that frees the whole tail and still returns its address. */
  method DechainLosesCount() returns (b: PbufHeap, r: Ptr)
    ensures b.Counts() && r == 2 && r !in b.st
  {
    RowKept(257);
    RowChain(1, 257);
    RowChain(2, 257);
    assert RowFrom(1, 257)[1..] == RowFrom(2, 257);
    b := new PbufHeap(Row(257), multiset{1}, RowRank(257));
    r := b.PbufDechain(1, RowFrom(1, 257));
  }

  // ---------- Chains that are linked from elsewhere ----------

  /** Segments 1 and 2 both go on with segment 3; segment 4 is by itself. */
  function SharedTail(): Store {
    map[1 := Seg(3, [10], 3, 1), 2 := Seg(3, [20], 3, 1), 3 := Seg(0, [30, 31], 2, 2), 4 := Seg(0, [40], 1, 1)]
  }

  lemma SharedTailOk()
    ensures Inv(SharedTail(), multiset{1, 2, 4}, map[1 := 1, 2 := 1, 3 := 0, 4 := 0])
    ensures IsChain(SharedTail(), 1, [1, 3]) && IsChain(SharedTail(), 4, [4])
    ensures !Closed(SharedTail(), [1, 3])
  {
    var st := SharedTail();
    assert Pointers(st, 3) == {1, 2} && Pointers(st, 1) == {} && Pointers(st, 2) == {} && Pointers(st, 4) == {};
    assert [1, 3][1..] == [3] && [3][1..] == [] && [4][1..] == [];
    assert st[2].next in [1, 3] && 2 !in [1, 3];
  }

  /** pbuf_cat of a chain that shares its end leaves a wrong total in the other chain. */
  method CatLosesTotals() returns (b: PbufHeap)
    ensures b.Counts() && !Totalled(b.st)
  {
    SharedTailOk();
    b := new PbufHeap(SharedTail(), multiset{1, 2, 4}, map[1 := 1, 2 := 1, 3 := 0, 4 := 0]);
    b.PbufCat(1, 4, [1, 3], [4]);
  }

  /** So does pbuf_chain. */
  method ChainLosesTotals() returns (b: PbufHeap)
    ensures b.Counts() && !Totalled(b.st)
  {
    SharedTailOk();
    b := new PbufHeap(SharedTail(), multiset{1, 2, 4}, map[1 := 1, 2 := 1, 3 := 0, 4 := 0]);
    b.PbufChain(1, 4, [1, 3], [4]);
  }

  /** So does pbuf_realloc, when it cuts the shared segment. */
  method ReallocLosesTotals() returns (b: PbufHeap)
    ensures b.Counts() && !Totalled(b.st)
  {
    SharedTailOk();
    var st := SharedTail();
    b := new PbufHeap(st, multiset{1, 2, 4}, map[1 := 1, 2 := 1, 3 := 0, 4 := 0]);
    ghost var k := b.PbufRealloc(1, 2, [1, 3]);
    assert k == 1 by {
      assert [1, 3][..0] == [] && Bytes(st, []) == [];
    }
    assert [1, 3][..k + 1] == [1, 3];
  }

  /** Three segments in a row, of which the second is also held by a user. */
  function HeldInside(): Store {
    map[1 := Seg(2, [10], 3, 1), 2 := Seg(3, [20], 2, 2), 3 := Seg(0, [30], 1, 1)]
  }

  /** pbuf_dechain of a segment inside a chain leaves a wrong total before it. */
  method DechainLosesTotals() returns (b: PbufHeap, r: Ptr)
    ensures b.Counts() && !Totalled(b.st)
  {
    var st := HeldInside();
    assert Pointers(st, 1) == {} && Pointers(st, 2) == {1} && Pointers(st, 3) == {2};
    assert [2, 3][1..] == [3] && [3][1..] == [];
    b := new PbufHeap(st, multiset{1, 2}, map[1 := 2, 2 := 1, 3 := 0]);
    r := b.PbufDechain(2, [2, 3]);
  }

  // ---------- Packets that pbuf_copy does not copy ----------

  /** A packet of one byte and an empty segment, one of one byte, and one of two bytes and an empty segment. */
  function EmptyEnds(): Store {
    map[1 := Seg(2, [7], 1, 1), 2 := Seg(0, [], 0, 1), 3 := Seg(0, [0], 1, 1), 4 := Seg(5, [0, 0], 2, 1),
      5 := Seg(0, [], 0, 1)]
  }

  lemma EmptyEndsOk()
    ensures Inv(EmptyEnds(), multiset{1, 3, 4}, map[1 := 1, 2 := 0, 3 := 0, 4 := 1, 5 := 0])
  {
    var st := EmptyEnds();
    assert Pointers(st, 1) == {} && Pointers(st, 2) == {1} && Pointers(st, 3) == {};
    assert Pointers(st, 4) == {} && Pointers(st, 5) == {4};
  }

  lemma EmptyEndChains()
    ensures IsChain(EmptyEnds(), 1, [1, 2]) && IsChain(EmptyEnds(), 3, [3]) && IsChain(EmptyEnds(), 4, [4, 5])
    ensures AllIn(EmptyEnds(), [1, 2]) && AllIn(EmptyEnds(), [3]) && AllIn(EmptyEnds(), [4, 5])
    ensures |Bytes(EmptyEnds(), [1, 2])| == 1 && |Bytes(EmptyEnds(), [3])| == 1 && |Bytes(EmptyEnds(), [4, 5])| == 2
    ensures Lens(EmptyEnds(), [1, 2]) == [1, 0] && Lens(EmptyEnds(), [3]) == [1] && Lens(EmptyEnds(), [4, 5]) == [2, 0]
  {
    assert [1, 2][1..] == [2] && [2][1..] == [] && [3][1..] == [] && [4, 5][1..] == [5] && [5][1..] == [];
  }

  /** The source goes on with its empty segment when the target is used up. */
  method CopyRunsOff() returns (b: PbufHeap, err: Err)
    ensures b.Valid() && err == NoTarget
  {
    EmptyEndsOk();
    EmptyEndChains();
    b := new PbufHeap(EmptyEnds(), multiset{1, 3, 4}, map[1 := 1, 2 := 0, 3 := 0, 4 := 1, 5 := 0]);
    ghost var c;
    err, c := b.PbufCopy(3, 1, [3], [1, 2]);
  }

  /** The target looks like a queue of packets. */
  method CopySeesQueue() returns (b: PbufHeap, err: Err)
    ensures b.Valid() && err == ErrVal
  {
    EmptyEndsOk();
    EmptyEndChains();
    assert Pre([2, 0], 1) == 2 && Pre([2, 0], 2) == 2;
    b := new PbufHeap(EmptyEnds(), multiset{1, 3, 4}, map[1 := 1, 2 := 0, 3 := 0, 4 := 1, 5 := 0]);
    ghost var c;
    err, c := b.PbufCopy(4, 3, [4, 5], [3]);
  }
}
