/** Chains that pbuf_alloc builds from pool buffers (net/lwip/core/pbuf.c). */
module PbufPool {
  import opened PbufChains

  const POOL_BUFSIZE: nat := 2000

  /** Segment `j` of a chain under construction; `rem` bytes are still to be added behind the last one. */
  ghost predicate SegBuilt(st0: Store, st: Store, ps: seq<Ptr>, rem: nat, j: int) {
    0 <= j < |ps| ==>
      && ps[j] != 0 && ps[j] !in st0 && ps[j] in st
      && (j + 1 < |ps| ==> ps[j + 1] in st)
      && var g := st[ps[j]];
      && g.ref == 1 && g.totLen < U16 && (|ps| > 1 || rem > 0 ==> g.data != [])
      && g.next == (if j + 1 < |ps| then ps[j + 1] else 0)
      && g.totLen == |g.data| + (if j + 1 < |ps| then st[ps[j + 1]].totLen else rem)
  }

  ghost predicate Apart(ps: seq<Ptr>, i: int, j: int) {
    0 <= i < j < |ps| ==> ps[i] != ps[j]
  }

  /** The store is `st0` and a new chain `ps`. */
  ghost predicate Built(st0: Store, st: Store, ps: seq<Ptr>, rem: nat) {
    && ps != []
    && (forall i, j :: Apart(ps, i, j))
    && (forall x :: x !in ps ==> SegKept(st0, st, x))
    && (forall j :: SegBuilt(st0, st, ps, rem, j))
  }

  /** One more segment, linked behind the last. */
  function Linked(st: Store, last: Ptr, q: Ptr, seg: Seg): Store
    requires last in st
  {
    st[last := st[last].(next := q)][q := seg]
  }

  lemma FirstBuilt(st0: Store, q: Ptr, data: seq<int>, length: nat)
    requires q != 0 && q !in st0 && |data| <= length < U16 && (data != [] || length == 0)
    ensures Built(st0, st0[q := Seg(0, data, length, 1)], [q], length - |data|)
  {
    var st := st0[q := Seg(0, data, length, 1)];
    forall x ensures x !in [q] ==> SegKept(st0, st, x) { assert q in [q]; }
  }

  lemma MoreBuilt(st0: Store, st: Store, ps: seq<Ptr>, rem: nat, q: Ptr, data: seq<int>)
    requires Built(st0, st, ps, rem) && q != 0 && q !in st0 && q !in ps && 0 < |data| <= rem
    ensures ps[|ps| - 1] in st
    ensures Built(st0, Linked(st, ps[|ps| - 1], q, Seg(0, data, rem, 1)), ps + [q], rem - |data|)
  {
    var n := |ps|;
    assert SegBuilt(st0, st, ps, rem, n - 1);
    var st', qs := Linked(st, ps[n - 1], q, Seg(0, data, rem, 1)), ps + [q];
    forall i, j ensures Apart(qs, i, j) { assert Apart(ps, i, j); }
    forall x ensures x !in qs ==> SegKept(st0, st', x) {
      assert x !in qs ==> x !in ps && x != q;
    }
    var rem' := rem - |data|;
    forall j ensures SegBuilt(st0, st', qs, rem', j) {
      assert SegBuilt(st0, st, ps, rem, j) && SegBuilt(st0, st, ps, rem, j + 1) && Apart(ps, j, n - 1)
        && Apart(ps, j + 1, n - 1);
      assert 0 <= j < n ==> qs[j] == ps[j];
    }
  }

  lemma {:induction false} BuiltChain(st0: Store, st: Store, ps: seq<Ptr>, rem: nat, k: nat)
    requires Built(st0, st, ps, rem) && k <= |ps|
    ensures IsChain(st, if k < |ps| then ps[k] else 0, ps[k..])
    decreases |ps| - k
  {
    assert SegBuilt(st0, st, ps, rem, k);
    if k < |ps| {
      BuiltChain(st0, st, ps, rem, k + 1);
      assert ps[k..][1..] == ps[k + 1..];
    }
  }

  lemma {:induction false} BuiltBytes(st0: Store, st: Store, ps: seq<Ptr>, k: nat)
    requires Built(st0, st, ps, 0) && k <= |ps|
    ensures AllIn(st, ps[k..]) && |Bytes(st, ps[k..])| == if k < |ps| && ps[k] in st then st[ps[k]].totLen else 0
    decreases |ps| - k
  {
    forall j | 0 <= j < |ps| ensures ps[j] in st { assert SegBuilt(st0, st, ps, 0, j); }
    if k < |ps| {
      assert SegBuilt(st0, st, ps, 0, k);
      BuiltBytes(st0, st, ps, k + 1);
      assert ps[k..][1..] == ps[k + 1..];
    }
  }

  /** Ranks that fall along the new chain. */
  ghost function RanksWith(rank: map<Ptr, nat>, ps: seq<Ptr>): map<Ptr, nat>
    decreases |ps|
  {
    if ps == [] then rank else RanksWith(rank, ps[1..])[ps[0] := |ps|]
  }

  lemma {:induction false} RanksFall(rank: map<Ptr, nat>, ps: seq<Ptr>, x: Ptr)
    ensures x !in ps ==> (x in RanksWith(rank, ps) <==> x in rank) && (x in rank ==> RanksWith(rank, ps)[x] == rank[x])
    decreases |ps|
  {
    if ps != [] {
      RanksFall(rank, ps[1..], x);
      assert x !in ps ==> x !in ps[1..];
    }
  }

  lemma {:induction false} RankAt(rank: map<Ptr, nat>, ps: seq<Ptr>, j: nat)
    requires j < |ps| && forall i, k :: Apart(ps, i, k)
    ensures ps[j] in RanksWith(rank, ps) && RanksWith(rank, ps)[ps[j]] == |ps| - j
    decreases |ps|
  {
    if j > 0 {
      forall i, k ensures Apart(ps[1..], i, k) { assert Apart(ps, i + 1, k + 1); }
      RankAt(rank, ps[1..], j - 1);
      assert Apart(ps, 0, j);
    }
  }

  lemma NewIsNew(st0: Store, st: Store, ps: seq<Ptr>, x: Ptr)
    requires Built(st0, st, ps, 0) && x in st0
    ensures x !in ps && x in st && st[x] == st0[x]
  {
    forall j | 0 <= j < |ps| ensures ps[j] != x { assert SegBuilt(st0, st, ps, 0, j); }
    assert SegKept(st0, st, x);
  }

  lemma BuiltLink(st0: Store, st: Store, ps: seq<Ptr>, rank: map<Ptr, nat>, x: Ptr)
    requires Built(st0, st, ps, 0) && (forall x :: LinkOk(st0, rank, x))
    ensures LinkOk(st, RanksWith(rank, ps), x)
  {
    RanksFall(rank, ps, x);
    if x in ps {
      var j :| 0 <= j < |ps| && ps[j] == x;
      assert SegBuilt(st0, st, ps, 0, j);
      RankAt(rank, ps, j);
      if j + 1 < |ps| {
        RankAt(rank, ps, j + 1);
      }
    } else if x in st0 {
      assert LinkOk(st0, rank, x) && SegKept(st0, st, x);
      var n := st0[x].next;
      if n != 0 {
        NewIsNew(st0, st, ps, n);
        RanksFall(rank, ps, n);
      }
    }
  }

  lemma PointersToNew(st0: Store, st: Store, ps: seq<Ptr>, rank: map<Ptr, nat>, j: nat)
    requires Built(st0, st, ps, 0) && (forall x :: LinkOk(st0, rank, x)) && j < |ps|
    ensures Pointers(st, ps[j]) == if j == 0 then {} else {ps[j - 1]}
  {
    assert SegBuilt(st0, st, ps, 0, j);
    forall y ensures y in Pointers(st, ps[j]) <==> j > 0 && y == ps[j - 1] {
      if y in ps {
        var i :| 0 <= i < |ps| && ps[i] == y;
        assert SegBuilt(st0, st, ps, 0, i);
        assert Apart(ps, i + 1, j) && Apart(ps, j, i + 1) && Apart(ps, i, j - 1) && Apart(ps, j - 1, i);
      } else {
        assert SegKept(st0, st, y) && LinkOk(st0, rank, y);
        assert j > 0 ==> ps[j - 1] in ps;
      }
    }
  }

  lemma BuiltRef(st0: Store, st: Store, ps: seq<Ptr>, handles: multiset<Ptr>, rank: map<Ptr, nat>, x: Ptr)
    requires Built(st0, st, ps, 0) && Inv(st0, handles, rank)
    ensures RefOk(st, handles + multiset{ps[0]}, x)
  {
    assert RefOk(st0, handles, x) && SegBuilt(st0, st, ps, 0, 0);
    if x in ps {
      var j :| 0 <= j < |ps| && ps[j] == x;
      assert SegBuilt(st0, st, ps, 0, j);
      PointersToNew(st0, st, ps, rank, j);
      assert Apart(ps, 0, j);
    } else if x in st0 {
      assert SegKept(st0, st, x);
      forall y ensures y in Pointers(st, x) <==> y in Pointers(st0, x) {
        if y in ps {
          var j :| 0 <= j < |ps| && ps[j] == y;
          assert SegBuilt(st0, st, ps, 0, j);
        } else {
          assert SegKept(st0, st, y);
        }
      }
      assert Pointers(st, x) == Pointers(st0, x);
    } else {
      assert SegKept(st0, st, x);
    }
  }

  lemma BuiltTot(st0: Store, st: Store, ps: seq<Ptr>, rank: map<Ptr, nat>, x: Ptr)
    requires Built(st0, st, ps, 0) && (forall x :: LinkOk(st0, rank, x)) && (forall x :: TotOk(st0, x))
    ensures TotOk(st, x)
  {
    if x in ps {
      var j :| 0 <= j < |ps| && ps[j] == x;
      assert SegBuilt(st0, st, ps, 0, j) && SegBuilt(st0, st, ps, 0, j + 1);
    } else if x in st0 {
      assert TotOk(st0, x) && LinkOk(st0, rank, x) && SegKept(st0, st, x);
      if st0[x].next != 0 {
        NewIsNew(st0, st, ps, st0[x].next);
      }
    } else {
      assert SegKept(st0, st, x);
    }
  }

  /** A finished chain of `length` bytes joins the store, with one reference, held by the caller. */
  lemma BuiltKeeps(st0: Store, st: Store, ps: seq<Ptr>, handles: multiset<Ptr>, rank: map<Ptr, nat>, length: nat)
    requires Inv(st0, handles, rank) && Built(st0, st, ps, 0) && ps[0] in st && st[ps[0]].totLen == length
    ensures Inv(st, handles + multiset{ps[0]}, RanksWith(rank, ps))
    ensures IsChain(st, ps[0], ps) && AllIn(st, ps) && |Bytes(st, ps)| == length
    ensures Closed(st, ps)
  {
    forall x ensures RefOk(st, handles + multiset{ps[0]}, x) { BuiltRef(st0, st, ps, handles, rank, x); }
    forall x ensures LinkOk(st, RanksWith(rank, ps), x) { BuiltLink(st0, st, ps, rank, x); }
    forall x ensures TotOk(st, x) { BuiltTot(st0, st, ps, rank, x); }
    BuiltChain(st0, st, ps, 0, 0);
    assert ps[0..] == ps && SegBuilt(st0, st, ps, 0, 0);
    BuiltBytes(st0, st, ps, 0);
    forall y | y in st && st[y].next in ps ensures y in ps {
      var j :| 0 <= j < |ps| && ps[j] == st[y].next;
      PointersToNew(st0, st, ps, rank, j);
      assert y in Pointers(st, ps[j]);
    }
  }

  lemma {:induction false} AllUnshared(st: Store, ps: seq<Ptr>)
    requires AllIn(st, ps) && forall j :: 0 <= j < |ps| ==> st[ps[j]].ref == 1
    ensures Unshared(st, ps) == |ps|
  {
    if ps != [] {
      AllUnshared(st, ps[1..]);
    }
  }

  /** Freeing an unfinished chain restores the store. */
  lemma BuiltFreed(st0: Store, st: Store, ps: seq<Ptr>, rem: nat)
    requires Built(st0, st, ps, rem)
    ensures AllIn(st, ps) && Freed(st, ps) == st0
  {
    forall j | 0 <= j < |ps| ensures ps[j] in st && ps[j] !in st0 && st[ps[j]].ref == 1 {
      assert SegBuilt(st0, st, ps, rem, j);
    }
    AllUnshared(st, ps);
    assert ps[..|ps|] == ps;
    forall x ensures (x in Without(st, ps) <==> x in st0) && (x in st0 && x in st ==> st[x] == st0[x]) {
      if x !in ps {
        assert SegKept(st0, st, x);
      }
    }
  }

  /** The number of pool buffers for `length` bytes when the first has room for `room` of them. */
  function Needed(length: nat, room: nat): nat {
    1 + if length <= room then 0 else (length - room + POOL_BUFSIZE - 1) / POOL_BUFSIZE
  }
}
