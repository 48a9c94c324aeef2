/** pbuf_free (net/lwip/core/pbuf.c): segments go while their counts drop to zero. */
module PbufRelease {
  import opened PbufChains

  ghost predicate Distinct(ps: seq<Ptr>) {
    forall i, j :: 0 <= i < j < |ps| ==> ps[i] != ps[j]
  }

  lemma {:induction false} ChainDistinct(st: Store, rank: map<Ptr, nat>, p: Ptr, ps: seq<Ptr>)
    requires (forall x :: LinkOk(st, rank, x)) && IsChain(st, p, ps)
    ensures forall i, j :: 0 <= i < j < |ps| ==> ps[i] != ps[j]
    ensures forall i :: 0 <= i < |ps| ==> ps[i] in rank && p in rank && rank[ps[i]] <= rank[p]
    decreases |ps|
  {
    if ps != [] {
      assert LinkOk(st, rank, p);
      ChainDistinct(st, rank, st[p].next, ps[1..]);
      forall i | 0 <= i < |ps| ensures ps[i] in rank && rank[ps[i]] <= rank[p] && (i > 0 ==> ps[i] != p) {
        if i > 0 {
          assert ps[i] == ps[1..][i - 1] && ps[1..] != [] && st[p].next != 0;
        }
      }
      forall i, j | 0 <= i < j < |ps| ensures ps[i] != ps[j] {
        assert ps[j] == ps[1..][j - 1];
        if i > 0 {
          assert ps[i] == ps[1..][i - 1];
        }
      }
    }
  }

  lemma {:induction false} UnsharedAt(st: Store, ps: seq<Ptr>, k: nat)
    requires AllIn(st, ps) && k <= |ps|
    requires forall i :: 0 <= i < k ==> st[ps[i]].ref == 1
    ensures k == |ps| || st[ps[k]].ref != 1 ==> Unshared(st, ps) == k
  {
    if k > 0 {
      UnsharedAt(st, ps[1..], k - 1);
    }
  }

  /** The store while pbuf_free is at segment `k` of `ps`, or done. */
  ghost predicate Releasing(st0: Store, st: Store, ps: seq<Ptr>, p: Ptr, k: nat)
    requires AllIn(st0, ps)
  {
    && k <= |ps|
    && (forall i :: 0 <= i < k ==> st0[ps[i]].ref == 1)
    && (if p != 0 then k < |ps| && p == ps[k] && st == Without(st0, ps[..k])
        else st == Freed(st0, ps) && k == Unshared(st0, ps))
  }

  /** The segment that pbuf_free is at, as it was. */
  lemma ReleasingAt(st0: Store, st: Store, ps: seq<Ptr>, p: Ptr, k: nat)
    requires AllIn(st0, ps) && (forall i :: LinkedAt(st0, ps, i)) && Distinct(ps) && Releasing(st0, st, ps, p, k)
      && p != 0
    ensures p in st && st[p] == st0[ps[k]] && st[p].next == if k + 1 < |ps| then ps[k + 1] else 0
  {
    assert LinkedAt(st0, ps, k) && p !in ps[..k];
  }

  lemma ReleasingLast(st0: Store, st: Store, ps: seq<Ptr>, p: Ptr, k: nat)
    requires AllIn(st0, ps) && (forall i :: LinkedAt(st0, ps, i)) && Distinct(ps) && Releasing(st0, st, ps, p, k)
      && p != 0
    requires p in st && st[p].ref == 1
    ensures Releasing(st0, st - {p}, ps, st[p].next, k + 1)
  {
    ReleasingAt(st0, st, ps, p, k);
    assert LinkedAt(st0, ps, k + 1);
    assert st - {p} == Without(st0, ps[..k + 1]) by { assert ps[..k + 1] == ps[..k] + [p]; }
    UnsharedAt(st0, ps, k + 1);
  }

  lemma ReleasingShared(st0: Store, st: Store, ps: seq<Ptr>, p: Ptr, k: nat)
    requires AllIn(st0, ps) && (forall i :: LinkedAt(st0, ps, i)) && Distinct(ps) && Releasing(st0, st, ps, p, k)
      && p != 0
    requires p in st && st[p].ref > 1
    ensures Releasing(st0, st[p := st[p].(ref := st[p].ref - 1)], ps, 0, k)
  {
    ReleasingAt(st0, st, ps, p, k);
    UnsharedAt(st0, ps, k);
  }

  /** The loop of pbuf_free. The returned count is a u8. */
  method ReleaseLoop(st0: Store, p0: Ptr, ghost ps: seq<Ptr>) returns (count: nat, st: Store)
    requires IsChain(st0, p0, ps) && AllIn(st0, ps) && Distinct(ps) && forall i :: 0 <= i < |ps| ==> st0[ps[i]].ref > 0
    ensures st == Freed(st0, ps) && count == Unshared(st0, ps) % 256
  {
    count, st := 0, st0;
    var p := p0;
    ghost var k := 0;
    ChainInStore(st0, p0, ps);
    assert Without(st0, ps[..0]) == st0;
    while p != 0
      invariant Releasing(st0, st, ps, p, k) && count == k % 256
      decreases if p != 0 then |ps| - k + 1 else 0
    {
      ReleasingAt(st0, st, ps, p, k);
      var ref := st[p].ref - 1;
      if ref == 0 {
        ReleasingLast(st0, st, ps, p, k);
        var q := st[p].next;
        st := st - {p};
        count := (count + 1) % 256;
        p := q;
        k := k + 1;
      } else {
        ReleasingShared(st0, st, ps, p, k);
        st := st[p := st[p].(ref := ref)];
        p := 0;
      }
    }
  }

  /** What pbuf_free keeps: it holds the reference to give up at `p`, or is done. */
  ghost predicate Freeing(st0: Store, st: Store, handles: multiset<Ptr>, rank: map<Ptr, nat>, ps: seq<Ptr>, p: Ptr,
                          k: nat)
    requires AllIn(st0, ps)
  {
    && Releasing(st0, st, ps, p, k)
    && Counted(st, if p != 0 then handles + multiset{p} else handles, rank) && (Totalled(st0) ==> Totalled(st))
  }

  lemma FreeingStep(st0: Store, st: Store, handles: multiset<Ptr>, rank: map<Ptr, nat>, ps: seq<Ptr>, p: Ptr, k: nat)
    requires AllIn(st0, ps) && (forall i :: LinkedAt(st0, ps, i)) && Distinct(ps)
    requires Freeing(st0, st, handles, rank, ps, p, k) && p != 0
    ensures p in st && st[p].ref > 0
    ensures st[p].ref == 1 ==> Freeing(st0, st - {p}, handles, rank, ps, st[p].next, k + 1)
    ensures st[p].ref > 1 ==> Freeing(st0, st[p := st[p].(ref := st[p].ref - 1)], handles, rank, ps, 0, k)
  {
    ReleasingAt(st0, st, ps, p, k);
    assert RefOk(st, handles + multiset{p}, p);
    if st[p].ref == 1 {
      ReleasingLast(st0, st, ps, p, k);
      DropLastReference(st, handles, rank, p);
    } else {
      ReleasingShared(st0, st, ps, p, k);
      DropReference(st, handles, rank, p);
    }
  }

  /** Giving up a reference keeps all counts exact, and right totals right. */
  lemma {:induction false} FreeingEnds(st0: Store, st: Store, handles: multiset<Ptr>, rank: map<Ptr, nat>, ps: seq<Ptr>,
                                       p: Ptr, k: nat)
    requires AllIn(st0, ps) && (forall i :: LinkedAt(st0, ps, i)) && Distinct(ps)
    requires Freeing(st0, st, handles, rank, ps, p, k)
    ensures Counted(Freed(st0, ps), handles, rank) && (Totalled(st0) ==> Totalled(Freed(st0, ps)))
    decreases if p != 0 then |ps| - k + 1 else 0
  {
    if p != 0 {
      FreeingStep(st0, st, handles, rank, ps, p, k);
      if st[p].ref == 1 {
        FreeingEnds(st0, st - {p}, handles, rank, ps, st[p].next, k + 1);
      } else {
        FreeingEnds(st0, st[p := st[p].(ref := st[p].ref - 1)], handles, rank, ps, 0, k);
      }
    }
  }

  lemma ChainCounted(st: Store, handles: multiset<Ptr>, rank: map<Ptr, nat>, p: Ptr, ps: seq<Ptr>, i: nat)
    requires Counted(st, handles, rank) && IsChain(st, p, ps) && (p != 0 ==> p in handles) && i < |ps|
    ensures ps[i] in st && st[ps[i]].ref > 0
  {
    ChainInStore(st, p, ps);
    assert RefOk(st, handles, ps[i]) && LinkedAt(st, ps, i);
    if i > 0 {
      assert LinkedAt(st, ps, i - 1);
      assert ps[i - 1] in Pointers(st, ps[i]);
    }
  }

  lemma FreeStarts(st: Store, handles: multiset<Ptr>, rank: map<Ptr, nat>, p: Ptr, ps: seq<Ptr>)
    requires Counted(st, handles, rank) && IsChain(st, p, ps) && (p != 0 ==> p in handles)
    ensures AllIn(st, ps)
    ensures Freeing(st, st, handles - multiset{p}, rank, ps, p, 0)
  {
    ChainInStore(st, p, ps);
    assert Without(st, ps[..0]) == st;
    if p == 0 {
      assert RefOk(st, handles, 0);
      assert handles - multiset{p} == handles;
    } else {
      assert handles - multiset{p} + multiset{p} == handles;
    }
  }

  lemma {:induction false} UnsharedFrame(st: Store, st': Store, ps: seq<Ptr>)
    requires forall i :: 0 <= i < |ps| ==> ps[i] in st && ps[i] in st' && st'[ps[i]].ref == st[ps[i]].ref
    ensures Unshared(st', ps) == Unshared(st, ps)
  {
    if ps != [] {
      UnsharedFrame(st, st', ps[1..]);
    }
  }

  /** pbuf_free touches nothing outside the chain, and in the chain it keeps what is beyond the unshared head run. */
  lemma FreedFrame(st: Store, qs: seq<Ptr>, x: Ptr)
    requires AllIn(st, qs)
    ensures x !in qs ==> SegKept(st, Freed(st, qs), x)
    ensures x in qs ==> (x in Freed(st, qs) <==> x !in qs[..Unshared(st, qs)])
  {
  }
}
