/** The routines of net/lwip/core/pbuf.c as methods that walk and change chains in place. */
module PbufOps {
  import opened PbufChains
  import opened PbufPool
  import opened PbufRelease
  import opened PbufLengths
  import opened PbufCopying

  lemma FreshCounted(st0: Store, st: Store, ps: seq<Ptr>, rem: nat)
    requires Built(st0, st, ps, rem)
    ensures IsChain(st, ps[0], ps) && AllIn(st, ps) && Distinct(ps) && Freed(st, ps) == st0
    ensures forall i :: 0 <= i < |ps| ==> st[ps[i]].ref > 0
  {
    BuiltChain(st0, st, ps, rem, 0);
    BuiltFreed(st0, st, ps, rem);
    assert ps[0..] == ps;
    forall i, j | 0 <= i < j < |ps| ensures ps[i] != ps[j] { assert Apart(ps, i, j); }
    forall i | 0 <= i < |ps| ensures st[ps[i]].ref > 0 { assert SegBuilt(st0, st, ps, rem, i); }
  }

  /**
   pbuf_alloc of type PBUF_POOL: `room` is what the header offset leaves of the first buffer,
   and `pool` are the addresses that memp_malloc returns before it returns NULL.
   */
  method PoolChain(st0: Store, length: nat, room: nat, pool: seq<Ptr>) returns (p: Ptr, st: Store, ghost ps: seq<Ptr>)
    requires length < U16 && 0 < room <= POOL_BUFSIZE && Distinct(pool) && forall i :: 0 <= i < |pool| ==>
      pool[i] != 0 && pool[i] !in st0
    ensures p == 0 <==> |pool| < Needed(length, room)
    ensures p == 0 ==> st == st0
    ensures p != 0 ==>
      ps == pool[..Needed(length, room)] && p == ps[0] && Built(st0, st, ps, 0) && p in st && st[p].totLen == length
  {
    p, st, ps := 0, st0, [];
    if pool == [] {
      return;
    }
    p := pool[0];
    var len := if length < room then length else room;
    st := st[p := Seg(0, seq(len, _ => 0), length, 1)];
    FirstBuilt(st0, p, seq(len, _ => 0), length);
    ps := [p];
    var r, rem: nat, k := p, length - len, 1;
    while rem > 0
      invariant 1 <= k <= |pool| && ps == pool[..k] && p == ps[0] && r == ps[k - 1] && Built(st0, st, ps, rem)
      invariant p in st && st[p].totLen == length
      invariant Needed(length, room) == k + (rem + POOL_BUFSIZE - 1) / POOL_BUFSIZE
      decreases rem
    {
      if k == |pool| {
        FreshCounted(st0, st, ps, rem);
        var count;
        count, st := ReleaseLoop(st, p, ps);
        return 0, st, [];
      }
      var q := pool[k];
      var n := if rem < POOL_BUFSIZE then rem else POOL_BUFSIZE;
      assert q !in ps;
      MoreBuilt(st0, st, ps, rem, q, seq(n, _ => 0));
      st := Linked(st, r, q, Seg(0, seq(n, _ => 0), rem, 1));
      ps := ps + [q];
      rem := rem - n;
      r := q;
      k := k + 1;
    }
  }

  /** The total of a segment linked to `p` stays right exactly if nothing is cut off. */
  lemma CutTot(st: Store, p: Ptr, x: Ptr)
    requires Totalled(st) && p in st && p != 0 && st[p].next != 0 && st[p].next != p
    ensures st[p].next in st
    ensures TotOk(st[p := st[p].(next := 0, totLen := |st[p].data|)], x) <==>
      x !in Pointers(st, p) || st[st[p].next].totLen == 0
  {
    var q, st' := st[p].next, st[p := st[p].(next := 0, totLen := |st[p].data|)];
    assert TotOk(st, p) && TotOk(st, x) && TotOk(st, q);
    if x in Pointers(st, p) {
      AddDiffers(|st[x].data|, |st[p].data|, st[q].totLen);
    }
  }

  /**
   Unlinking `p` from the rest turns its pointer into a reference owed by the unlinking code. The
   totals stay right if and only if nothing is linked to `p` or nothing is cut off.
   */
  lemma CutKeeps(st: Store, handles: multiset<Ptr>, rank: map<Ptr, nat>, p: Ptr)
    requires Inv(st, handles, rank) && p in st && st[p].next != 0
    ensures Counted(st[p := st[p].(next := 0, totLen := |st[p].data|)], handles + multiset{st[p].next}, rank)
      && st[p].next in st
    ensures Totalled(st[p := st[p].(next := 0, totLen := |st[p].data|)]) <==>
      Pointers(st, p) == {} || st[st[p].next].totLen == 0
  {
    var q := st[p].next;
    var st', h' := st[p := st[p].(next := 0, totLen := |st[p].data|)], handles + multiset{q};
    assert LinkOk(st, rank, p) && RefOk(st, handles, p);
    forall x ensures RefOk(st', h', x) {
      assert RefOk(st, handles, x);
      PointersAfter(st, p, st'[p], x);
    }
    forall x ensures LinkOk(st', rank, x) { assert LinkOk(st, rank, x); }
    forall x ensures TotOk(st', x) <==> x !in Pointers(st, p) || st[q].totLen == 0 { CutTot(st, p, x); }
    if Pointers(st, p) != {} {
      var y :| y in Pointers(st, p);
      assert TotOk(st', y) <==> st[q].totLen == 0;
    }
  }

  lemma AfterDechain(st0: Store, cut: Store, st: Store, p: Ptr, ps: seq<Ptr>)
    requires ps != [] && ps[0] == p && p !in ps[1..] && p in st0 && AllIn(st0, ps[1..])
    requires cut == st0[p := st0[p].(next := 0, totLen := |st0[p].data|)] && AllIn(cut, ps[1..])
      && st == Freed(cut, ps[1..])
    ensures p in st && st[p] == st0[p].(next := 0, totLen := |st0[p].data|)
    ensures forall x :: x !in ps ==> SegKept(st0, st, x)
    ensures forall x :: x in ps[1..] ==> (x in st <==> x !in ps[1..][..Unshared(st0, ps[1..])])
  {
    var qs := ps[1..];
    UnsharedFrame(st0, cut, qs);
    forall x ensures x !in qs ==> SegKept(cut, st, x) { FreedFrame(cut, qs, x); }
    forall x | x in qs ensures x in st <==> x !in qs[..Unshared(st0, qs)] { FreedFrame(cut, qs, x); }
    assert SegKept(cut, st, p);
    forall x | x !in ps ensures SegKept(st0, st, x) {
      assert x !in qs;
      assert SegKept(cut, st, x);
    }
  }

  lemma SkipStep(st: Store, ps: seq<Ptr>, n: nat, k: nat, add: nat)
    requires AllIn(st, ps) && Totalled(st) && (forall i :: LinkedAt(st, ps, i)) && k < |ps| && n < |Bytes(st, ps)|
      && n < U16
    requires |Bytes(st, ps[..k])| <= n && n - |Bytes(st, ps[..k])| > |st[ps[k]].data|
    requires (st[ps[k]].totLen + add) % U16 == n - |Bytes(st, ps[..k])|
    ensures k + 1 < |ps| && st[ps[k]].next == ps[k + 1] && ps[k + 1] in st
    ensures |Bytes(st, ps[..k + 1])| <= n && |Bytes(st, ps[..k + 1])| == |Bytes(st, ps[..k])| + |st[ps[k]].data|
    ensures TrimTotals(st, ps, n)[k] == (st[ps[k]].totLen + add) % U16
    ensures (st[ps[k + 1]].totLen + add) % U16 == n - |Bytes(st, ps[..k + 1])|
  {
    BytesTake(st, ps, k);
    assert LinkedAt(st, ps, k) && TotOk(st, ps[k]);
    assert ps[k + 1..] != [];
    assert TotOk(st, ps[k + 1]) && LinkedAt(st, ps, k + 1);
    SubMod(|st[ps[k]].data|, st[ps[k]].totLen, st[ps[k + 1]].totLen, add, n - |Bytes(st, ps[..k])|);
  }

  ghost predicate LinkedTo(st: Store, hs: seq<Ptr>, t: Ptr, i: int) {
    0 <= i < |hs| ==> hs[i] in st && hs[i] != 0 && st[hs[i]].next == if i + 1 < |hs| then hs[i + 1] else t
  }

  lemma {:induction false} ChainAppend(st: Store, h: Ptr, hs: seq<Ptr>, t: Ptr, ts: seq<Ptr>)
    requires hs != [] && hs[0] == h && IsChain(st, t, ts)
    requires forall i :: LinkedTo(st, hs, t, i)
    ensures IsChain(st, h, hs + ts)
    decreases |hs|
  {
    assert (hs + ts)[1..] == hs[1..] + ts;
    assert LinkedTo(st, hs, t, 0);
    if |hs| == 1 {
      assert hs[1..] + ts == ts;
    } else {
      forall i ensures LinkedTo(st, hs[1..], t, i) { assert LinkedTo(st, hs, t, i + 1); }
      ChainAppend(st, st[h].next, hs[1..], t, ts);
    }
  }

  /** The cut chain, before its old tail is freed, holds exactly the first `n` bytes. */
  lemma TrimmedBytes(st: Store, st1: Store, p: Ptr, ps: seq<Ptr>, n: nat, k: nat)
    requires IsChain(st, p, ps) && k < |ps| && Distinct(ps) && AllIn(st, ps)
    requires Retotalled(st, st1, ps, TrimTotals(st, ps, n), k) && ps[k] in st1
    requires |Bytes(st, ps[..k])| <= n <= |Bytes(st, ps[..k])| + |st[ps[k]].data|
    ensures var rem := n - |Bytes(st, ps[..k])|;
      var st2 := st1[ps[k] := Seg(0, st[ps[k]].data[..rem], rem, st[ps[k]].ref)];
      && n <= |Bytes(st, ps)|
      && IsChain(st2, p, ps[..k + 1])
      && AllIn(st2, ps[..k + 1])
      && Bytes(st2, ps[..k + 1]) == Bytes(st, ps)[..n]
      && st2[p].totLen == n
      && (forall x :: x !in ps ==> SegKept(st, st2, x))
  {
    var rem := n - |Bytes(st, ps[..k])|;
    var st2 := st1[ps[k] := Seg(0, st[ps[k]].data[..rem], rem, st[ps[k]].ref)];
    ChainInStore(st, p, ps);
    var head := ps[..k + 1];
    assert IsChain(st2, 0, []);
    forall i ensures LinkedTo(st2, head, 0, i) {
      assert LinkedAt(st, ps, i);
      if 0 <= i < k { assert SegRetotalled(st, st1, ps, TrimTotals(st, ps, n), i); }
    }
    ChainAppend(st2, p, head, 0, []);
    assert head + [] == head;
    forall i | 0 <= i < k + 1 ensures head[i] in st2 { assert LinkedTo(st2, head, 0, i); }
    forall i | 0 <= i < k ensures ps[..k][i] in st2 && st2[ps[..k][i]].data == st[ps[..k][i]].data {
      assert SegRetotalled(st, st1, ps, TrimTotals(st, ps, n), i);
    }
    BytesFrame(st, st2, ps[..k]);
    assert head[..k] == ps[..k];
    BytesTake(st2, head, k);
    BytesTake(st, ps, k);
    assert head[..k + 1] == head;
    forall x | x !in ps ensures SegKept(st, st2, x) {
      assert x !in ps[..k];
      assert SegKept(st, st1, x);
    }
    if k > 0 {
      assert SegRetotalled(st, st1, ps, TrimTotals(st, ps, n), 0);
      assert ps[..0] == [];
    }
  }

  /** The segments behind the cut are still a chain. */
  lemma TailChain(st: Store, st1: Store, p: Ptr, ps: seq<Ptr>, n: nat, k: nat)
    requires IsChain(st, p, ps) && k < |ps| && Distinct(ps) && AllIn(st, ps)
    requires Retotalled(st, st1, ps, TrimTotals(st, ps, n), k) && ps[k] in st1
    requires |Bytes(st, ps[..k])| <= n <= |Bytes(st, ps[..k])| + |st[ps[k]].data|
    ensures st[ps[k]].next == if k + 1 < |ps| then ps[k + 1] else 0
    ensures var rem := n - |Bytes(st, ps[..k])|;
      var st2 := st1[ps[k] := Seg(0, st[ps[k]].data[..rem], rem, st[ps[k]].ref)];
      IsChain(st2, st[ps[k]].next, ps[k + 1..]) && AllIn(st2, ps[k + 1..])
  {
    var rem := n - |Bytes(st, ps[..k])|;
    var st2 := st1[ps[k] := Seg(0, st[ps[k]].data[..rem], rem, st[ps[k]].ref)];
    ChainInStore(st, p, ps);
    assert LinkedAt(st, ps, k);
    var qs := ps[k + 1..];
    ChainSuffix(st, p, ps, k + 1);
    forall i | 0 <= i < |qs| ensures qs[i] in st2 && st2[qs[i]] == st[qs[i]] {
      assert qs[i] == ps[k + 1 + i] && ps[k + 1 + i] !in ps[..k + 1];
      assert SegKept(st, st1, ps[k + 1 + i]);
    }
    ChainFrame(st, st2, st[ps[k]].next, qs);
  }

  /** Freeing the old tail leaves the cut chain alone. */
  lemma FreedElsewhere(st: Store, p: Ptr, ps: seq<Ptr>, k: nat, st': Store)
    requires k < |ps| && Distinct(ps) && IsChain(st, p, ps[..k + 1]) && AllIn(st, ps[k + 1..])
    requires AllIn(st, ps[..k + 1]) && st' == Freed(st, ps[k + 1..])
    ensures IsChain(st', p, ps[..k + 1]) && AllIn(st', ps[..k + 1])
    ensures Bytes(st', ps[..k + 1]) == Bytes(st, ps[..k + 1]) && p in st' && st'[p] == st[p]
    ensures forall x :: x !in ps ==> SegKept(st, st', x)
    ensures forall i :: 0 <= i <= k ==> SegKept(st, st', ps[i])
  {
    var head, qs := ps[..k + 1], ps[k + 1..];
    forall i | 0 <= i < |head| ensures head[i] in st' && st'[head[i]] == st[head[i]] {
      assert head[i] == ps[i] && head[i] !in qs;
      FreedFrame(st, qs, head[i]);
      assert SegKept(st, st', head[i]);
    }
    assert head[0] == p;
    ChainFrame(st, st', p, head);
    BytesFrame(st, st', head);
    forall x | x !in ps ensures SegKept(st, st', x) { FreedFrame(st, qs, x); }
    forall i | 0 <= i <= k ensures SegKept(st, st', ps[i]) { assert ps[i] == head[i]; }
  }

  lemma RefKeeps(st: Store, handles: multiset<Ptr>, rank: map<Ptr, nat>, p: Ptr)
    requires Counted(st, handles, rank) && p in st
    ensures Counted(st[p := st[p].(ref := st[p].ref + 1)], handles + multiset{p}, rank)
    ensures Totalled(st[p := st[p].(ref := st[p].ref + 1)]) <==> Totalled(st)
  {
    var st', h' := st[p := st[p].(ref := st[p].ref + 1)], handles + multiset{p};
    forall x ensures RefOk(st', h', x) {
      assert RefOk(st, handles, x);
      PointersAfter(st, p, st'[p], x);
    }
    forall x ensures LinkOk(st', rank, x) { assert LinkOk(st, rank, x); }
    forall x ensures TotOk(st', x) <==> TotOk(st, x) {}
  }

  /** After the link, the chain of `h` is both chains and its bytes are the concatenation. */
  lemma CatChain(st: Store, st1: Store, h: Ptr, hs: seq<Ptr>, t: Ptr, ts: seq<Ptr>)
    requires IsChain(st, h, hs) && IsChain(st, t, ts) && hs != [] && t in st && Distinct(hs)
      && (forall x :: x in hs ==> x !in ts)
    requires AllIn(st, hs) && AllIn(st, ts)
    requires Retotalled(st, st1, hs, RaisedTotals(st, hs, st[t].totLen), |hs|) && hs[|hs| - 1] in st1
    ensures var st2 := st1[hs[|hs| - 1] := st1[hs[|hs| - 1]].(next := t)];
      && IsChain(st2, h, hs + ts)
      && AllIn(st2, hs + ts)
      && Bytes(st2, hs + ts) == Bytes(st, hs) + Bytes(st, ts)
      && (forall x :: x !in hs ==> SegKept(st, st2, x))
  {
    var st2 := st1[hs[|hs| - 1] := st1[hs[|hs| - 1]].(next := t)];
    forall x
      ensures (x in st <==> x in st2) && (x in st ==> st2[x].data == st[x].data) && (x !in hs ==> SegKept(st, st2, x))
    {
      RetotalledNext(st, st1, hs, RaisedTotals(st, hs, st[t].totLen), x);
    }
    ChainInStore(st, h, hs);
    forall i ensures LinkedAt(st, ts, i) { ChainInStore(st, t, ts); }
    forall i | 0 <= i < |ts| ensures ts[i] in st2 && st2[ts[i]] == st[ts[i]] {
      assert ts[i] in ts && ts[i] !in hs;
      assert SegKept(st, st2, ts[i]);
    }
    ChainFrame(st, st2, t, ts);
    forall i ensures LinkedTo(st2, hs, t, i) {
      assert LinkedAt(st, hs, i);
      if 0 <= i < |hs| {
        RetotalledNext(st, st1, hs, RaisedTotals(st, hs, st[t].totLen), hs[i]);
      }
    }
    ChainAppend(st2, h, hs, t, ts);
    BytesFrame(st, st2, hs);
    BytesFrame(st, st2, ts);
    BytesConcat(st2, hs, ts);
  }

  /** Wrong totals stay wrong where nothing changes. */
  lemma StillWrong(st: Store, st': Store, x: Ptr)
    requires x in st && !TotOk(st, x) && SegKept(st, st', x) && SegKept(st, st', st[x].next)
    ensures !Totalled(st')
  {
    assert !TotOk(st', x);
  }

  /** The cut chain keeps its wrong totals, if any, when the rest is freed. */
  lemma TrimStaysWrong(st: Store, p: Ptr, ps: seq<Ptr>, n: nat, k: nat, st1: Store, st2: Store, st': Store)
    requires Trimming(st, p, ps, n, k, st1, st2) && n < st[p].totLen
    requires forall x :: x !in ps ==> SegKept(st2, st', x)
    requires forall i :: 0 <= i <= k ==> SegKept(st2, st', ps[i])
    ensures !Closed(st, ps[..k + 1]) ==> !Totalled(st')
  {
    if !Closed(st, ps[..k + 1]) {
      var y :| y in st && st[y].next in ps[..k + 1] && y !in ps[..k + 1];
      if y in ps {
        ChainGoesOn(st, p, ps, k, y);
      }
      TrimTotOut(st, p, ps, n, k, st1, st2, y);
      var i :| 0 <= i < k + 1 && ps[i] == st[y].next;
      assert y !in ps[..k];
      assert SegKept(st, st1, y);
      StillWrong(st2, st', y);
    }
  }

  /** What pbuf_realloc leaves: the first `n` bytes, and right totals if and only if nothing else is linked to them. */
  ghost predicate Cut(st: Store, p: Ptr, ps: seq<Ptr>, n: nat, k: nat, st': Store) {
    && k < |ps| && AllIn(st, ps) && AllIn(st', ps[..k + 1]) && n <= |Bytes(st, ps)|
    && |Bytes(st, ps[..k])| <= n <= |Bytes(st, ps[..k])| + |st[ps[k]].data|
    && IsChain(st', p, ps[..k + 1]) && Bytes(st', ps[..k + 1]) == Bytes(st, ps)[..n] && p in st' && st'[p].totLen == n
    && (forall x :: x !in ps ==> SegKept(st, st', x))
    && (Totalled(st') <==> Closed(st, ps[..k + 1]))
  }

  lemma CutBefore(st: Store, p: Ptr, ps: seq<Ptr>, n: nat, k: nat, st1: Store, st2: Store)
    requires Trimming(st, p, ps, n, k, st1, st2) && n < st[p].totLen
    ensures Cut(st, p, ps, n, k, st2) && st[ps[k]].next == if k + 1 < |ps| then ps[k + 1] else 0
    ensures IsChain(st2, st[ps[k]].next, ps[k + 1..]) && AllIn(st2, ps[k + 1..])
  {
    TrimmedBytes(st, st1, p, ps, n, k);
    TailChain(st, st1, p, ps, n, k);
    TrimTotalled(st, p, ps, n, k, st1, st2);
  }

  lemma CutAfter(st: Store, p: Ptr, ps: seq<Ptr>, n: nat, k: nat, st1: Store, st2: Store, st': Store)
    requires Trimming(st, p, ps, n, k, st1, st2) && n < st[p].totLen && Cut(st, p, ps, n, k, st2)
    requires AllIn(st2, ps[k + 1..]) && st' == Freed(st2, ps[k + 1..]) && (Totalled(st2) ==> Totalled(st'))
    ensures Cut(st, p, ps, n, k, st')
  {
    FreedElsewhere(st2, p, ps, k, st');
    forall x | x !in ps ensures SegKept(st, st', x) { assert SegKept(st, st2, x) && SegKept(st2, st', x); }
    TrimStaysWrong(st, p, ps, n, k, st1, st2, st');
  }

  /** Freeing the rest of the chain leaves the segments linked to `p` as right or wrong as the cut has left them. */
  lemma DechainTotals(st0: Store, rank: map<Ptr, nat>, cut: Store, st: Store, p: Ptr, ps: seq<Ptr>)
    requires (forall x :: LinkOk(st0, rank, x)) && IsChain(st0, p, ps) && |ps| > 1 && p in st0 && AllIn(st0, ps)
    requires cut == st0[p := st0[p].(next := 0, totLen := |st0[p].data|)] && (Totalled(cut) ==> Totalled(st))
    requires Totalled(cut) <==> Pointers(st0, p) == {} || st0[ps[1]].totLen == 0
    requires Totalled(st0) && p in st && st[p] == cut[p] && forall x :: x !in ps ==> SegKept(st0, st, x)
    ensures Totalled(st) <==> Pointers(st0, p) == {} || st0[ps[1]].totLen == 0
  {
    if Pointers(st0, p) != {} && st0[ps[1]].totLen != 0 {
      var y :| y in Pointers(st0, p);
      assert LinkOk(st0, rank, y) && LinkOk(st0, rank, p);
      ChainDistinct(st0, rank, p, ps);
      assert y !in ps;
      assert SegKept(st0, st, y);
      ChainInStore(st0, p, ps);
      assert LinkedAt(st0, ps, 0) && st0[p].next == ps[1] && ps[1] != 0;
      CutTot(st0, p, y);
      assert !TotOk(cut, y);
      StillWrong(cut, st, y);
    }
  }

  /** What pbuf_dechain leaves of the chain `ps` of `p`. */
  ghost predicate Dechained(st0: Store, p: Ptr, ps: seq<Ptr>, st: Store) {
    && AllIn(st0, ps) && ps != [] && p in st0 && p in st && st[p] == st0[p].(next := 0, totLen := |st0[p].data|)
    && (forall x :: x !in ps ==> SegKept(st0, st, x))
    && (forall x :: x in ps[1..] ==> (x in st <==> x !in ps[1..][..Unshared(st0, ps[1..])]))
    && (Totalled(st) <==> |ps| == 1 || Pointers(st0, p) == {} || st0[ps[1]].totLen == 0)
  }

  lemma DechainCut(st: Store, handles: multiset<Ptr>, rank: map<Ptr, nat>, p: Ptr, ps: seq<Ptr>)
    requires Inv(st, handles, rank) && IsChain(st, p, ps) && p in st && p != 0 && st[p].next != 0
    ensures var q, cut := st[p].next, st[p := st[p].(next := 0, totLen := |st[p].data|)];
      && |ps| > 1 && q == ps[1] && q in st && st[q := st[q].(totLen := (st[p].totLen - |st[p].data|) % U16)] == st
      && Counted(cut, handles + multiset{q}, rank) && IsChain(cut, q, ps[1..]) && AllIn(cut, ps[1..]) && AllIn(st, ps)
      && Unshared(cut, ps[1..]) == Unshared(st, ps[1..])
      && (Totalled(cut) <==> Pointers(st, p) == {} || st[q].totLen == 0)
  {
    var q, cut, qs := st[p].next, st[p := st[p].(next := 0, totLen := |st[p].data|)], ps[1..];
    ChainInStore(st, p, ps);
    ChainDistinct(st, rank, p, ps);
    assert TotOk(st, p) && TotOk(st, q) && LinkedAt(st, ps, 0);
    CutKeeps(st, handles, rank, p);
    ChainFrame(st, cut, q, qs);
    UnsharedFrame(st, cut, qs);
  }

  lemma DechainDone(st0: Store, rank: map<Ptr, nat>, cut: Store, st: Store, p: Ptr, ps: seq<Ptr>)
    requires (forall x :: LinkOk(st0, rank, x)) && IsChain(st0, p, ps) && |ps| > 1 && p in st0 && AllIn(st0, ps)
      && Totalled(st0)
    requires cut == st0[p := st0[p].(next := 0, totLen := |st0[p].data|)] && AllIn(cut, ps[1..])
      && st == Freed(cut, ps[1..])
    requires Totalled(cut) <==> Pointers(st0, p) == {} || st0[ps[1]].totLen == 0
    requires Totalled(cut) ==> Totalled(st)
    ensures Dechained(st0, p, ps, st) && (ps[1] in st <==> Unshared(st0, ps[1..]) == 0)
  {
    ChainDistinct(st0, rank, p, ps);
    assert ps[1] == ps[1..][0] && (Unshared(st0, ps[1..]) > 0 ==> ps[1] == ps[1..][..Unshared(st0, ps[1..])][0]);
    AfterDechain(st0, cut, st, p, ps);
    DechainTotals(st0, rank, cut, st, p, ps);
  }

  class PbufHeap {
    var st: Store
    /** The pointers that users hold. */
    ghost var handles: multiset<Ptr>
    ghost var rank: map<Ptr, nat>

    /** The counts are exact. */
    ghost predicate Counts()
      reads this
    {
      Counted(st, handles, rank)
    }

    ghost predicate Valid()
      reads this
    {
      Counts() && Totalled(st)
    }

    /** Any store in which counts and totals are right. */
    constructor (st: Store, ghost handles: multiset<Ptr>, ghost rank: map<Ptr, nat>)
      requires Inv(st, handles, rank)
      ensures Valid() && this.st == st && this.handles == handles
    {
      this.st := st;
      this.handles := handles;
      this.rank := rank;
    }

    /** pbuf_alloc of type PBUF_POOL: a new chain of exactly `length` bytes, or no change when the pool runs out. */
    method PbufAllocPool(length: nat, room: nat, pool: seq<Ptr>) returns (p: Ptr, ghost ps: seq<Ptr>)
      requires Valid() && length < U16 && 0 < room <= POOL_BUFSIZE && Distinct(pool)
      requires forall i :: 0 <= i < |pool| ==> pool[i] != 0 && pool[i] !in st
      modifies this
      ensures Valid() && (p == 0 <==> |pool| < Needed(length, room))
      ensures p == 0 ==> st == old(st) && handles == old(handles)
      ensures p != 0 ==>
        && handles == old(handles) + multiset{p}
        && IsChain(st, p, ps) && Closed(st, ps) && AllIn(st, ps) && |Bytes(st, ps)| == length
        && Plain(Lens(st, ps))
        && ps == pool[..Needed(length, room)]
        && (forall x :: x !in ps ==> SegKept(old(st), st, x))
    {
      p, st, ps := PoolChain(st, length, room, pool);
      if p != 0 {
        BuiltKeeps(old(st), st, ps, handles, rank, length);
        assert SegBuilt(old(st), st, ps, 0, |ps| - 1);
        handles := handles + multiset{p};
        rank := RanksWith(rank, ps);
      }
    }

    /**
     pbuf_alloc of the other types: one segment at `at`, which mem_malloc or memp_malloc has
     returned; its bytes are not set.
     */
    method PbufAllocOne(length: nat, at: Ptr) returns (p: Ptr)
      requires Valid() && length < U16 && at !in st
      modifies this
      ensures Valid() && p == at
      ensures p == 0 ==> st == old(st) && handles == old(handles)
      ensures p != 0 ==>
        && handles == old(handles) + multiset{p} && IsChain(st, p, [p]) && Closed(st, [p])
        && AllIn(st, [p]) && |Bytes(st, [p])| == length && Plain(Lens(st, [p]))
        && (forall x :: x != p ==> SegKept(old(st), st, x))
    {
      p := at;
      if p == 0 {
        return;
      }
      ghost var st0 := st;
      st := st[p := Seg(0, seq(length, _ => 0), length, 1)];
      FirstBuilt(st0, p, seq(length, _ => 0), length);
      BuiltKeeps(st0, st, [p], handles, rank, length);
      forall x | x != p ensures SegKept(st0, st, x) { assert x !in [p]; }
      handles := handles + multiset{p};
      rank := RanksWith(rank, [p]);
    }

    /** pbuf_free: gives up one reference to `p0`. The returned count is a u8. */
    method PbufFree(p0: Ptr, ghost ps: seq<Ptr>) returns (count: nat)
      requires Counts() && IsChain(st, p0, ps) && (p0 != 0 ==> p0 in handles)
      modifies this`st, this`handles
      ensures Counts() && (Totalled(old(st)) ==> Totalled(st)) && handles == old(handles) - multiset{p0}
      ensures AllIn(old(st), ps)
      ensures st == Freed(old(st), ps) && count == Unshared(old(st), ps) % 256
    {
      ChainInStore(st, p0, ps);
      ChainDistinct(st, rank, p0, ps);
      FreeStarts(st, handles, rank, p0, ps);
      forall i | 0 <= i < |ps| ensures st[ps[i]].ref > 0 { ChainCounted(st, handles, rank, p0, ps, i); }
      handles := handles - multiset{p0};
      FreeingEnds(st, st, handles, rank, ps, p0, 0);
      count, st := ReleaseLoop(st, p0, ps);
    }

    /** pbuf_ref */
    method PbufRef(p: Ptr)
      requires Counts() && (p != 0 ==> p in st && st[p].ref < U16 - 1)
      modifies this`st, this`handles
      ensures Counts() && (Totalled(st) <==> Totalled(old(st)))
      ensures p == 0 ==> st == old(st) && handles == old(handles)
      ensures p != 0 ==>
        handles == old(handles) + multiset{p} && st == old(st)[p := old(st)[p].(ref := old(st)[p].ref + 1)]
    {
      if p != 0 {
        RefKeeps(st, handles, rank, p);
        st := st[p := st[p].(ref := st[p].ref + 1)];
        handles := handles + multiset{p};
      }
    }

    /** The loop of pbuf_cat and the addition after it: every total of the chain grows by that of `t`. */
    method RaiseTotals(h: Ptr, t: Ptr, ghost hs: seq<Ptr>) returns (last: Ptr)
      requires IsChain(st, h, hs) && hs != [] && Distinct(hs) && t in st && t !in hs
      requires AllIn(st, hs)
      modifies this`st
      ensures last == hs[|hs| - 1] && Retotalled(old(st), st, hs, RaisedTotals(old(st), hs, old(st)[t].totLen), |hs|)
      ensures last in st
    {
      ChainInStore(st, h, hs);
      ghost var tot := RaisedTotals(st, hs, st[t].totLen);
      last := h;
      ghost var k := 0;
      assert forall x :: SegKept(old(st), st, x);
      while true
        invariant k < |hs| && last == hs[k] && Retotalled(old(st), st, hs, tot, k)
        invariant last in st && t in st && st[t] == old(st)[t]
        decreases |hs| - k
      {
        RetotalOne(old(st), st, hs, tot, k);
        assert LinkedAt(old(st), hs, k) && LinkedAt(old(st), hs, k + 1);
        st := st[last := st[last].(totLen := (st[last].totLen + st[t].totLen) % U16)];
        k := k + 1;
        if st[last].next == 0 {
          break;
        }
        last := st[last].next;
        assert hs[k] !in hs[..k];
        assert SegKept(old(st), st, hs[k]);
      }
    }

    /**
     pbuf_cat: takes over the caller's reference to `t`. The totals stay right if and only if nothing
     else is linked to the first chain or the second is empty.
     */
    method PbufCat(h: Ptr, t: Ptr, ghost hs: seq<Ptr>, ghost ts: seq<Ptr>)
      requires Valid() && IsChain(st, h, hs) && IsChain(st, t, ts)
      requires h != 0 && t != 0 ==> t in handles && forall x :: x in hs ==> x !in ts
      modifies this
      ensures Counts() && AllIn(old(st), hs) && AllIn(old(st), ts)
      ensures h == 0 || t == 0 ==> st == old(st) && handles == old(handles)
      ensures h != 0 && t != 0 ==>
        && handles == old(handles) - multiset{t} && t in old(st)
        && IsChain(st, h, hs + ts) && AllIn(st, hs + ts)
        && Bytes(st, hs + ts) == Bytes(old(st), hs) + Bytes(old(st), ts)
        && (forall x :: x !in hs ==> SegKept(old(st), st, x))
        && (Totalled(st) <==> Closed(old(st), hs) || old(st)[t].totLen == 0)
    {
      ChainInStore(st, h, hs);
      ChainInStore(st, t, ts);
      if h == 0 || t == 0 {
        return;
      }
      ChainDistinct(st, rank, h, hs);
      assert t in ts;
      var p := RaiseTotals(h, t, hs);
      CatKeeps(old(st), handles, rank, h, hs, t, ts, st);
      CatChain(old(st), st, h, hs, t, ts);
      st := st[p := st[p].(next := t)];
      rank := RanksAfterLink(rank, ts, rank[t] + 1);
      handles := handles - multiset{t};
    }

    /**
     pbuf_chain: like pbuf_cat, but the caller keeps its own reference to `t`; a second reference if
     there is no `h`.
     */
    method PbufChain(h: Ptr, t: Ptr, ghost hs: seq<Ptr>, ghost ts: seq<Ptr>)
      requires Valid() && IsChain(st, h, hs) && IsChain(st, t, ts) && (t != 0 ==> t in st && st[t].ref < U16 - 1)
      requires h != 0 && t != 0 ==> t in handles && forall x :: x in hs ==> x !in ts
      modifies this
      ensures Counts() && AllIn(old(st), hs) && AllIn(old(st), ts)
      ensures handles == if h == 0 && t != 0 then old(handles) + multiset{t} else old(handles)
      ensures forall x :: x !in hs && x != t ==> SegKept(old(st), st, x)
      ensures t != 0 ==> t in st && st[t] == old(st)[t].(ref := old(st)[t].ref + 1)
      ensures h == 0 || t == 0 ==> Totalled(st) && forall x :: x != t ==> SegKept(old(st), st, x)
      ensures h != 0 && t != 0 ==>
        && IsChain(st, h, hs + ts) && AllIn(st, hs + ts) && t in old(st)
        && Bytes(st, hs + ts) == Bytes(old(st), hs) + Bytes(old(st), ts)
        && (Totalled(st) <==> Closed(old(st), hs) || old(st)[t].totLen == 0)
    {
      PbufCat(h, t, hs, ts);
      assert h != 0 && t != 0 ==> t in ts && t !in hs && SegKept(old(st), st, t);
      ghost var st1 := st;
      PbufRef(t);
      if h != 0 && t != 0 {
        ChainFrame(st1, st, h, hs + ts);
        BytesFrame(st1, st, hs + ts);
      }
    }

    /**
     pbuf_dechain: the rest of the chain, or NULL when the u8 count of released segments is not zero.
     The totals stay right if and only if nothing is linked to `p` or there is nothing to cut off.
     */
    method PbufDechain(p: Ptr, ghost ps: seq<Ptr>) returns (r: Ptr)
      requires Valid() && p in st && p != 0 && IsChain(st, p, ps)
      modifies this`st, this`handles
      ensures Counts() && handles == old(handles)
      ensures Dechained(old(st), p, ps, st)
      ensures var gone := Unshared(old(st), ps[1..]);
        r == (if ps[1..] == [] || gone % 256 != 0 then 0 else ps[1])
          && ((r != 0 ==> r in st) <==> gone == 0 || gone % 256 != 0)
    {
      var q := st[p].next;
      ghost var st0, cut := st, st[p := st[p].(next := 0, totLen := |st[p].data|)];
      ChainInStore(st, p, ps);
      assert TotOk(st, p) && LinkedAt(st, ps, 0);
      if q == 0 {
        assert st == cut;
        return 0;
      }
      DechainCut(st, handles, rank, p, ps);
      st := st[q := st[q].(totLen := (st[p].totLen - |st[p].data|) % U16)];
      st := st[p := st[p].(next := 0, totLen := |st[p].data|)];
      assert st == cut;
      handles := handles + multiset{q};
      var gone := PbufFree(q, ps[1..]);
      DechainDone(st0, rank, cut, st, p, ps);
      return if gone > 0 then 0 else q;
    }

    /** The loop of pbuf_realloc: skips the segments that stay whole, lowering their totals by a u16 addition. */
    method SkipWhole(p: Ptr, newLen: nat, ghost ps: seq<Ptr>) returns (q: Ptr, rem: nat, ghost k: nat)
      requires IsChain(st, p, ps) && ps != [] && Distinct(ps) && newLen < U16 && Totalled(st)
      requires AllIn(st, ps)
      requires newLen < st[p].totLen <= |Bytes(st, ps)|
      modifies this`st
      ensures k < |ps| && q == ps[k] && Retotalled(old(st), st, ps, TrimTotals(old(st), ps, newLen), k)
      ensures |Bytes(old(st), ps[..k])| <= newLen <= |Bytes(old(st), ps[..k])| + |old(st)[q].data|
      ensures rem == newLen - |Bytes(old(st), ps[..k])| && q in st
    {
      ghost var st0 := st;
      ChainInStore(st, p, ps);
      var grow := newLen - st[p].totLen;
      var add := grow % U16;
      q, rem, k := p, newLen, 0;
      assert TotOk(st0, p);
      assert forall x :: SegKept(st0, st, x);
      while rem > |st[q].data|
        invariant k < |ps| && q == ps[k] && q in st && st[q] == st0[q]
        invariant Retotalled(st0, st, ps, TrimTotals(st0, ps, newLen), k)
        invariant |Bytes(st0, ps[..k])| <= newLen && rem == newLen - |Bytes(st0, ps[..k])|
        invariant (st0[q].totLen + add) % U16 == rem
        decreases |ps| - k
      {
        SkipStep(st0, ps, newLen, k, add);
        RetotalOne(st0, st, ps, TrimTotals(st0, ps, newLen), k);
        rem := rem - |st[q].data|;
        st := st[q := st[q].(totLen := (st[q].totLen + add) % U16)];
        q := st[q].next;
        k := k + 1;
        assert ps[k] !in ps[..k];
        assert SegKept(st0, st, ps[k]);
      }
    }

    /** The end of pbuf_realloc: segment `q` keeps `rem` bytes and what follows it is freed. */
    method CutTail(p: Ptr, q: Ptr, rem: nat, ghost ps: seq<Ptr>, ghost n: nat, ghost k: nat, ghost st0: Store)
      requires Inv(st0, handles, rank) && IsChain(st0, p, ps) && Distinct(ps) && AllIn(st0, ps) && p in st0
        && n < st0[p].totLen
      requires k < |ps| && q == ps[k] && q in st && n < U16 && Retotalled(st0, st, ps, TrimTotals(st0, ps, n), k)
      requires |Bytes(st0, ps[..k])| <= n <= |Bytes(st0, ps[..k])| + |st0[q].data| && rem == n - |Bytes(st0, ps[..k])|
      modifies this`st, this`handles
      ensures Counts() && handles == old(handles)
      ensures Cut(st0, p, ps, n, k, st)
    {
      ghost var st1 := st;
      assert ps[k] !in ps[..k];
      assert SegKept(st0, st, q);
      var tail := st[q].next;
      st := st[q := Seg(0, st[q].data[..rem], rem, st[q].ref)];
      ghost var st2 := st;
      TrimKeeps(st0, handles, rank, p, ps, n, k, st1, st2);
      CutBefore(st0, p, ps, n, k, st1, st2);
      if tail != 0 {
        handles := handles + multiset{tail};
        var gone := PbufFree(tail, ps[k + 1..]);
        CutAfter(st0, p, ps, n, k, st1, st2, st);
        assert handles == old(handles);
      }
    }

    /**
     pbuf_realloc: cuts the chain to its first `newLen` bytes and gives up the rest. The totals stay
     right if and only if nothing else is linked to the part that is kept.
     */
    method PbufRealloc(p: Ptr, newLen: nat, ghost ps: seq<Ptr>) returns (ghost k: nat)
      requires Valid() && p in st && p != 0 && IsChain(st, p, ps) && newLen < U16
      modifies this`st, this`handles
      ensures Counts() && handles == old(handles)
      ensures AllIn(old(st), ps) && k < |ps|
      ensures newLen >= old(st)[p].totLen ==> st == old(st)
      ensures newLen < old(st)[p].totLen ==> Cut(old(st), p, ps, newLen, k, st)
    {
      assert AllIn(st, ps) by { ChainInStore(st, p, ps); }
      k := 0;
      if newLen >= st[p].totLen {
        return;
      }
      assert Distinct(ps) by { ChainDistinct(st, rank, p, ps); }
      assert st[p].totLen <= |Bytes(st, ps)| by { TotLenIsLength(st, p, ps); }
      var q, rem;
      q, rem, k := SkipWhole(p, newLen, ps);
      CutTail(p, q, rem, ps, newLen, k, old(st));
    }

    /** pbuf_copy_partial: `len` bytes from `offset`, clipped to the chain, for any offset and length. */
    method PbufCopyPartial(buf: Ptr, len: nat, offset: nat, ghost ps: seq<Ptr>) returns (out: seq<int>)
      requires IsChain(st, buf, ps) && len < U16 && offset < U16
      ensures AllIn(st, ps) && out == Clip(Bytes(st, ps), offset, len)
    {
      out := Gather(st, buf, len, offset, ps);
    }

    /**
     pbuf_copy between packets: the target's first bytes become the source's and the rest of the target
     stays, if and only if the target is long enough and the lengths of the segments allow it. Otherwise
     the first `c` bytes are copied.
     */
    method PbufCopy(pTo: Ptr, pFrom: Ptr, ghost ts: seq<Ptr>, ghost fs: seq<Ptr>) returns (err: Err, ghost c: nat)
      requires Valid() && IsChain(st, pTo, ts) && IsChain(st, pFrom, fs) && (forall x :: x in ts ==> x !in fs)
      requires Packet(st, ts) && Packet(st, fs)
      modifies this`st
      ensures Valid() && AllIn(st, ts) && IsChain(st, pTo, ts) && forall x :: x !in ts ==> SegKept(old(st), st, x)
      ensures var from, to := Bytes(old(st), fs), Bytes(old(st), ts);
        if pTo == 0 || pFrom == 0 || |to| < |from| then err == ErrArg && st == old(st)
        else
          && c <= |from| && Bytes(st, ts) == from[..c] + to[c..] && (err == ErrOk ==> c == |from|)
          && err == Outcome(Lens(old(st), fs), Lens(old(st), ts))
    {
      ChainInStore(st, pTo, ts);
      ChainInStore(st, pFrom, fs);
      c := 0;
      if pTo == 0 || pFrom == 0 {
        return ErrArg, c;
      }
      TotLenIsLength(st, pTo, ts);
      TotLenIsLength(st, pFrom, fs);
      if st[pTo].totLen < st[pFrom].totLen {
        return ErrArg, c;
      }
      ChainDistinct(st, rank, pTo, ts);
      err, st, c := CopyLoop(st, pTo, pFrom, ts, fs);
      Refilled(old(st), st, handles, rank, pTo, ts);
    }
  }
}
