/**
 Packet buffers (net/lwip/core/pbuf.c): reference-counted segments linked into chains.
 A chain stands for one byte sequence; `tot_len` repeats its length in every segment.
 */
module PbufChains {

  const U16: nat := 0x1_0000

  /** Address of a pbuf; 0 is NULL. */
  type Ptr = nat

  /** `data` is the part of the payload that counts, so `len` is |data|. */
  datatype Seg = Seg(next: Ptr, data: seq<int>, totLen: nat, ref: nat)

  type Store = map<Ptr, Seg>

  // ---------- Chains ----------

  /** `ps` are the segments met from `p` along `next`. */
  ghost predicate IsChain(st: Store, p: Ptr, ps: seq<Ptr>)
    decreases |ps|
  {
    if ps == [] then p == 0 else p != 0 && ps[0] == p && p in st && IsChain(st, st[p].next, ps[1..])
  }

  ghost predicate AllIn(st: Store, ps: seq<Ptr>) {
    forall i :: 0 <= i < |ps| ==> ps[i] in st
  }

  /** The bytes of a chain. */
  ghost function Bytes(st: Store, ps: seq<Ptr>): seq<int>
    requires AllIn(st, ps)
  {
    if ps == [] then [] else st[ps[0]].data + Bytes(st, ps[1..])
  }

  ghost predicate LinkedAt(st: Store, ps: seq<Ptr>, i: int) {
    0 <= i < |ps| ==> ps[i] in st && ps[i] != 0 && st[ps[i]].next == if i + 1 < |ps| then ps[i + 1] else 0
  }

  lemma {:induction false} ChainInStore(st: Store, p: Ptr, ps: seq<Ptr>)
    requires IsChain(st, p, ps)
    ensures forall i :: LinkedAt(st, ps, i)
    ensures AllIn(st, ps)
    decreases |ps|
  {
    if ps != [] {
      var rest := ps[1..];
      ChainInStore(st, st[p].next, rest);
      forall i ensures LinkedAt(st, ps, i) {
        assert LinkedAt(st, rest, i - 1);
        assert rest != [] ==> rest[0] == ps[1];
      }
    }
    forall i | 0 <= i < |ps| ensures ps[i] in st { assert LinkedAt(st, ps, i); }
  }

  lemma {:induction false} ChainSuffix(st: Store, p: Ptr, ps: seq<Ptr>, k: nat)
    requires IsChain(st, p, ps) && k <= |ps|
    ensures IsChain(st, if k < |ps| then ps[k] else 0, ps[k..])
    decreases k
  {
    if k > 0 {
      ChainSuffix(st, st[p].next, ps[1..], k - 1);
      assert ps[k..] == ps[1..][k - 1..];
    } else {
      assert ps[0..] == ps;
    }
  }

  /** A chain depends only on the `next` fields of its segments. */
  lemma {:induction false} ChainFrame(st: Store, st': Store, p: Ptr, ps: seq<Ptr>)
    requires IsChain(st, p, ps)
    requires forall i :: 0 <= i < |ps| && ps[i] in st ==> ps[i] in st' && st'[ps[i]].next == st[ps[i]].next
    ensures IsChain(st', p, ps)
    decreases |ps|
  {
    if ps != [] {
      assert ps[0] in st;
      ChainFrame(st, st', st[p].next, ps[1..]);
    }
  }

  lemma {:induction false} BytesFrame(st: Store, st': Store, ps: seq<Ptr>)
    requires forall i :: 0 <= i < |ps| ==> ps[i] in st && ps[i] in st' && st'[ps[i]].data == st[ps[i]].data
    ensures Bytes(st', ps) == Bytes(st, ps)
  {
    if ps != [] {
      BytesFrame(st, st', ps[1..]);
    }
  }

  lemma {:induction false} BytesConcat(st: Store, ps: seq<Ptr>, qs: seq<Ptr>)
    requires AllIn(st, ps)
    requires AllIn(st, qs)
    ensures AllIn(st, ps + qs)
    ensures Bytes(st, ps + qs) == Bytes(st, ps) + Bytes(st, qs)
  {
    if ps == [] {
      assert ps + qs == qs;
    } else {
      BytesConcat(st, ps[1..], qs);
      assert (ps + qs)[1..] == ps[1..] + qs;
    }
  }

  // ---------- The invariant ----------

  /** The segments whose `next` is `x`. */
  function Pointers(st: Store, x: Ptr): set<Ptr> {
    set y | y in st && st[y].next == x
  }

  /** The reference count is the number of pointers: `next` fields and the handles of users. */
  ghost predicate RefOk(st: Store, handles: multiset<Ptr>, x: Ptr) {
    && (x in st ==> x != 0 && st[x].ref == |Pointers(st, x)| + handles[x])
    && (x in handles ==> x in st)
  }

  ghost predicate LinkOk(st: Store, rank: map<Ptr, nat>, x: Ptr) {
    x in st ==>
      && x in rank
      && (st[x].next != 0 ==> st[x].next in st && st[x].next in rank && rank[st[x].next] < rank[x])
  }

  /** `tot_len` is the segment's length plus the next segment's `tot_len`, in 16 bits. */
  ghost predicate TotOk(st: Store, x: Ptr) {
    x in st ==>
      && |st[x].data| < U16
      && (st[x].next == 0 || st[x].next in st)
      && st[x].totLen == (|st[x].data| + if st[x].next == 0 then 0 else st[st[x].next].totLen) % U16
  }

  /** The counts are exact and the chains end. */
  ghost predicate Counted(st: Store, handles: multiset<Ptr>, rank: map<Ptr, nat>) {
    && (forall x :: RefOk(st, handles, x))
    && (forall x :: LinkOk(st, rank, x))
  }

  ghost predicate Totalled(st: Store) {
    forall x :: TotOk(st, x)
  }

  ghost predicate Inv(st: Store, handles: multiset<Ptr>, rank: map<Ptr, nat>) {
    Counted(st, handles, rank) && Totalled(st)
  }

  /** Every pointer into the store starts a finite chain of distinct segments. */
  lemma {:induction false} ChainOf(st: Store, handles: multiset<Ptr>, rank: map<Ptr, nat>, p: Ptr)
    returns (ps: seq<Ptr>)
    requires Counted(st, handles, rank) && (p == 0 || p in st)
    ensures IsChain(st, p, ps)
    ensures forall i :: 0 <= i < |ps| ==> ps[i] in st && ps[i] in rank && (p in rank ==> rank[ps[i]] <= rank[p])
    decreases if p in rank then rank[p] + 1 else 0
  {
    if p == 0 {
      ps := [];
    } else {
      assert LinkOk(st, rank, p) && RefOk(st, handles, p);
      if st[p].next == 0 {
        ps := [p];
      } else {
        ps := ChainOf(st, handles, rank, st[p].next);
        ps := [p] + ps;
      }
    }
  }

  /** The first `tot_len` of a chain is its length in 16 bits, so it is the length exactly when that is below 65536. */
  lemma {:induction false} TotLenIsLength(st: Store, p: Ptr, ps: seq<Ptr>)
    requires Totalled(st) && IsChain(st, p, ps) && p != 0
    ensures AllIn(st, ps)
    ensures st[p].totLen == |Bytes(st, ps)| % U16
    ensures st[p].totLen == |Bytes(st, ps)| <==> |Bytes(st, ps)| < U16
    decreases |ps|
  {
    assert TotOk(st, p);
    ChainInStore(st, p, ps);
    if st[p].next != 0 {
      TotLenIsLength(st, st[p].next, ps[1..]);
    } else {
      assert ps[1..] == [];
    }
  }

  // ---------- Effect of single changes on the counts ----------

  lemma PointersAfter(st: Store, y: Ptr, seg: Seg, x: Ptr)
    requires y in st
    ensures |Pointers(st[y := seg], x)| == |Pointers(st, x)|
      - (if st[y].next == x then 1 else 0) + (if seg.next == x then 1 else 0)
  {
    var others := Pointers(st, x) - {y};
    assert Pointers(st, x) == if st[y].next == x then others + {y} else others;
    assert Pointers(st[y := seg], x) == if seg.next == x then others + {y} else others;
  }

  lemma PointersWithout(st: Store, y: Ptr, x: Ptr)
    requires y in st
    ensures |Pointers(st - {y}, x)| == |Pointers(st, x)| - (if st[y].next == x then 1 else 0)
  {
    var others := Pointers(st, x) - {y};
    assert Pointers(st, x) == if st[y].next == x then others + {y} else others;
    assert Pointers(st - {y}, x) == others;
  }

  /**
   Nothing but `pbuf_free`'s own reference keeps `p`: taking it away turns the pointer from `p` into
   a reference owed to the next segment.
   */
  lemma DropLastReference(st: Store, handles: multiset<Ptr>, rank: map<Ptr, nat>, p: Ptr)
    requires Counted(st, handles + multiset{p}, rank) && p in st && st[p].ref == 1
    ensures var n := st[p].next;
      Counted(st - {p}, if n == 0 then handles else handles + multiset{n}, rank)
    ensures p !in handles && Pointers(st, p) == {}
    ensures Totalled(st) ==> Totalled(st - {p})
  {
    var n := st[p].next;
    var h0 := handles + multiset{p};
    assert RefOk(st, h0, p) && LinkOk(st, rank, p);
    var st', h' := st - {p}, if n == 0 then handles else handles + multiset{n};
    forall x ensures RefOk(st', h', x) {
      assert RefOk(st, h0, x);
      PointersWithout(st, p, x);
    }
    forall x ensures LinkOk(st', rank, x) {
      assert LinkOk(st, rank, x);
      assert x in st ==> x in Pointers(st, st[x].next);
    }
    if Totalled(st) {
      forall x ensures TotOk(st', x) {
        assert TotOk(st, x);
        assert x in st ==> x in Pointers(st, st[x].next);
      }
    }
  }

  /** `p` has other references: only its count changes. */
  lemma DropReference(st: Store, handles: multiset<Ptr>, rank: map<Ptr, nat>, p: Ptr)
    requires Counted(st, handles + multiset{p}, rank) && p in st && st[p].ref > 1
    ensures Counted(st[p := st[p].(ref := st[p].ref - 1)], handles, rank)
    ensures Totalled(st) ==> Totalled(st[p := st[p].(ref := st[p].ref - 1)])
  {
    var st', h0 := st[p := st[p].(ref := st[p].ref - 1)], handles + multiset{p};
    forall x ensures RefOk(st', handles, x) {
      assert RefOk(st, h0, x);
      PointersAfter(st, p, st'[p], x);
      if x in handles {
        assert x in h0;
      }
    }
    forall x ensures LinkOk(st', rank, x) { assert LinkOk(st, rank, x); }
    if Totalled(st) {
      forall x ensures TotOk(st', x) { assert TotOk(st, x); }
    }
  }

  /** Length of the run of segments at the head of `ps` that are referenced once. */
  ghost function Unshared(st: Store, ps: seq<Ptr>): (k: nat)
    requires AllIn(st, ps)
    ensures k <= |ps|
  {
    if ps == [] || st[ps[0]].ref != 1 then 0 else 1 + Unshared(st, ps[1..])
  }

  function Without(st: Store, ps: seq<Ptr>): Store {
    map x | x in st && x !in ps :: st[x]
  }

  /** What pbuf_free leaves: the unshared head run is gone and the segment after it has one reference less. */
  ghost function Freed(st: Store, ps: seq<Ptr>): Store
    requires AllIn(st, ps)
  {
    var k := Unshared(st, ps);
    var st' := Without(st, ps[..k]);
    if k < |ps| && ps[k] in st' && st[ps[k]].ref > 0 then st'[ps[k] := st[ps[k]].(ref := st[ps[k]].ref - 1)] else st'
  }

  // ---------- Changes along a chain ----------

  /**
   Every `next` pointer to a segment of `ps` comes from `ps`: the chain is not shared in the middle
   and nothing is linked before it.
   */
  ghost predicate Closed(st: Store, ps: seq<Ptr>) {
    forall y :: y in st && st[y].next in ps ==> y in ps
  }

  ghost predicate SegKept(st0: Store, st: Store, x: Ptr) {
    (x in st <==> x in st0) && (x in st ==> st[x] == st0[x])
  }

  ghost predicate SegRetotalled(st0: Store, st: Store, ps: seq<Ptr>, tot: seq<nat>, i: int) {
    0 <= i < |ps| && i < |tot| && ps[i] in st0 ==> ps[i] in st && st[ps[i]] == st0[ps[i]].(totLen := tot[i])
  }

  /** The first `k` segments of `ps` have the totals `tot`; nothing else differs. */
  ghost predicate Retotalled(st0: Store, st: Store, ps: seq<Ptr>, tot: seq<nat>, k: nat) {
    && k <= |ps| && k <= |tot|
    && (forall x :: x !in ps[..k] ==> SegKept(st0, st, x))
    && (forall i :: i < k ==> SegRetotalled(st0, st, ps, tot, i))
  }

  lemma RetotalOne(st0: Store, st: Store, ps: seq<Ptr>, tot: seq<nat>, k: nat)
    requires Retotalled(st0, st, ps, tot, k) && k < |ps| && k < |tot| && ps[k] in st0
    requires forall i, j :: 0 <= i < j < |ps| ==> ps[i] != ps[j]
    ensures ps[k] in st && st[ps[k]] == st0[ps[k]]
    ensures Retotalled(st0, st[ps[k] := st0[ps[k]].(totLen := tot[k])], ps, tot, k + 1)
  {
    assert ps[k] !in ps[..k];
    assert SegKept(st0, st, ps[k]);
    var st' := st[ps[k] := st0[ps[k]].(totLen := tot[k])];
    forall x | x !in ps[..k + 1] ensures SegKept(st0, st', x) {
      assert x !in ps[..k];
      assert SegKept(st0, st, x);
      assert ps[k] in ps[..k + 1];
    }
    forall i | i < k + 1 ensures SegRetotalled(st0, st', ps, tot, i) {
      if i < k { assert SegRetotalled(st0, st, ps, tot, i); }
    }
  }

  /** The totals of a chain after `d` more bytes are linked behind it. */
  ghost function RaisedTotals(st: Store, ps: seq<Ptr>, d: nat): (tot: seq<nat>)
    requires AllIn(st, ps)
    ensures |tot| == |ps|
  {
    seq(|ps|, i requires 0 <= i < |ps| => (st[ps[i]].totLen + d) % U16)
  }

  /** The ranks after `t` is linked behind a chain: everything outside the chain of `t` moves above it. */
  ghost function RanksAfterLink(rank: map<Ptr, nat>, ts: seq<Ptr>, k: nat): map<Ptr, nat> {
    map x | x in rank :: if x in ts then rank[x] else rank[x] + k
  }

  lemma RetotalledNext(st: Store, st1: Store, ps: seq<Ptr>, tot: seq<nat>, x: Ptr)
    requires Retotalled(st, st1, ps, tot, |ps|)
    requires AllIn(st, ps)
    ensures x in st <==> x in st1
    ensures x in st ==> st1[x] == st[x].(totLen := st1[x].totLen)
    ensures x !in ps && x in st ==> st1[x] == st[x]
  {
    assert ps[..|ps|] == ps;
    if x in ps {
      var i :| 0 <= i < |ps| && ps[i] == x;
      assert SegRetotalled(st, st1, ps, tot, i);
    } else {
      assert SegKept(st, st1, x);
    }
  }

  lemma CatRef(st: Store, handles: multiset<Ptr>, rank: map<Ptr, nat>, hs: seq<Ptr>, t: Ptr, st1: Store, x: Ptr)
    requires Counted(st, handles, rank) && hs != [] && t != 0 && t in handles
    requires AllIn(st, hs)
    requires t in st && Retotalled(st, st1, hs, RaisedTotals(st, hs, st[t].totLen), |hs|)
    requires st[hs[|hs| - 1]].next == 0 && hs[|hs| - 1] in st1
    ensures var last := hs[|hs| - 1]; RefOk(st1[last := st1[last].(next := t)], handles - multiset{t}, x)
  {
    var last, tot := hs[|hs| - 1], RaisedTotals(st, hs, st[t].totLen);
    assert RefOk(st, handles, x);
    forall y ensures y in st <==> y in st1 { RetotalledNext(st, st1, hs, tot, y); }
    forall y | y in st ensures st1[y].next == st[y].next && st1[y].ref == st[y].ref {
      RetotalledNext(st, st1, hs, tot, y);
    }
    assert Pointers(st1, x) == Pointers(st, x);
    PointersAfter(st1, last, st1[last].(next := t), x);
  }

  lemma {:induction false} RankInChain(st: Store, rank: map<Ptr, nat>, t: Ptr, ts: seq<Ptr>, x: Ptr)
    requires (forall x :: LinkOk(st, rank, x)) && IsChain(st, t, ts) && x in ts && t in rank
    ensures x in rank && rank[x] <= rank[t]
    decreases |ts|
  {
    assert LinkOk(st, rank, t);
    if x != t {
      assert x in ts[1..];
      assert ts[1..] != [] ==> st[t].next != 0;
      RankInChain(st, rank, st[t].next, ts[1..], x);
    }
  }

  lemma CatLink(st: Store, rank: map<Ptr, nat>, h: Ptr, hs: seq<Ptr>, t: Ptr, ts: seq<Ptr>, st1: Store, x: Ptr)
    requires (forall x :: LinkOk(st, rank, x)) && IsChain(st, t, ts) && t in st && t != 0 && t in rank && hs != []
    requires AllIn(st, hs)
    requires Retotalled(st, st1, hs, RaisedTotals(st, hs, st[t].totLen), |hs|)
    requires hs[|hs| - 1] !in ts && hs[|hs| - 1] in st1
    ensures var last := hs[|hs| - 1];
      LinkOk(st1[last := st1[last].(next := t)], RanksAfterLink(rank, ts, rank[t] + 1), x)
  {
    RetotalledNext(st, st1, hs, RaisedTotals(st, hs, st[t].totLen), x);
    assert LinkOk(st, rank, x);
    assert ts[0] == t;
    if x in ts {
      ChainInStore(st, t, ts);
      var i :| 0 <= i < |ts| && ts[i] == x;
      assert LinkedAt(st, ts, i) && LinkedAt(st, ts, i + 1);
    }
    if x in st && st[x].next != 0 {
      RetotalledNext(st, st1, hs, RaisedTotals(st, hs, st[t].totLen), st[x].next);
      if st[x].next in ts && x !in ts {
        RankInChain(st, rank, t, ts, st[x].next);
      }
    }
    RetotalledNext(st, st1, hs, RaisedTotals(st, hs, st[t].totLen), t);
  }

  lemma AddMod(a: nat, b: nat, d: nat)
    ensures ((a + b) % U16 + d) % U16 == (a + (b + d) % U16) % U16
  {
  }

  /** The new total of a segment of the chain. */
  lemma RaisedAt(st: Store, st1: Store, ps: seq<Ptr>, d: nat, i: nat)
    requires AllIn(st, ps) && Retotalled(st, st1, ps, RaisedTotals(st, ps, d), |ps|) && i < |ps|
    ensures ps[i] in st1 && st1[ps[i]] == st[ps[i]].(totLen := (st[ps[i]].totLen + d) % U16)
  {
    assert SegRetotalled(st, st1, ps, RaisedTotals(st, ps, d), i);
  }

  lemma CatTotIn(st: Store, h: Ptr, hs: seq<Ptr>, t: Ptr, st1: Store, i: nat)
    requires Totalled(st) && IsChain(st, h, hs) && i < |hs| && t in st && t != 0 && t !in hs && AllIn(st, hs)
    requires Retotalled(st, st1, hs, RaisedTotals(st, hs, st[t].totLen), |hs|) && hs[|hs| - 1] in st1
    ensures var last := hs[|hs| - 1]; TotOk(st1[last := st1[last].(next := t)], hs[i])
  {
    var d, x := st[t].totLen, hs[i];
    ChainInStore(st, h, hs);
    assert TotOk(st, x) && TotOk(st, t) && LinkedAt(st, hs, i) && LinkedAt(st, hs, |hs| - 1);
    RaisedAt(st, st1, hs, d, i);
    if i + 1 < |hs| {
      assert LinkedAt(st, hs, i + 1);
      RaisedAt(st, st1, hs, d, i + 1);
      AddMod(|st[x].data|, st[hs[i + 1]].totLen, d);
    } else {
      RetotalledNext(st, st1, hs, RaisedTotals(st, hs, d), t);
    }
  }

  lemma AddDiffers(a: nat, b: nat, d: nat)
    requires b < U16 && d < U16
    ensures (a + b) % U16 == (a + (b + d) % U16) % U16 <==> d == 0
  {
  }

  /**
   The total of a segment outside the chain stays right exactly if it is not linked to the chain or
   nothing is added.
   */
  lemma CatTotOut(st: Store, h: Ptr, hs: seq<Ptr>, t: Ptr, st1: Store, x: Ptr)
    requires Totalled(st) && IsChain(st, h, hs) && AllIn(st, hs) && hs != [] && t in st && x !in hs
    requires Retotalled(st, st1, hs, RaisedTotals(st, hs, st[t].totLen), |hs|) && hs[|hs| - 1] in st1
    ensures var last := hs[|hs| - 1];
      TotOk(st1[last := st1[last].(next := t)], x) <==> x !in st || st[x].next !in hs || st[t].totLen == 0
  {
    var tot, d := RaisedTotals(st, hs, st[t].totLen), st[t].totLen;
    RetotalledNext(st, st1, hs, tot, x);
    if x in st {
      assert TotOk(st, x) && TotOk(st, t);
      var n := st[x].next;
      RetotalledNext(st, st1, hs, tot, n);
      if n in hs {
        var i :| 0 <= i < |hs| && hs[i] == n;
        assert SegRetotalled(st, st1, hs, tot, i) && TotOk(st, n);
        ChainInStore(st, h, hs);
        assert LinkedAt(st, hs, i);
        AddDiffers(|st[x].data|, st[n].totLen, d);
      }
    }
  }

  lemma CatTotals(st: Store, h: Ptr, hs: seq<Ptr>, t: Ptr, st1: Store, st2: Store)
    requires Totalled(st) && IsChain(st, h, hs) && hs != [] && t in st && t != 0 && t !in hs && AllIn(st, hs)
    requires Retotalled(st, st1, hs, RaisedTotals(st, hs, st[t].totLen), |hs|)
    requires var last := hs[|hs| - 1]; last in st1 && st2 == st1[last := st1[last].(next := t)]
    ensures Totalled(st2) <==> Closed(st, hs) || st[t].totLen == 0
  {
    forall x | x !in hs ensures TotOk(st2, x) <==> x !in st || st[x].next !in hs || st[t].totLen == 0 {
      CatTotOut(st, h, hs, t, st1, x);
    }
    forall x | x in hs ensures TotOk(st2, x) {
      var i :| 0 <= i < |hs| && hs[i] == x;
      CatTotIn(st, h, hs, t, st1, i);
    }
    if !Closed(st, hs) {
      var y :| y in st && st[y].next in hs && y !in hs;
      assert TotOk(st2, y) <==> st[t].totLen == 0;
    }
  }

  /**
   pbuf_cat: `st1` is `st` with raised totals along `hs`, and the last segment of `hs` is then linked
   to `t`. The counts stay exact. The totals do if and only if nothing else is linked to the chain or
   nothing is added.
   */
  lemma CatKeeps(st: Store, handles: multiset<Ptr>, rank: map<Ptr, nat>, h: Ptr, hs: seq<Ptr>, t: Ptr, ts: seq<Ptr>,
                 st1: Store)
    requires Inv(st, handles, rank) && IsChain(st, h, hs) && IsChain(st, t, ts) && h != 0 && t != 0 && t in handles
    requires (forall x :: x in hs ==> x !in ts) && AllIn(st, hs)
    requires Retotalled(st, st1, hs, RaisedTotals(st, hs, st[t].totLen), |hs|)
    ensures hs != [] && hs[|hs| - 1] in st1 && t in rank
    ensures var last := hs[|hs| - 1];
      Counted(st1[last := st1[last].(next := t)], handles - multiset{t}, RanksAfterLink(rank, ts, rank[t] + 1))
    ensures var last := hs[|hs| - 1];
      Totalled(st1[last := st1[last].(next := t)]) <==> Closed(st, hs) || st[t].totLen == 0
  {
    ChainInStore(st, h, hs);
    ChainInStore(st, t, ts);
    var n := |hs| - 1;
    var last := hs[n];
    assert LinkedAt(st, hs, n) && SegRetotalled(st, st1, hs, RaisedTotals(st, hs, st[t].totLen), n)
      && LinkOk(st, rank, t);
    var st2 := st1[last := st1[last].(next := t)];
    var h2, rank2 := handles - multiset{t}, RanksAfterLink(rank, ts, rank[t] + 1);
    assert hs[..|hs|] == hs && t in ts;
    forall x ensures RefOk(st2, h2, x) { CatRef(st, handles, rank, hs, t, st1, x); }
    forall x ensures LinkOk(st2, rank2, x) { CatLink(st, rank, h, hs, t, ts, st1, x); }
    CatTotals(st, h, hs, t, st1, st2);
  }

  // ---------- pbuf_realloc ----------

  lemma {:induction false} BytesTake(st: Store, ps: seq<Ptr>, k: nat)
    requires AllIn(st, ps) && k < |ps|
    ensures Bytes(st, ps[..k + 1]) == Bytes(st, ps[..k]) + st[ps[k]].data
    ensures Bytes(st, ps) == Bytes(st, ps[..k]) + Bytes(st, ps[k..])
    ensures Bytes(st, ps[k..]) == st[ps[k]].data + Bytes(st, ps[k + 1..])
  {
    assert ps[..k + 1] == ps[..k] + [ps[k]] && ps == ps[..k] + ps[k..] && ps[k..][1..] == ps[k + 1..];
    BytesConcat(st, ps[..k], [ps[k]]);
    BytesConcat(st, ps[..k], ps[k..]);
    assert Bytes(st, [ps[k]]) == st[ps[k]].data;
  }

  /** The totals of a chain that is cut to `n` bytes. */
  ghost function TrimTotals(st: Store, ps: seq<Ptr>, n: nat): (tot: seq<nat>)
    requires AllIn(st, ps)
    ensures |tot| == |ps|
  {
    seq(|ps|, i requires 0 <= i < |ps| => if |Bytes(st, ps[..i])| <= n then n - |Bytes(st, ps[..i])| else 0)
  }

  lemma SubMod(len: nat, tot: nat, next: nat, g: nat, r: nat)
    requires tot == (len + next) % U16 && next < U16 && (tot + g) % U16 == r && len <= r
    ensures (next + g) % U16 == r - len
  {
  }

  /** Same segments, counts and links, except that `q` is unlinked. */
  ghost predicate SameLinks(st: Store, st2: Store, q: Ptr, x: Ptr) {
    && (x in st2 <==> x in st)
    && (x in st ==> st2[x].ref == st[x].ref && st2[x].next == if x == q then 0 else st[x].next)
  }

  lemma TrimSeg(st: Store, ps: seq<Ptr>, n: nat, k: nat, st1: Store, x: Ptr)
    requires k < |ps| && AllIn(st, ps)
    requires Retotalled(st, st1, ps, TrimTotals(st, ps, n), k)
    requires ps[k] in st1 && |Bytes(st, ps[..k])| <= n <= |Bytes(st, ps[..k])| + |st[ps[k]].data|
    ensures var rem := n - |Bytes(st, ps[..k])|;
      SameLinks(st, st1[ps[k] := Seg(0, st[ps[k]].data[..rem], rem, st[ps[k]].ref)], ps[k], x)
  {
    if x in ps[..k] {
      var i :| 0 <= i < k && ps[i] == x;
      assert SegRetotalled(st, st1, ps, TrimTotals(st, ps, n), i);
    } else {
      assert SegKept(st, st1, x);
    }
  }

  lemma TrimPointers(st: Store, st2: Store, q: Ptr, x: Ptr)
    requires q in st && (forall y :: SameLinks(st, st2, q, y)) && x != 0
    ensures |Pointers(st2, x)| == |Pointers(st, x)| - (if st[q].next == x then 1 else 0)
  {
    var others := Pointers(st, x) - {q};
    assert Pointers(st, x) == if st[q].next == x then others + {q} else others;
    forall y ensures y in Pointers(st2, x) <==> y in others { assert SameLinks(st, st2, q, y); }
    assert Pointers(st2, x) == others;
  }

  lemma {:induction false} BytesMonotone(st: Store, ps: seq<Ptr>, i: nat, k: nat)
    requires AllIn(st, ps) && i <= k <= |ps|
    ensures |Bytes(st, ps[..i])| <= |Bytes(st, ps[..k])|
    decreases k - i
  {
    if i < k {
      BytesTake(st, ps, i);
      BytesMonotone(st, ps, i + 1, k);
    }
  }

  lemma TrimTotKept(st: Store, p: Ptr, ps: seq<Ptr>, n: nat, k: nat, st1: Store, i: nat)
    requires Totalled(st) && IsChain(st, p, ps) && i < k < |ps| && n < U16
    requires AllIn(st, ps) && (forall i, j :: 0 <= i < j < |ps| ==> ps[i] != ps[j])
    requires Retotalled(st, st1, ps, TrimTotals(st, ps, n), k)
    requires ps[k] in st1 && |Bytes(st, ps[..k])| <= n <= |Bytes(st, ps[..k])| + |st[ps[k]].data|
    ensures var rem := n - |Bytes(st, ps[..k])|;
      TotOk(st1[ps[k] := Seg(0, st[ps[k]].data[..rem], rem, st[ps[k]].ref)], ps[i])
  {
    var tot := TrimTotals(st, ps, n);
    ChainInStore(st, p, ps);
    assert TotOk(st, ps[i]);
    assert LinkedAt(st, ps, i) && SegRetotalled(st, st1, ps, tot, i) && LinkedAt(st, ps, i + 1);
    assert |Bytes(st, ps[..i + 1])| == |Bytes(st, ps[..i])| + |st[ps[i]].data| by { BytesTake(st, ps, i); }
    BytesMonotone(st, ps, i + 1, k);
    if i + 1 < k {
      assert SegRetotalled(st, st1, ps, tot, i + 1);
    }
  }

  /** The cut chain: `k` segments kept whole, and segment `k` keeps `n - |Bytes(st, ps[..k])|` bytes. */
  ghost predicate Trimming(st: Store, p: Ptr, ps: seq<Ptr>, n: nat, k: nat, st1: Store, st2: Store) {
    && Totalled(st) && IsChain(st, p, ps) && k < |ps| && n < U16 && AllIn(st, ps)
    && (forall i, j :: 0 <= i < j < |ps| ==> ps[i] != ps[j])
    && Retotalled(st, st1, ps, TrimTotals(st, ps, n), k)
    && ps[k] in st1 && |Bytes(st, ps[..k])| <= n <= |Bytes(st, ps[..k])| + |st[ps[k]].data|
    && var rem := n - |Bytes(st, ps[..k])|; st2 == st1[ps[k] := Seg(0, st[ps[k]].data[..rem], rem, st[ps[k]].ref)]
  }

  lemma TrimTotIn(st: Store, p: Ptr, ps: seq<Ptr>, n: nat, k: nat, st1: Store, st2: Store, x: Ptr)
    requires Trimming(st, p, ps, n, k, st1, st2) && x in ps
    ensures TotOk(st2, x)
  {
    ChainInStore(st, p, ps);
    var i :| 0 <= i < |ps| && ps[i] == x;
    assert TotOk(st, x) && TotOk(st, ps[k]) && LinkedAt(st, ps, i);
    if i < k {
      TrimTotKept(st, p, ps, n, k, st1, i);
    } else if i > k {
      assert ps[i] !in ps[..k];
      assert SegKept(st, st1, x);
      if i + 1 < |ps| {
        assert ps[i + 1] !in ps[..k];
        assert SegKept(st, st1, ps[i + 1]) && LinkedAt(st, ps, i + 1);
      }
    }
  }

  lemma SumDiffers(a: nat, b: nat, c: nat)
    requires b < U16 && c < U16 && b != c
    ensures (a + b) % U16 != (a + c) % U16
  {
  }

  lemma AddTwice(a: nat, b: nat, c: nat)
    ensures (a + (b + c) % U16) % U16 == (a + b + c) % U16
  {
  }

  /** The total of segment `i` in terms of the first one. */
  lemma {:induction false} TotalAt(st: Store, p: Ptr, ps: seq<Ptr>, i: nat)
    requires Totalled(st) && IsChain(st, p, ps) && i < |ps| && AllIn(st, ps)
    ensures st[ps[i]].totLen < U16 && st[p].totLen == (|Bytes(st, ps[..i])| + st[ps[i]].totLen) % U16
  {
    ChainInStore(st, p, ps);
    assert TotOk(st, ps[i]) && LinkedAt(st, ps, i);
    if i == 0 {
      assert ps[..0] == [];
    } else {
      TotalAt(st, p, ps, i - 1);
      assert LinkedAt(st, ps, i - 1) && TotOk(st, ps[i - 1]);
      var b, len, t := |Bytes(st, ps[..i - 1])|, |st[ps[i - 1]].data|, st[ps[i]].totLen;
      assert |Bytes(st, ps[..i])| == b + len by { BytesTake(st, ps, i - 1); }
      assert st[p].totLen == (b + (len + t) % U16) % U16;
      AddTwice(b, len, t);
    }
  }

  /** Each kept segment has a total that differs from the old one. */
  lemma TrimDiffers(st: Store, p: Ptr, ps: seq<Ptr>, n: nat, k: nat, st1: Store, st2: Store, i: nat)
    requires Trimming(st, p, ps, n, k, st1, st2) && i <= k && n < st[p].totLen
    ensures ps[i] in st2 && st2[ps[i]].totLen < U16 && st2[ps[i]].totLen != st[ps[i]].totLen
  {
    ChainInStore(st, p, ps);
    TotalAt(st, p, ps, i);
    BytesMonotone(st, ps, i, k);
    if i < k {
      assert SegRetotalled(st, st1, ps, TrimTotals(st, ps, n), i);
    }
  }

  lemma TrimTotOut(st: Store, p: Ptr, ps: seq<Ptr>, n: nat, k: nat, st1: Store, st2: Store, x: Ptr)
    requires Trimming(st, p, ps, n, k, st1, st2) && x !in ps && n < st[p].totLen
    ensures TotOk(st2, x) <==> x !in st || st[x].next !in ps[..k + 1]
  {
    assert x !in ps[..k];
    assert SegKept(st, st1, x) && TotOk(st, x);
    if x in st {
      var y := st[x].next;
      if y in ps[..k + 1] {
        var i :| 0 <= i < k + 1 && ps[i] == y;
        TrimDiffers(st, p, ps, n, k, st1, st2, i);
        ChainInStore(st, p, ps);
        assert LinkedAt(st, ps, i) && TotOk(st, y);
        SumDiffers(|st[x].data|, st[y].totLen, st2[y].totLen);
      } else {
        assert y !in ps[..k] && ps[k] in ps[..k + 1];
        assert SegKept(st, st1, y);
      }
    }
  }

  /** A segment behind the first `k + 1` of a chain is not linked to them. */
  lemma ChainGoesOn(st: Store, p: Ptr, ps: seq<Ptr>, k: nat, x: Ptr)
    requires IsChain(st, p, ps) && k < |ps| && x in ps && (forall i, j :: 0 <= i < j < |ps| ==> ps[i] != ps[j])
    ensures x in st && (st[x].next in ps[..k + 1] ==> x in ps[..k + 1])
  {
    ChainInStore(st, p, ps);
    var i :| 0 <= i < |ps| && ps[i] == x;
    assert LinkedAt(st, ps, i);
    if st[x].next in ps[..k + 1] {
      var j :| 0 <= j < k + 1 && ps[j] == st[x].next;
      assert LinkedAt(st, ps, j);
      assert j == i + 1;
      assert ps[..k + 1][i] == x;
    }
  }

  /** The totals stay right if and only if nothing else is linked to the part that is kept. */
  lemma TrimTotalled(st: Store, p: Ptr, ps: seq<Ptr>, n: nat, k: nat, st1: Store, st2: Store)
    requires Trimming(st, p, ps, n, k, st1, st2) && n < st[p].totLen
    ensures Totalled(st2) <==> Closed(st, ps[..k + 1])
  {
    forall x | x in ps ensures TotOk(st2, x) { TrimTotIn(st, p, ps, n, k, st1, st2, x); }
    forall x | x !in ps ensures TotOk(st2, x) <==> x !in st || st[x].next !in ps[..k + 1] {
      TrimTotOut(st, p, ps, n, k, st1, st2, x);
    }
    forall x | x in ps ensures x in st && (st[x].next in ps[..k + 1] ==> x in ps[..k + 1]) {
      ChainGoesOn(st, p, ps, k, x);
    }
    if !Closed(st, ps[..k + 1]) {
      var y :| y in st && st[y].next in ps[..k + 1] && y !in ps[..k + 1];
      assert !TotOk(st2, y);
    }
  }

  /** pbuf_realloc just before the tail is freed: its first segment is then referenced by the routine. */
  lemma TrimKeeps(st: Store, handles: multiset<Ptr>, rank: map<Ptr, nat>, p: Ptr, ps: seq<Ptr>, n: nat, k: nat,
                  st1: Store, st2: Store)
    requires Counted(st, handles, rank) && Trimming(st, p, ps, n, k, st1, st2)
    ensures Counted(st2, if k + 1 < |ps| then handles + multiset{ps[k + 1]} else handles, rank)
  {
    var h2 := if k + 1 < |ps| then handles + multiset{ps[k + 1]} else handles;
    ChainInStore(st, p, ps);
    forall x ensures SameLinks(st, st2, ps[k], x) { TrimSeg(st, ps, n, k, st1, x); }
    assert LinkedAt(st, ps, k) && LinkedAt(st, ps, k + 1);
    forall x ensures RefOk(st2, h2, x) {
      assert RefOk(st, handles, x) && SameLinks(st, st2, ps[k], x);
      if x != 0 {
        TrimPointers(st, st2, ps[k], x);
      }
    }
    forall x ensures LinkOk(st2, rank, x) {
      assert LinkOk(st, rank, x) && SameLinks(st, st2, ps[k], x);
      if x in st {
        assert SameLinks(st, st2, ps[k], st[x].next);
      }
    }
  }
}
