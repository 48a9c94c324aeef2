/**
 pbuf_copy and pbuf_copy_partial (net/lwip/core/pbuf.c): bytes between chains that are cut into
 segments differently.
 */
module PbufCopying {
  import opened PbufChains
  import opened PbufLengths
  import opened PbufRelease

  /** `NoTarget` stands for the failed assertion that there is a target segment. */
  datatype Err = ErrOk | ErrArg | ErrVal | NoTarget

  /** What the loop of pbuf_copy returns for segments of these lengths. */
  function Outcome(a: seq<nat>, b: seq<nat>): Err {
    if a == [] || b == [] then ErrArg else if CanCopy(a, b) then ErrOk else if RunsOff(a, b) then NoTarget else ErrVal
  }

  /** The lengths of the segments. */
  ghost function Lens(st: Store, ps: seq<Ptr>): (a: seq<nat>)
    requires AllIn(st, ps)
    ensures |a| == |ps| && forall i :: 0 <= i < |ps| ==> a[i] == |st[ps[i]].data|
  {
    seq(|ps|, i requires 0 <= i < |ps| => |st[ps[i]].data|)
  }

  lemma {:induction false} LensPre(st: Store, ps: seq<Ptr>, k: nat)
    requires AllIn(st, ps) && k <= |ps|
    ensures Pre(Lens(st, ps), k) == |Bytes(st, ps[..k])|
  {
    if k > 0 {
      LensPre(st, ps, k - 1);
      BytesTake(st, ps, k - 1);
    }
  }

  lemma LensTotal(st: Store, ps: seq<Ptr>)
    requires AllIn(st, ps)
    ensures Total(Lens(st, ps)) == |Bytes(st, ps)|
  {
    LensPre(st, ps, |ps|);
    assert ps[..|ps|] == ps;
  }

  /** A packet of less than 65536 bytes. */
  ghost predicate Packet(st: Store, ps: seq<Ptr>) {
    AllIn(st, ps) && |Bytes(st, ps)| < U16
  }

  ghost predicate SegRefilled(st0: Store, st: Store, ts: seq<Ptr>, x: Ptr) {
    && (x in st <==> x in st0)
    && (x in st ==>
      if x in ts then st[x] == st0[x].(data := st[x].data) && |st[x].data| == |st0[x].data| else st[x] == st0[x])
  }

  /** Only the contents of segments in `ts` differ. */
  ghost predicate SameShape(st0: Store, st: Store, ts: seq<Ptr>) {
    forall x :: SegRefilled(st0, st, ts, x)
  }

  lemma Refilled(st0: Store, st: Store, handles: multiset<Ptr>, rank: map<Ptr, nat>, p: Ptr, ts: seq<Ptr>)
    requires Inv(st0, handles, rank) && SameShape(st0, st, ts) && IsChain(st0, p, ts)
    ensures Inv(st, handles, rank) && IsChain(st, p, ts) && forall x :: x !in ts ==> SegKept(st0, st, x)
  {
    forall x ensures RefOk(st, handles, x) {
      assert RefOk(st0, handles, x) && SegRefilled(st0, st, ts, x);
      forall y ensures y in Pointers(st, x) <==> y in Pointers(st0, x) { assert SegRefilled(st0, st, ts, y); }
      assert Pointers(st, x) == Pointers(st0, x);
    }
    forall x ensures LinkOk(st, rank, x) {
      assert LinkOk(st0, rank, x) && SegRefilled(st0, st, ts, x);
      if x in st0 { assert SegRefilled(st0, st, ts, st0[x].next); }
    }
    forall x ensures TotOk(st, x) {
      assert TotOk(st0, x) && SegRefilled(st0, st, ts, x);
      if x in st0 { assert SegRefilled(st0, st, ts, st0[x].next); }
    }
    forall i | 0 <= i < |ts| && ts[i] in st0 ensures ts[i] in st && st[ts[i]].next == st0[ts[i]].next {
      assert SegRefilled(st0, st, ts, ts[i]);
    }
    ChainFrame(st0, st, p, ts);
    forall x | x !in ts ensures SegKept(st0, st, x) { assert SegRefilled(st0, st, ts, x); }
  }

  /**
   `c` bytes are copied: `of` bytes of source segment `i` and `ot` bytes of target segment `j`; `st`
   is the store so far.
   */
  datatype Cursor = Cursor(st: Store, i: nat, j: nat, of: nat, ot: nat, c: nat)

  ghost predicate PlaceOk(st0: Store, ts: seq<Ptr>, fs: seq<Ptr>, s: Cursor) {
    && AllIn(st0, ts) && AllIn(st0, fs) && s.i <= |fs| && s.j <= |ts|
    && s.c == |Bytes(st0, fs[..s.i])| + s.of && s.c == |Bytes(st0, ts[..s.j])| + s.ot
    && (if s.i < |fs| then s.of <= |st0[fs[s.i]].data| else s.of == 0)
    && (if s.j < |ts| then s.ot <= |st0[ts[s.j]].data| else s.ot == 0)
    && s.c <= |Bytes(st0, fs)| <= |Bytes(st0, ts)|
  }

  ghost predicate ContentOk(st0: Store, ts: seq<Ptr>, fs: seq<Ptr>, st: Store, c: nat) {
    && AllIn(st0, ts) && AllIn(st0, fs) && AllIn(st, ts) && SameShape(st0, st, ts)
    && c <= |Bytes(st0, fs)| <= |Bytes(st0, ts)|
    && Bytes(st, ts) == Bytes(st0, fs)[..c] + Bytes(st0, ts)[c..]
  }

  ghost predicate Copying(st0: Store, ts: seq<Ptr>, fs: seq<Ptr>, s: Cursor) {
    PlaceOk(st0, ts, fs, s) && ContentOk(st0, ts, fs, s.st, s.c)
  }

  ghost function SpotOf(s: Cursor): Spot {
    Spot(s.i, s.j, s.of, s.ot)
  }

  /** The variables of pbuf_copy: the store, the current segments and the offsets in them. */
  datatype Walk = Walk(st: Store, to: Ptr, from: Ptr, ot: nat, of: nat) {
    predicate Fits() {
      to in st && from in st && to != from && ot <= |st[to].data| && of <= |st[from].data|
    }
  }

  /** Copies as much as both current segments allow. */
  function Transferred(w: Walk): (r: Walk)
    requires w.Fits()
    ensures r.Fits()
  {
    var d, e := w.st[w.to].data, w.st[w.from].data;
    var m := if |d| - w.ot >= |e| - w.of then |e| - w.of else |d| - w.ot;
    w.(st := w.st[w.to := w.st[w.to].(data := d[..w.ot] + e[w.of..w.of + m] + d[w.ot + m..])], ot := w.ot + m,
      of := w.of + m)
  }

  /** Goes on to the next segments where the current ones are used up. */
  function Moved(w: Walk): Walk
    requires w.Fits()
  {
    var a := if w.ot == |w.st[w.to].data| then w.(ot := 0, to := w.st[w.to].next) else w;
    if w.of >= |w.st[w.from].data| then a.(of := 0, from := w.st[w.from].next) else a
  }

  /** The segment looks like the end of a packet with another packet queued behind it. */
  predicate Queued(st: Store, x: Ptr) {
    x != 0 && x in st && |st[x].data| == st[x].totLen && st[x].next != 0
  }

  ghost predicate Walking(st0: Store, ts: seq<Ptr>, fs: seq<Ptr>, w: Walk, s: Cursor) {
    && Copying(st0, ts, fs, s) && w.st == s.st && w.ot == s.ot && w.of == s.of
    && w.from == (if s.i < |fs| then fs[s.i] else 0) && w.to == (if s.j < |ts| then ts[s.j] else 0)
    && (s.i < |fs| && s.j < |ts| ==> w.Fits())
  }

  /** The total behind a segment. */
  lemma TotalBehind(st: Store, p: Ptr, ps: seq<Ptr>, k: nat)
    requires IsChain(st, p, ps) && Packet(st, ps) && Totalled(st) && k + 1 < |ps|
    ensures ps[k + 1] != 0 && st[ps[k]].next == ps[k + 1]
    ensures st[ps[k + 1]].totLen == |Bytes(st, ps)| - |Bytes(st, ps[..k + 1])|
  {
    ChainInStore(st, p, ps);
    assert LinkedAt(st, ps, k) && LinkedAt(st, ps, k + 1);
    ChainSuffix(st, p, ps, k + 1);
    TotLenIsLength(st, ps[k + 1], ps[k + 1..]);
    BytesTake(st, ps, k + 1);
  }

  lemma NothingBehind(len: nat, rest: nat)
    requires len < U16 && rest < U16
    ensures len == (len + rest) % U16 <==> rest == 0
  {
  }

  /** A segment of a packet looks queued exactly if it is not the last and no byte follows. */
  lemma QueuedMeans(st: Store, p: Ptr, ps: seq<Ptr>, k: nat)
    requires IsChain(st, p, ps) && Packet(st, ps) && Totalled(st) && k < |ps|
    ensures ps[k] != 0 && (Queued(st, ps[k]) <==> QueuedAt(Lens(st, ps), k))
  {
    ChainInStore(st, p, ps);
    assert LinkedAt(st, ps, k) && TotOk(st, ps[k]);
    if k + 1 < |ps| {
      TotalBehind(st, p, ps, k);
      var rest := st[ps[k + 1]].totLen;
      assert QueuedAt(Lens(st, ps), k) <==> rest == 0 by {
        LensPre(st, ps, k + 1);
        LensTotal(st, ps);
      }
      NothingBehind(|st[ps[k]].data|, rest);
    }
  }

  /** It looks the same while other bytes are copied into it. */
  lemma QueuedStill(st0: Store, st: Store, ts: seq<Ptr>, x: Ptr)
    requires SameShape(st0, st, ts)
    ensures Queued(st, x) <==> Queued(st0, x)
  {
    assert SegRefilled(st0, st, ts, x);
  }

  lemma CopyStarts(st: Store, p: Ptr, ts: seq<Ptr>, q: Ptr, fs: seq<Ptr>)
    requires IsChain(st, p, ts) && IsChain(st, q, fs) && ts != [] && fs != [] && AllIn(st, ts) && AllIn(st, fs)
    requires |Bytes(st, fs)| <= |Bytes(st, ts)| && (forall x :: x in ts ==> x !in fs)
    ensures Walking(st, ts, fs, Walk(st, p, q, 0, 0), Cursor(st, 0, 0, 0, 0, 0))
  {
    assert ts[0] in ts && fs[0] in fs;
    forall x ensures SegRefilled(st, st, ts, x) {}
    assert ts[..0] == [] && fs[..0] == [];
  }

  lemma CopyHere(st0: Store, p: Ptr, ts: seq<Ptr>, q: Ptr, fs: seq<Ptr>, s: Cursor)
    requires IsChain(st0, p, ts) && IsChain(st0, q, fs)
    requires Copying(st0, ts, fs, s) && s.i < |fs| && s.j < |ts| && (forall x :: x in ts ==> x !in fs)
    ensures fs[s.i] in s.st && s.st[fs[s.i]] == st0[fs[s.i]] && s.of <= |s.st[fs[s.i]].data| && fs[s.i] != ts[s.j]
    ensures ts[s.j] in s.st && |s.st[ts[s.j]].data| == |st0[ts[s.j]].data| && s.ot <= |s.st[ts[s.j]].data|
    ensures s.st[fs[s.i]].next == (if s.i + 1 < |fs| then fs[s.i + 1] else 0)
    ensures s.st[ts[s.j]].next == (if s.j + 1 < |ts| then ts[s.j + 1] else 0)
  {
    assert SegRefilled(st0, s.st, ts, fs[s.i]) && SegRefilled(st0, s.st, ts, ts[s.j]);
    assert fs[s.i] in fs && ts[s.j] in ts;
    ChainInStore(st0, p, ts);
    ChainInStore(st0, q, fs);
    assert LinkedAt(st0, ts, s.j) && LinkedAt(st0, fs, s.i);
  }

  lemma {:induction false} BytesSameLength(st0: Store, st: Store, all: seq<Ptr>, ts: seq<Ptr>)
    requires SameShape(st0, st, all) && AllIn(st0, ts)
    ensures AllIn(st, ts) && |Bytes(st, ts)| == |Bytes(st0, ts)|
  {
    forall i | 0 <= i < |ts| ensures ts[i] in st { assert SegRefilled(st0, st, all, ts[i]); }
    if ts != [] {
      assert SegRefilled(st0, st, all, ts[0]);
      BytesSameLength(st0, st, all, ts[1..]);
    }
  }

  /** The contents of a chain in which one segment is replaced. */
  lemma BytesAround(st: Store, ts: seq<Ptr>, j: nat, g: Seg)
    requires AllIn(st, ts) && j < |ts| && Distinct(ts)
    ensures var st' := st[ts[j] := g];
      AllIn(st', ts) && Bytes(st', ts) == Bytes(st, ts[..j]) + (g.data + Bytes(st, ts[j + 1..]))
  {
    var st' := st[ts[j] := g];
    assert AllIn(st', ts);
    BytesTake(st', ts, j);
    BytesFrame(st, st', ts[..j]);
    BytesFrame(st, st', ts[j + 1..]);
  }

  /** Writing `e` over the place `c` of a sequence that is already `f` up to `c`. */
  lemma Splice(a: seq<int>, d: seq<int>, r: seq<int>, f: seq<int>, t: seq<int>, c: nat, ot: nat, e: seq<int>)
    requires c + |e| <= |f| <= |t| && |a| + ot == c && ot + |e| <= |d|
    requires a + (d + r) == f[..c] + t[c..] && f[c..c + |e|] == e
    ensures a + ((d[..ot] + e + d[ot + |e|..]) + r) == f[..c + |e|] + t[c + |e|..]
  {
    var x, y := a + (d + r), a + ((d[..ot] + e + d[ot + |e|..]) + r);
    var z := f[..c + |e|] + t[c + |e|..];
    assert |x| == |t| && |y| == |x| && |z| == |t|;
    forall k | 0 <= k < |y| ensures y[k] == z[k] {
      if k < c {
        assert y[k] == x[k] && x[k] == f[k];
      } else if k < c + |e| {
        assert y[k] == e[k - c] && e[k - c] == f[c..c + |e|][k - c];
      } else {
        assert y[k] == x[k] && x[k] == t[k];
      }
    }
  }

  lemma CopyBytes(st0: Store, ts: seq<Ptr>, f: seq<int>, s: Cursor, m: nat, st': Store)
    requires AllIn(st0, ts) && AllIn(s.st, ts) && SameShape(st0, s.st, ts) && s.j < |ts| && Distinct(ts)
    requires
      && s.c == |Bytes(st0, ts[..s.j])| + s.ot && s.ot + m <= |s.st[ts[s.j]].data|
      && s.c + m <= |f| <= |Bytes(st0, ts)|
    requires Bytes(s.st, ts) == f[..s.c] + Bytes(st0, ts)[s.c..]
    requires var d := s.st[ts[s.j]].data;
      st' == s.st[ts[s.j] := s.st[ts[s.j]].(data := d[..s.ot] + f[s.c..s.c + m] + d[s.ot + m..])]
    ensures AllIn(st', ts) && Bytes(st', ts) == f[..s.c + m] + Bytes(st0, ts)[s.c + m..]
  {
    var j := s.j;
    assert AllIn(st', ts);
    var a, d, r := Bytes(s.st, ts[..j]), s.st[ts[j]].data, Bytes(s.st, ts[j + 1..]);
    BytesAround(s.st, ts, j, s.st[ts[j]]);
    BytesAround(s.st, ts, j, st'[ts[j]]);
    assert s.st[ts[j] := s.st[ts[j]]] == s.st;
    assert |a| == |Bytes(st0, ts[..j])| by { BytesSameLength(st0, s.st, ts, ts[..j]); }
    Splice(a, d, r, f, Bytes(st0, ts), s.c, s.ot, f[s.c..s.c + m]);
  }

  /** One transfer of `m` bytes between two segments. */
  lemma CopyStep(st0: Store, ts: seq<Ptr>, fs: seq<Ptr>, s: Cursor, m: nat, st': Store)
    requires Copying(st0, ts, fs, s) && s.i < |fs| && s.j < |ts| && Distinct(ts)
    requires ts[s.j] in s.st && |s.st[ts[s.j]].data| == |st0[ts[s.j]].data|
    requires s.of + m <= |st0[fs[s.i]].data| && s.ot + m <= |st0[ts[s.j]].data|
    requires var d, e := s.st[ts[s.j]].data, st0[fs[s.i]].data;
      st' == s.st[ts[s.j] := s.st[ts[s.j]].(data := d[..s.ot] + e[s.of..s.of + m] + d[s.ot + m..])]
    ensures ContentOk(st0, ts, fs, st', s.c + m)
  {
    forall x ensures SegRefilled(st0, st', ts, x) { assert SegRefilled(st0, s.st, ts, x); }
    assert AllIn(st', ts);
    BytesTake(st0, fs, s.i);
    var f := Bytes(st0, fs);
    assert f[s.c..s.c + m] == st0[fs[s.i]].data[s.of..s.of + m];
    CopyBytes(st0, ts, f, s, m, st');
  }

  lemma TransferPlace(st0: Store, ts: seq<Ptr>, fs: seq<Ptr>, s: Cursor, m: nat)
    requires PlaceOk(st0, ts, fs, s) && s.i < |fs| && s.j < |ts|
    requires s.of + m <= |st0[fs[s.i]].data| && s.ot + m <= |st0[ts[s.j]].data|
    ensures PlaceOk(st0, ts, fs, s.(of := s.of + m, ot := s.ot + m, c := s.c + m))
  {
    BytesTake(st0, fs, s.i);
  }

  /** The moves to the next segments after a transfer. */
  ghost function Advanced(st0: Store, ts: seq<Ptr>, fs: seq<Ptr>, s: Cursor): Cursor
    requires s.i < |fs| && s.j < |ts| && fs[s.i] in st0 && ts[s.j] in st0
  {
    var a := if s.ot == |st0[ts[s.j]].data| then s.(j := s.j + 1, ot := 0) else s;
    if s.of >= |st0[fs[s.i]].data| then a.(i := s.i + 1, of := 0) else a
  }

  lemma AdvancedPlace(st0: Store, ts: seq<Ptr>, fs: seq<Ptr>, s: Cursor)
    requires PlaceOk(st0, ts, fs, s) && s.i < |fs| && s.j < |ts|
    ensures PlaceOk(st0, ts, fs, Advanced(st0, ts, fs, s))
  {
    assert |Bytes(st0, ts[..s.j + 1])| == |Bytes(st0, ts[..s.j])| + |st0[ts[s.j]].data| by { BytesTake(st0, ts, s.j); }
    assert |Bytes(st0, fs[..s.i + 1])| == |Bytes(st0, fs[..s.i])| + |st0[fs[s.i]].data| by { BytesTake(st0, fs, s.i); }
  }

  /** The moves of the loop are those of the cursor. */
  lemma MovesAgree(st0: Store, p: Ptr, ts: seq<Ptr>, q: Ptr, fs: seq<Ptr>, a: Walk, b: Cursor)
    requires IsChain(st0, p, ts) && IsChain(st0, q, fs) && AllIn(st0, ts) && AllIn(st0, fs)
    requires
      && b.i < |fs| && b.j < |ts| && a.Fits() && a.from == fs[b.i] && a.to == ts[b.j] && a.st == b.st
      && a.ot == b.ot && a.of == b.of
    requires SegRefilled(st0, b.st, ts, fs[b.i]) && SegRefilled(st0, b.st, ts, ts[b.j]) && fs[b.i] !in ts
    ensures var w, t := Moved(a), Advanced(st0, ts, fs, b);
      && w.st == t.st && w.ot == t.ot && w.of == t.of
      && w.from == (if t.i < |fs| then fs[t.i] else 0) && w.to == (if t.j < |ts| then ts[t.j] else 0)
  {
    assert ts[b.j] in ts;
    ChainInStore(st0, p, ts);
    ChainInStore(st0, q, fs);
    assert LinkedAt(st0, ts, b.j) && LinkedAt(st0, fs, b.i);
  }

  lemma RoundEnds(st0: Store, p: Ptr, ts: seq<Ptr>, q: Ptr, fs: seq<Ptr>, a: Walk, b: Cursor, s': Cursor)
    requires IsChain(st0, p, ts) && IsChain(st0, q, fs) && (forall x :: x in ts ==> x !in fs)
    requires
      && b.i < |fs| && b.j < |ts| && a.Fits() && a.from == fs[b.i] && a.to == ts[b.j] && a.st == b.st
      && a.ot == b.ot && a.of == b.of
    requires ContentOk(st0, ts, fs, b.st, b.c) && PlaceOk(st0, ts, fs, s')
    requires s' == Advanced(st0, ts, fs, b)
    ensures Walking(st0, ts, fs, Moved(a), s')
  {
    var w := Moved(a);
    assert && w.st == s'.st && w.ot == s'.ot && w.of == s'.of && ContentOk(st0, ts, fs, s'.st, s'.c)
           && w.from == (if s'.i < |fs| then fs[s'.i] else 0) && w.to == (if s'.j < |ts| then ts[s'.j] else 0) by {
      assert SegRefilled(st0, b.st, ts, fs[b.i]) && SegRefilled(st0, b.st, ts, ts[b.j]);
      assert fs[b.i] in fs;
      MovesAgree(st0, p, ts, q, fs, a, b);
    }
    if s'.i < |fs| {
      assert SegRefilled(st0, b.st, ts, fs[s'.i]) && fs[s'.i] in fs;
    }
    if s'.j < |ts| {
      assert SegRefilled(st0, b.st, ts, ts[s'.j]) && ts[s'.j] in ts;
    }
  }

  lemma RoundTransfers(st0: Store, p: Ptr, ts: seq<Ptr>, q: Ptr, fs: seq<Ptr>, w: Walk, s: Cursor)
    returns (a: Walk, b: Cursor)
    requires IsChain(st0, p, ts) && IsChain(st0, q, fs)
    requires Walking(st0, ts, fs, w, s) && s.i < |fs| && s.j < |ts| && (forall x :: x in ts ==> x !in fs)
      && Distinct(ts)
    ensures
      && a == Transferred(w) && b.i == s.i && b.j == s.j && a.from == fs[b.i] && a.to == ts[b.j] && a.st == b.st
      && a.ot == b.ot && a.of == b.of
    ensures PlaceOk(st0, ts, fs, b) && ContentOk(st0, ts, fs, b.st, b.c)
    ensures var d, e := |st0[ts[b.j]].data| - s.ot, |st0[fs[b.i]].data| - s.of;
      var m := if d >= e then e else d; d >= 0 && e >= 0 && b.of == s.of + m && b.ot == s.ot + m
  {
    CopyHere(st0, p, ts, q, fs, s);
    a := Transferred(w);
    var m := a.ot - w.ot;
    CopyStep(st0, ts, fs, s, m, a.st);
    TransferPlace(st0, ts, fs, s, m);
    b := Cursor(a.st, s.i, s.j, s.of + m, s.ot + m, s.c + m);
  }

  /** On lengths, it is the round of `PbufLengths`. */
  lemma AdvancedSpot(st0: Store, ts: seq<Ptr>, fs: seq<Ptr>, s: Cursor, b: Cursor)
    requires AllIn(st0, ts) && AllIn(st0, fs) && s.i < |fs| && s.j < |ts| && b.i == s.i && b.j == s.j
    requires s.of <= |st0[fs[s.i]].data| && s.ot <= |st0[ts[s.j]].data|
    requires var d, e := |st0[ts[s.j]].data| - s.ot, |st0[fs[s.i]].data| - s.of;
      var m := if d >= e then e else d; b.of == s.of + m && b.ot == s.ot + m
    ensures SpotOf(Advanced(st0, ts, fs, b)) == Round(Lens(st0, fs), Lens(st0, ts), SpotOf(s))
  {
    assert Lens(st0, fs)[s.i] == |st0[fs[s.i]].data| && Lens(st0, ts)[s.j] == |st0[ts[s.j]].data|;
  }

  /** One iteration: the transfer, then the moves to the next segments. */
  lemma CopyRound(st0: Store, p: Ptr, ts: seq<Ptr>, q: Ptr, fs: seq<Ptr>, w: Walk, s: Cursor)
    returns (w': Walk, s': Cursor)
    requires IsChain(st0, p, ts) && IsChain(st0, q, fs) && (forall x :: x in ts ==> x !in fs) && Distinct(ts)
    requires Walking(st0, ts, fs, w, s) && s.i < |fs| && s.j < |ts|
    ensures w.Fits() && w' == Moved(Transferred(w)) && Walking(st0, ts, fs, w', s')
    ensures Lens(st0, fs)[s.i] >= s.of && Lens(st0, ts)[s.j] >= s.ot
    ensures SpotOf(s') == Round(Lens(st0, fs), Lens(st0, ts), SpotOf(s))
  {
    var a, b := RoundTransfers(st0, p, ts, q, fs, w, s);
    AdvancedPlace(st0, ts, fs, b);
    s' := Advanced(st0, ts, fs, b);
    AdvancedSpot(st0, ts, fs, s, b);
    RoundEnds(st0, p, ts, q, fs, a, b, s');
    w' := Moved(a);
  }

  lemma CopyEnds(st0: Store, ts: seq<Ptr>, fs: seq<Ptr>, w: Walk, s: Cursor)
    requires Walking(st0, ts, fs, w, s) && s.i == |fs|
    ensures s.c == |Bytes(st0, fs)|
  {
    assert fs[..|fs|] == fs;
  }

  /** The loop has found a queued segment, or none. */
  lemma LooksQueued(st0: Store, p: Ptr, ts: seq<Ptr>, q: Ptr, fs: seq<Ptr>, w: Walk, s: Cursor)
    requires IsChain(st0, p, ts) && IsChain(st0, q, fs) && Packet(st0, ts) && Packet(st0, fs) && Totalled(st0)
    requires Walking(st0, ts, fs, w, s)
    ensures Queued(w.st, w.from) <==> QueuedAt(Lens(st0, fs), s.i)
    ensures Queued(w.st, w.to) <==> QueuedAt(Lens(st0, ts), s.j)
    ensures (w.from == 0 <==> s.i == |fs|) && (w.to == 0 <==> s.j == |ts|)
  {
    QueuedStill(st0, w.st, ts, w.from);
    QueuedStill(st0, w.st, ts, w.to);
    if s.i < |fs| {
      QueuedMeans(st0, q, fs, s.i);
    }
    if s.j < |ts| {
      QueuedMeans(st0, p, ts, s.j);
    }
  }

  /** What a round has shown about the lengths of the segments. */
  lemma RoundShows(a: seq<nat>, b: seq<nat>, s: Spot, t: Spot)
    requires a != [] && b != [] && Reached(a, b, s) && s.i < |a| && s.j < |b| && Total(a) <= Total(b)
    requires s.of <= a[s.i] && s.ot <= b[s.j] && t == Round(a, b, s)
    ensures QueuedAt(a, t.i) || QueuedAt(b, t.j) ==> !CanCopy(a, b) && !RunsOff(a, b)
    ensures !QueuedAt(a, t.i) && !QueuedAt(b, t.j) ==> Passed(a, b, t)
    ensures !QueuedAt(b, t.j) && t.i == |a| ==> CanCopy(a, b)
    ensures !QueuedAt(a, t.i) && !QueuedAt(b, t.j) && t.i < |a| && t.j == |b| ==> RunsOff(a, b)
  {
    if QueuedAt(a, t.i) {
      SourceQueued(a, b, s, t);
    } else if QueuedAt(b, t.j) {
      if Plain(a) { TargetQueuedPlain(a, b, s, t); } else { TargetQueuedOther(a, b, s, t); }
    } else {
      RoundPasses(a, b, s, t);
      if t.i == |a| && !Plain(a) {
        CopiedOther(a, b, s, t);
      } else if t.i == |a| && !Plain(b) {
        CopiedPlain(a, b, s, t);
      } else if t.i < |a| && t.j == |b| {
        TargetMissing(a, b, t);
      }
    }
  }

  /** The loop has more to copy, and without a target it will say so. */
  ghost predicate OnTheWay(st0: Store, ts: seq<Ptr>, fs: seq<Ptr>, w: Walk, s: Cursor, end: Err) {
    && Walking(st0, ts, fs, w, s) && s.i < |fs| && ts != [] && Reached(Lens(st0, fs), Lens(st0, ts), SpotOf(s))
    && (w.to == 0 <==> s.j == |ts|) && (w.to == 0 ==> end == NoTarget)
  }

  /** Where a round from the place `at` leads. */
  lemma CopyLeads(st0: Store, ts: seq<Ptr>, fs: seq<Ptr>, w: Walk, at: Spot, s: Cursor, end: Err)
    requires AllIn(st0, ts) && AllIn(st0, fs) && ts != [] && fs != [] && |Bytes(st0, fs)| <= |Bytes(st0, ts)|
    requires var a, b := Lens(st0, fs), Lens(st0, ts);
      && end == Outcome(a, b) && Reached(a, b, at) && at.i < |a| && at.j < |b| && at.of <= a[at.i] && at.ot <= b[at.j]
      && SpotOf(s) == Round(a, b, at)
    requires Walking(st0, ts, fs, w, s) && (w.from == 0 <==> s.i == |fs|) && (w.to == 0 <==> s.j == |ts|)
    ensures var a, b := Lens(st0, fs), Lens(st0, ts);
      if QueuedAt(a, s.i) || QueuedAt(b, s.j) then end == ErrVal
      else if w.from == 0 then end == ErrOk && s.c == |Bytes(st0, fs)|
      else OnTheWay(st0, ts, fs, w, s, end)
  {
    LensTotal(st0, fs);
    LensTotal(st0, ts);
    RoundShows(Lens(st0, fs), Lens(st0, ts), at, SpotOf(s));
    if s.i == |fs| {
      CopyEnds(st0, ts, fs, w, s);
    }
  }

  /** A round, and what the loop then finds out about the segments it has come to. */
  lemma CopyLooks(st0: Store, p: Ptr, ts: seq<Ptr>, q: Ptr, fs: seq<Ptr>, w: Walk, s: Cursor)
    returns (w': Walk, s': Cursor)
    requires IsChain(st0, p, ts) && IsChain(st0, q, fs) && (forall x :: x in ts ==> x !in fs) && Distinct(ts)
    requires Packet(st0, ts) && Packet(st0, fs) && Totalled(st0)
    requires Walking(st0, ts, fs, w, s) && s.i < |fs| && s.j < |ts|
    ensures AllIn(st0, ts) && AllIn(st0, fs)
    ensures w.Fits() && w' == Moved(Transferred(w)) && Walking(st0, ts, fs, w', s')
    ensures Lens(st0, fs)[s.i] >= s.of && Lens(st0, ts)[s.j] >= s.ot
    ensures SpotOf(s') == Round(Lens(st0, fs), Lens(st0, ts), SpotOf(s))
    ensures Queued(w'.st, w'.from) <==> QueuedAt(Lens(st0, fs), s'.i)
    ensures Queued(w'.st, w'.to) <==> QueuedAt(Lens(st0, ts), s'.j)
    ensures (w'.from == 0 <==> s'.i == |fs|) && (w'.to == 0 <==> s'.j == |ts|)
    ensures |fs| - s'.i + |ts| - s'.j < |fs| - s.i + |ts| - s.j
  {
    w', s' := CopyRound(st0, p, ts, q, fs, w, s);
    LooksQueued(st0, p, ts, q, fs, w', s');
  }

  lemma CopyGoesOn(st0: Store, p: Ptr, ts: seq<Ptr>, q: Ptr, fs: seq<Ptr>, w: Walk, s: Cursor, end: Err)
    returns (w': Walk, s': Cursor)
    requires IsChain(st0, p, ts) && IsChain(st0, q, fs) && (forall x :: x in ts ==> x !in fs) && Distinct(ts)
    requires Packet(st0, ts) && Packet(st0, fs) && Totalled(st0) && |Bytes(st0, fs)| <= |Bytes(st0, ts)|
    requires OnTheWay(st0, ts, fs, w, s, end) && w.to != 0 && end == Outcome(Lens(st0, fs), Lens(st0, ts))
    ensures w.Fits() && w' == Moved(Transferred(w)) && Walking(st0, ts, fs, w', s')
    ensures |fs| - s'.i + |ts| - s'.j < |fs| - s.i + |ts| - s.j
    ensures
      if Queued(w'.st, w'.from) || Queued(w'.st, w'.to) then end == ErrVal
      else if w'.from == 0 then end == ErrOk && s'.c == |Bytes(st0, fs)|
      else OnTheWay(st0, ts, fs, w', s', end)
  {
    w', s' := CopyLooks(st0, p, ts, q, fs, w, s);
    CopyLeads(st0, ts, fs, w', SpotOf(s), s', end);
  }

  /**
   The loop of pbuf_copy: it copies the whole source if and only if the lengths of the segments allow
   it, and otherwise stops after `c` bytes.
   */
  method CopyLoop(st0: Store, pTo: Ptr, pFrom: Ptr, ghost ts: seq<Ptr>, ghost fs: seq<Ptr>)
    returns (err: Err, st: Store, ghost c: nat)
    requires IsChain(st0, pTo, ts) && IsChain(st0, pFrom, fs) && (forall x :: x in ts ==> x !in fs) && Distinct(ts)
    requires Packet(st0, ts) && Packet(st0, fs) && Totalled(st0) && ts != [] && fs != []
    requires |Bytes(st0, fs)| <= |Bytes(st0, ts)|
    ensures err == Outcome(Lens(st0, fs), Lens(st0, ts))
    ensures ContentOk(st0, ts, fs, st, c) && (err == ErrOk ==> c == |Bytes(st0, fs)|)
  {
    var w := Walk(st0, pTo, pFrom, 0, 0);
    ghost var s := Cursor(st0, 0, 0, 0, 0, 0);
    CopyStarts(st0, pTo, ts, pFrom, fs);
    LooksQueued(st0, pTo, ts, pFrom, fs, w, s);
    ghost var end := Outcome(Lens(st0, fs), Lens(st0, ts));
    while true
      invariant OnTheWay(st0, ts, fs, w, s, end)
      decreases |fs| - s.i + |ts| - s.j
    {
      if w.to == 0 {
        return NoTarget, w.st, s.c;
      }
      ghost var w';
      w', s := CopyGoesOn(st0, pTo, ts, pFrom, fs, w, s, end);
      w := Moved(Transferred(w));
      if Queued(w.st, w.from) || Queued(w.st, w.to) {
        return ErrVal, w.st, s.c;
      }
      if w.from == 0 {
        return ErrOk, w.st, s.c;
      }
    }
  }

  /** `n` elements of `s` from `off`, as far as there are any. */
  function Clip(s: seq<int>, off: nat, n: nat): seq<int> {
    if off >= |s| then [] else if off + n >= |s| then s[off..] else s[off..off + n]
  }

  lemma ClipSkip(d: seq<int>, rest: seq<int>, off: nat, n: nat)
    requires off >= |d|
    ensures Clip(d + rest, off, n) == Clip(rest, off - |d|, n)
  {
    var s := d + rest;
    if off < |s| {
      assert s[off..] == rest[off - |d|..];
      if off + n < |s| {
        assert s[off..off + n] == rest[off - |d|..off - |d| + n];
      }
    }
  }

  lemma ClipTake(d: seq<int>, rest: seq<int>, off: nat, n: nat, m: nat)
    requires off <= |d| && m == if |d| - off > n then n else |d| - off
    ensures Clip(d + rest, off, n) == d[off..off + m] + Clip(rest, 0, n - m)
  {
    var s := d + rest;
    if |d| - off > n {
      assert s[off..off + n] == d[off..off + n];
      assert Clip(rest, 0, 0) == [];
    } else if off + n < |s| {
      assert s[off..off + n] == d[off..] + rest[..n - m];
    } else {
      assert s[off..] == d[off..] + rest;
    }
  }

  lemma ClipSegment(st: Store, p: Ptr, ps: seq<Ptr>, k: nat, off: nat, n: nat)
    requires IsChain(st, p, ps) && AllIn(st, ps) && k < |ps|
    ensures ps[k] in st && (if k + 1 < |ps| then st[ps[k]].next == ps[k + 1] && ps[k + 1] != 0 else st[ps[k]].next == 0)
    ensures var d, rest := st[ps[k]].data, Bytes(st, ps[k + 1..]);
      if off != 0 && off >= |d| then Clip(Bytes(st, ps[k..]), off, n) == Clip(rest, off - |d|, n)
      else
        var m := if |d| - off > n then n else |d| - off;
        Clip(Bytes(st, ps[k..]), off, n) == d[off..off + m] + Clip(rest, 0, n - m)
  {
    ChainInStore(st, p, ps);
    assert LinkedAt(st, ps, k) && LinkedAt(st, ps, k + 1);
    var d, rest, all := st[ps[k]].data, Bytes(st, ps[k + 1..]), Bytes(st, ps[k..]);
    assert all == d + rest by { BytesTake(st, ps, k); }
    if off != 0 && off >= |d| {
      ClipSkip(d, rest, off, n);
    } else {
      ClipTake(d, rest, off, n, if |d| - off > n then n else |d| - off);
    }
  }

  lemma ClipNothing(st: Store, ps: seq<Ptr>, k: nat, off: nat, n: nat)
    requires AllIn(st, ps) && k <= |ps| && (n == 0 || k == |ps|)
    ensures Clip(Bytes(st, ps[k..]), off, n) == []
  {
  }

  lemma AppendAgain(a: seq<int>, b: seq<int>, c: seq<int>)
    ensures a + (b + c) == (a + b) + c
  {
  }

  /** The loop of pbuf_copy_partial. */
  method Gather(st: Store, buf: Ptr, len: nat, offset: nat, ghost ps: seq<Ptr>) returns (out: seq<int>)
    requires IsChain(st, buf, ps)
    ensures AllIn(st, ps) && out == Clip(Bytes(st, ps), offset, len)
  {
    ChainInStore(st, buf, ps);
    out := [];
    var p: Ptr, n: nat, off: nat := buf, len, offset;
    ghost var k := 0;
    ghost var want, left := Clip(Bytes(st, ps), offset, len), Clip(Bytes(st, ps), offset, len);
    assert ps[0..] == ps && want == [] + left;
    while n != 0 && p != 0
      invariant k <= |ps| && (p == 0 <==> k == |ps|) && (k < |ps| ==> p == ps[k])
      invariant left == Clip(Bytes(st, ps[k..]), off, n)
      invariant want == out + left
      decreases |ps| - k
    {
      ClipSegment(st, buf, ps, k, off, n);
      var data := st[p].data;
      if off != 0 && off >= |data| {
        off := off - |data|;
      } else {
        var m := if |data| - off > n then n else |data| - off;
        ghost var after := Clip(Bytes(st, ps[k + 1..]), 0, n - m);
        assert left == data[off..off + m] + after;
        AppendAgain(out, data[off..off + m], after);
        out := out + data[off..off + m];
        left := after;
        n := n - m;
        off := 0;
      }
      p := st[p].next;
      k := k + 1;
    }
    ClipNothing(st, ps, k, off, n);
  }
}
