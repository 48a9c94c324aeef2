/** SLIP framing (net/lwip/netif/slipif.c, RFC 1055): packets on a serial line. */
module Slip {
  import opened Options

  const END: int := 0xC0
  const ESC: int := 0xDB
  const ESC_END: int := 0xDC
  const ESC_ESC: int := 0xDD
  const MAX_SIZE: nat := 1500

  type Bytes = seq<int>

  /** The contents of a pbuf chain. */
  function Flat(segs: seq<Bytes>): Bytes {
    if segs == [] then [] else segs[0] + Flat(segs[1..])
  }

  // ---------- The protocol ----------

  function EscapeByte(c: int): Bytes {
    if c == END then [ESC, ESC_END] else if c == ESC then [ESC, ESC_ESC] else [c]
  }

  function Escape(p: Bytes): Bytes {
    if p == [] then [] else EscapeByte(p[0]) + Escape(p[1..])
  }

  function Encode(p: Bytes): Bytes {
    [END] + Escape(p) + [END]
  }

  function EncodeAll(ps: seq<Bytes>): Bytes {
    if ps == [] then [] else Encode(ps[0]) + EncodeAll(ps[1..])
  }

  /** What an escaped byte stands for; unknown escapes stand for themselves. */
  function Unescape(c: int): int {
    if c == ESC_END then END else if c == ESC_ESC then ESC else c
  }

  /** A further byte of a packet; bytes beyond the buffer limit are dropped. */
  function Push(acc: Bytes, c: int): Bytes {
    if |acc| <= MAX_SIZE then acc + [c] else acc
  }

  /** The packets that slipif_input delivers from a stream, when `acc` has been received of the current one. */
  function Decode(acc: Bytes, s: Bytes): seq<Bytes>
    decreases |s|
  {
    if s == [] then []
    else if s[0] == END then (if acc != [] then [acc] else []) + Decode([], s[1..])
    else if s[0] == ESC then if |s| < 2 then [] else Decode(Push(acc, Unescape(s[1])), s[2..])
    else Decode(Push(acc, s[0]), s[1..])
  }

  /** What is left of a packet: at most one byte more than MAX_SIZE. */
  function Kept(p: Bytes): Bytes {
    if |p| <= MAX_SIZE + 1 then p else p[..MAX_SIZE + 1]
  }

  // ---------- The round trip ----------

  lemma ByteReads(acc: Bytes, c: int, rest: Bytes)
    ensures Decode(acc, EscapeByte(c) + rest) == Decode(Push(acc, c), rest)
  {
    var s := EscapeByte(c) + rest;
    if c == END || c == ESC {
      assert s[2..] == rest;
    } else {
      assert s[1..] == rest;
    }
  }

  lemma PushKept(acc: Bytes, p: Bytes)
    requires p != [] && acc == Kept(acc)
    ensures Push(acc, p[0]) == Kept(Push(acc, p[0])) && Kept(Push(acc, p[0]) + p[1..]) == Kept(acc + p)
  {
    if |acc| <= MAX_SIZE {
      assert acc + [p[0]] + p[1..] == acc + p;
    }
  }

  lemma {:induction false} EscapedReads(acc: Bytes, p: Bytes, rest: Bytes)
    requires acc == Kept(acc)
    ensures Decode(acc, Escape(p) + rest) == Decode(Kept(acc + p), rest)
    decreases |p|
  {
    if p == [] {
      assert Escape(p) + rest == rest && acc + p == acc;
    } else {
      var next := Escape(p[1..]) + rest;
      assert Escape(p) + rest == EscapeByte(p[0]) + next;
      ByteReads(acc, p[0], next);
      PushKept(acc, p);
      EscapedReads(Push(acc, p[0]), p[1..], rest);
    }
  }

  /** Whatever was on the line before, a packet arrives whole and alone, because it starts with an END. */
  lemma PacketReads(acc: Bytes, p: Bytes, rest: Bytes)
    ensures Decode(acc, Encode(p) + rest) ==
      (if acc != [] then [acc] else []) + (if p != [] then [Kept(p)] else []) + Decode([], rest)
  {
    var s := Encode(p) + rest;
    var tail := [END] + rest;
    assert s[1..] == Escape(p) + tail;
    EscapedReads([], p, tail);
    assert [] + p == p && tail[1..] == rest;
  }

  /** The packets that arrive: empty ones vanish and long ones are cut. */
  function Arriving(ps: seq<Bytes>): seq<Bytes> {
    if ps == [] then [] else (if ps[0] != [] then [Kept(ps[0])] else []) + Arriving(ps[1..])
  }

  lemma {:induction false} AllRead(ps: seq<Bytes>)
    ensures Decode([], EncodeAll(ps)) == Arriving(ps)
  {
    if ps != [] {
      PacketReads([], ps[0], EncodeAll(ps[1..]));
      AllRead(ps[1..]);
    }
  }

  ghost predicate Carried(ps: seq<Bytes>) {
    forall i :: 0 <= i < |ps| ==> 0 < |ps[i]| <= MAX_SIZE + 1
  }

  lemma CarriedCons(p: Bytes, ps: seq<Bytes>)
    ensures Carried([p] + ps) <==> 0 < |p| <= MAX_SIZE + 1 && Carried(ps)
  {
    var all := [p] + ps;
    assert all[0] == p && forall i :: 0 <= i < |ps| ==> all[i + 1] == ps[i];
  }

  lemma {:induction false} ArrivingIsNoLonger(ps: seq<Bytes>)
    ensures |Arriving(ps)| <= |ps|
  {
    if ps != [] {
      ArrivingIsNoLonger(ps[1..]);
    }
  }

  lemma {:induction false} ArrivingIsSent(ps: seq<Bytes>)
    ensures Arriving(ps) == ps <==> Carried(ps)
  {
    if ps != [] {
      var p, rest := ps[0], ps[1..];
      ArrivingIsSent(rest);
      ArrivingIsNoLonger(rest);
      assert ps == [p] + rest;
      CarriedCons(p, rest);
      if p != [] {
        assert Arriving(ps)[0] == Kept(p) && Arriving(ps)[1..] == Arriving(rest);
      }
    }
  }

  /** The round trip is exact for any list of packets if and only if each has from 1 to 1501 bytes. */
  lemma RoundTrip(ps: seq<Bytes>)
    ensures Decode([], EncodeAll(ps)) == ps <==> Carried(ps)
  {
    AllRead(ps);
    ArrivingIsSent(ps);
  }

  // ---------- The routines ----------

  lemma SentByte(line: Bytes, left: Bytes)
    requires left != []
    ensures line + Escape(left) == line + EscapeByte(left[0]) + Escape(left[1..])
    ensures left[0] == END ==> line + [ESC] + [ESC_END] == line + EscapeByte(left[0])
    ensures left[0] == ESC ==> line + [ESC] + [ESC_ESC] == line + EscapeByte(left[0])
  {
  }

  /** slipif_output: what is sent for the chain `p`. */
  method Output(p: seq<Bytes>) returns (line: Bytes)
    ensures line == Encode(Flat(p))
  {
    line := [END];
    var q := 0;
    while q < |p|
      invariant q <= |p| && [END] + Escape(Flat(p)) == line + Escape(Flat(p[q..]))
    {
      assert p[q..][1..] == p[q + 1..];
      var i := 0;
      while i < |p[q]|
        invariant i <= |p[q]| && [END] + Escape(Flat(p)) == line + Escape(p[q][i..] + Flat(p[q + 1..]))
      {
        var c := p[q][i];
        ghost var left := p[q][i..] + Flat(p[q + 1..]);
        assert left[1..] == p[q][i + 1..] + Flat(p[q + 1..]);
        SentByte(line, left);
        if c == END {
          line := line + [ESC];
          line := line + [ESC_END];
        } else if c == ESC {
          line := line + [ESC];
          line := line + [ESC_ESC];
        } else {
          line := line + [c];
        }
        i := i + 1;
      }
      assert p[q][i..] + Flat(p[q + 1..]) == Flat(p[q + 1..]);
      q := q + 1;
    }
    assert [END] + Escape(Flat(p)) == line;
    line := line + [END];
  }

  /** pbuf_alloc: a chain of segments with the lengths that the pool gives; their bytes are not set. */
  function FreshChain(lens: seq<nat>): seq<Bytes> {
    seq(|lens|, i requires 0 <= i < |lens| => seq(lens[i], _ => 0))
  }

  lemma {:induction false} FlatConcat(a: seq<Bytes>, b: seq<Bytes>)
    ensures Flat(a + b) == Flat(a) + Flat(b)
  {
    if a == [] {
      assert a + b == b;
    } else {
      assert (a + b)[1..] == a[1..] + b;
      FlatConcat(a[1..], b);
    }
  }

  lemma FlatSplit(q: seq<Bytes>, k: nat)
    requires k < |q|
    ensures Flat(q) == Flat(q[..k]) + (q[k] + Flat(q[k + 1..]))
    ensures Flat(q[..k + 1]) == Flat(q[..k]) + q[k]
  {
    assert q == q[..k] + q[k..] && q[..k + 1] == q[..k] + [q[k]] && q[k..][1..] == q[k + 1..];
    FlatConcat(q[..k], q[k..]);
    FlatConcat(q[..k], [q[k]]);
    assert Flat([q[k]]) == q[k];
  }

  /**
   The chain `q` holds the bytes `acc`; the next byte goes to place `i` of segment `p`, or to a new
   chain if `p` is -1.
   */
  ghost predicate Filling(q: seq<Bytes>, p: int, i: nat, acc: Bytes) {
    && |acc| <= |Flat(q)| && acc == Flat(q)[..|acc|] && (forall k :: 0 <= k < |q| ==> q[k] != [])
    && if p == -1 then |acc| == |Flat(q)| else 0 <= p < |q| && i < |q[p]| && |Flat(q[..p])| + i == |acc|
  }

  /** There is room left exactly when there is a place for the next byte. */
  lemma RoomLeft(q: seq<Bytes>, p: int, i: nat, acc: Bytes)
    requires Filling(q, p, i, acc)
    ensures p == -1 <==> |Flat(q)| == |acc|
  {
    if p != -1 {
      FlatSplit(q, p);
    }
  }

  lemma FreshAreLong(lens: seq<nat>)
    requires forall k :: 0 <= k < |lens| ==> lens[k] > 0
    ensures forall k :: 0 <= k < |lens| ==> FreshChain(lens)[k] != []
  {
    forall k | 0 <= k < |lens| ensures FreshChain(lens)[k] != [] {
      assert |FreshChain(lens)[k]| == lens[k];
    }
  }

  /** A new chain `n` goes to the end of the packet's chain. */
  lemma ChainGrows(q: seq<Bytes>, i: nat, acc: Bytes, n: seq<Bytes>)
    requires Filling(q, -1, i, acc) && n != [] && forall k :: 0 <= k < |n| ==> n[k] != []
    ensures Filling(q + n, |q|, 0, acc) && |Flat(q + n)| == |Flat(q)| + |Flat(n)|
  {
    FlatConcat(q, n);
    assert (q + n)[..|q|] == q;
  }

  lemma PrefixStored(a: Bytes, b: Bytes, z: Bytes, i: nat, c: int)
    requires i < |b|
    ensures (a + (b[i := c] + z))[..|a| + i + 1] == (a + (b + z))[..|a| + i] + [c]
  {
  }

  lemma FlatStored(q: seq<Bytes>, p: nat, i: nat, c: int, q': seq<Bytes>)
    requires p < |q| && i < |q[p]| && q' == q[p := q[p][i := c]]
    ensures var n := |Flat(q[..p])|;
      && |Flat(q')| == |Flat(q)| && n + i < |Flat(q)| && Flat(q')[..n + i + 1] == Flat(q)[..n + i] + [c]
      && Flat(q'[..p]) == Flat(q[..p]) && |Flat(q'[..p + 1])| == n + |q[p]|
  {
    FlatSplit(q, p);
    FlatSplit(q', p);
    assert q'[..p] == q[..p] && q'[p + 1..] == q[p + 1..];
    PrefixStored(Flat(q[..p]), q[p], Flat(q[p + 1..]), i, c);
  }

  /** Storing a byte in a segment stores it at its place of the packet. */
  lemma ByteStored(q: seq<Bytes>, p: nat, i: nat, acc: Bytes, c: int, q': seq<Bytes>)
    requires Filling(q, p, i, acc) && q' == q[p := q[p][i := c]]
    ensures if i + 1 < |q[p]| then Filling(q', p, i + 1, acc + [c])
            else if p + 1 < |q| then Filling(q', p + 1, 0, acc + [c])
            else Filling(q', -1, 0, acc + [c])
    ensures |Flat(q')| == |Flat(q)|
  {
    FlatStored(q, p, i, c, q');
    assert Flat(q')[..|acc| + 1] == acc + [c];
    if p + 1 == |q| {
      assert q'[..p + 1] == q';
    }
  }

  /** The store of slipif_input, and its step to the next place. */
  method StoreByte(q: seq<Bytes>, p: nat, i: nat, c: int, ghost acc: Bytes) returns (q': seq<Bytes>, p': int, i': nat)
    requires Filling(q, p, i, acc)
    ensures Filling(q', p', i', acc + [c]) && |Flat(q')| == |Flat(q)|
  {
    ByteStored(q, p, i, acc, c, q[p := q[p][i := c]]);
    q', p', i' := q[p := q[p][i := c]], p, i + 1;
    if i' >= |q[p]| {
      i' := 0;
      p' := if p + 1 < |q| then p + 1 else -1;
    }
  }

  /**
   The packets that slipif_input delivers when the pool may run dry: `room` is left in the chain, `n`
   is what a new chain has, and `give(k)` says whether pbuf_alloc gives one when `k` bytes of the
   stream are still to come. A byte for which there is no room is dropped.
   */
  function Receive(give: nat -> bool, n: nat, room: nat, acc: Bytes, s: Bytes): seq<Bytes>
    decreases |s|
  {
    if s == [] then []
    else if s[0] == END then
      if acc != [] then [acc] + Receive(give, n, 0, [], s[1..]) else Receive(give, n, room, acc, s[1..])
    else if s[0] == ESC && |s| == 1 then []
    else
      var c, rest := if s[0] == ESC then Unescape(s[1]) else s[0], if s[0] == ESC then s[2..] else s[1..];
      var room1 := if room == 0 && give(|rest|) then n else room;
      if room1 > 0 && |acc| <= MAX_SIZE then Receive(give, n, room1 - 1, acc + [c], rest)
        else Receive(give, n, room1, acc, rest)
  }

  /** With a pool that always gives, the packets are those of the protocol. */
  lemma {:induction false} FullPoolDecodes(give: nat -> bool, n: nat, room: nat, acc: Bytes, s: Bytes)
    requires n > 0 && forall k: nat :: give(k)
    ensures Receive(give, n, room, acc, s) == Decode(acc, s)
    decreases |s|
  {
    if s != [] {
      if s[0] == END {
        FullPoolDecodes(give, n, if acc != [] then 0 else room, [], s[1..]);
      } else if s[0] != ESC || |s| > 1 {
        var c, rest := if s[0] == ESC then Unescape(s[1]) else s[0], if s[0] == ESC then s[2..] else s[1..];
        assert give(|rest|);
        var room1 := if room == 0 then n else room;
        FullPoolDecodes(give, n, if |acc| <= MAX_SIZE then room1 - 1 else room1, Push(acc, c), rest);
      }
    }
  }

  /** The default case of slipif_input, in which pbuf_alloc may refuse. */
  method TakeByte(q: seq<Bytes>, p: int, i: nat, recved: nat, c: int, lens: seq<nat>, given: bool, ghost acc: Bytes)
    returns (q': seq<Bytes>, p': int, i': nat, recved': nat, ghost acc': Bytes)
    requires Filling(q, p, i, acc) && recved == |acc| && lens != [] && forall k :: 0 <= k < |lens| ==> lens[k] > 0
    ensures Filling(q', p', i', acc') && recved' == |acc'|
    ensures var room := |Flat(q)| - |acc|;
      var room1 := if room == 0 && given then |Flat(FreshChain(lens))| else room;
      if room1 > 0 && |acc| <= MAX_SIZE then acc' == acc + [c] && |Flat(q')| - |acc'| == room1 - 1
      else acc' == acc && |Flat(q')| - |acc'| == room1
  {
    q', p', i', recved', acc' := q, p, i, recved, acc;
    RoomLeft(q, p, i, acc);
    if p == -1 && given {
      FreshAreLong(lens);
      ChainGrows(q, i, acc, FreshChain(lens));
      p', i', q' := |q|, 0, q + FreshChain(lens);
      RoomLeft(q', p', i', acc);
    }
    if p' != -1 && recved <= MAX_SIZE {
      q', p', i' := StoreByte(q', p', i', c, acc);
      acc' := acc + [c];
      recved' := recved + 1;
    }
  }

  /** slipif_input from place `pos` of the stream: the next packet, or None when the stream ends first. */
  method Input(s: Bytes, pos: nat, lens: seq<nat>, give: nat -> bool) returns (r: Option<Bytes>, pos': nat)
    requires pos <= |s| && lens != [] && forall k :: 0 <= k < |lens| ==> lens[k] > 0
    ensures pos <= pos' <= |s|
    ensures var n := |Flat(FreshChain(lens))|;
      Receive(give, n, 0, [], s[pos..]) == if r.Some? then [r.value] + Receive(give, n, 0, [], s[pos'..]) else []
  {
    var q: seq<Bytes>, p, i, recved := [], -1, 0, 0;
    ghost var n := |Flat(FreshChain(lens))|;
    ghost var acc: Bytes := [];
    pos' := pos;
    while pos' < |s|
      invariant pos <= pos' <= |s| && Filling(q, p, i, acc) && recved == |acc|
      invariant Receive(give, n, 0, [], s[pos..]) == Receive(give, n, |Flat(q)| - |acc|, acc, s[pos'..])
    {
      var c := s[pos'];
      ghost var t := s[pos'..];
      pos' := pos' + 1;
      assert t[1..] == s[pos'..];
      if c == END {
        if recved > 0 {
          return Some(Flat(q)[..recved]), pos';
        }
      } else {
        if c == ESC {
          if pos' == |s| {
            return None, pos';
          }
          c := Unescape(s[pos']);
          pos' := pos' + 1;
          assert t[2..] == s[pos'..];
        }
        q, p, i, recved, acc := TakeByte(q, p, i, recved, c, lens, give(|s| - pos'), acc);
      }
    }
    return None, pos';
  }
}
