/** The blocks of the image as the builder of fs/fsformat.c uses them: through the cache, a few held at a time. */
module ImageStore {
  import opened Options
  import opened DiskImage
  import opened BlockCache

  /** `pins` names the block that the holder of each busy slot has in it. */
  ghost predicate PinOk(c: seq<Slot<Content>>, pins: map<nat, nat>, i: nat) {
    && (i in pins <==> i < |c| && c[i].busy)
    && (i in pins ==> i < |c| && c[i].bno == pins[i] && pins[i] > 0)
  }

  /** The cache shows `blocks`, which are all blocks from 1 up. */
  ghost predicate ShownAt(c: seq<Slot<Content>>, d: seq<Content>, blocks: map<nat, Content>, b: nat) {
    && (b in blocks <==> 1 <= b < |d|)
    && (b in blocks ==> b < |d| && View(c, d, b) == blocks[b])
  }

  ghost function PinnedBelow(c: seq<Slot<Content>>, n: nat): set<nat>
    requires n <= |c|
  {
    set i: nat | i < n && c[i].busy
  }

  lemma {:induction false} PinsBelow(c: seq<Slot<Content>>, n: nat)
    requires n <= |c|
    ensures |PinnedBelow(c, n)| <= n
    ensures |PinnedBelow(c, n)| < n <==> exists i :: 0 <= i < n && Idle(c, i)
  {
    if n > 0 {
      PinsBelow(c, n - 1);
      var s := PinnedBelow(c, n - 1);
      if c[n - 1].busy {
        assert PinnedBelow(c, n) == s + {n - 1};
      } else {
        assert PinnedBelow(c, n) == s;
        assert Idle(c, n - 1);
      }
    }
  }

  /** A slot is idle exactly when fewer than sixteen blocks are held. */
  lemma IdleIff(c: seq<Slot<Content>>, pins: map<nat, nat>)
    requires |c| == SLOTS && forall i: nat :: PinOk(c, pins, i)
    ensures (exists i :: Idle(c, i)) <==> |pins| < SLOTS
    ensures |pins| <= SLOTS
  {
    PinsBelow(c, SLOTS);
    assert pins.Keys == PinnedBelow(c, SLOTS) by {
      forall i: nat ensures i in pins <==> i in PinnedBelow(c, SLOTS) { assert PinOk(c, pins, i); }
    }
    assert |pins| == |pins.Keys|;
  }

  ghost predicate Shown(c: seq<Slot<Content>>, d: seq<Content>, blocks: map<nat, Content>, pins: map<nat, nat>) {
    && (forall b: nat :: ShownAt(c, d, blocks, b))
    && (forall i: nat :: PinOk(c, pins, i))
  }

  /** A block is held exactly when some holder names it. */
  lemma HeldIsPinned(c: seq<Slot<Content>>, pins: map<nat, nat>, b: nat)
    requires (forall i: nat :: PinOk(c, pins, i)) && b > 0
    ensures Held(c, b) <==> b in pins.Values
  {
    if Held(c, b) {
      var i :| Holds(c, i, b) && c[i].busy;
      assert PinOk(c, pins, i);
      assert pins[i] == b;
    }
    if b in pins.Values {
      var i :| i in pins && pins[i] == b;
      assert PinOk(c, pins, i);
      assert Holds(c, i, b);
    }
  }

  /** What a call leaves that has changed slot `k` and the view of block `b` only. */
  lemma ShownAfter(c: seq<Slot<Content>>, d: seq<Content>, blocks: map<nat, Content>, pins: map<nat, nat>,
                   c': seq<Slot<Content>>, d': seq<Content>, k: nat, b: nat, x: Content)
    requires Shown(c, d, blocks, pins) && k < |c| == |c'| && 1 <= b < |d| && Changed(c, d, c', d', b, x)
    requires c'[k].bno == b && forall i :: 0 <= i < |c| && i != k ==> c'[i] == c[i]
    ensures Shown(c', d', blocks[b := x], if c'[k].busy then pins[k := b] else pins - {k})
  {
    var blocks', pins' := blocks[b := x], if c'[k].busy then pins[k := b] else pins - {k};
    forall a: nat ensures ShownAt(c', d', blocks', a) {
      assert ShownAt(c, d, blocks, a);
      assert 1 <= a < |d| ==> SeenAs(c, d, c', d', a, b, x);
    }
    forall i: nat ensures PinOk(c', pins', i) { assert PinOk(c, pins, i); }
  }

  /** The buffer of a held slot is the view of its block. */
  lemma InView(c: seq<Slot<Content>>, d: seq<Content>, t: nat, blocks: map<nat, Content>, pins: map<nat, nat>, s: nat)
    requires BlockCache.Inv(c, d, t) && Shown(c, d, blocks, pins) && s in pins
    ensures s < |c| && pins[s] in blocks && c[s].buf == blocks[pins[s]]
  {
    assert PinOk(c, pins, s) && SlotOk(c, |d|, t, s) && ShownAt(c, d, blocks, pins[s]);
    WhereIs(c, d, s);
  }

  /** The blocks of a file from 1 up. */
  function BlocksOf(d: seq<Content>): map<nat, Content> {
    map b: nat | 1 <= b < |d| :: d[b]
  }

  class Store {
    const cache: Cache<Content>
    ghost var blocks: map<nat, Content>
    ghost var pins: map<nat, nat>

    ghost function Parts(): set<object> {
      {this, cache, cache.slots, cache.disk}
    }

    ghost predicate Valid()
      reads Parts()
    {
      cache.Valid() && Shown(cache.slots[..], cache.disk[..], blocks, pins)
    }

    /** The cache over a new image file. */
    constructor (file: array<Content>)
      requires file.Length > 0
      ensures Valid() && pins == map[] && cache.disk == file && fresh(Parts() - {file})
      ensures forall b: nat :: b in blocks <==> 1 <= b < file.Length
    {
      cache := new Cache(file, BlankData());
      blocks := BlocksOf(file[..]);
      pins := map[];
      new;
      forall b: nat ensures ShownAt(cache.slots[..], cache.disk[..], blocks, b) {}
      forall i: nat ensures PinOk(cache.slots[..], pins, i) {}
    }

    lemma InDisk(b: nat)
      requires Valid() && b in blocks
      ensures 1 <= b < cache.disk.Length
    {
      assert ShownAt(cache.slots[..], cache.disk[..], blocks, b);
    }

    /** The buffer of a held block. */
    function At(s: nat): (x: Content)
      requires Valid() && s in pins
      reads Parts()
      ensures pins[s] in blocks && x == blocks[pins[s]]
    {
      assert PinOk(cache.slots[..], pins, s);
      InView(cache.slots[..], cache.disk[..], cache.t, blocks, pins, s);
      cache.slots[s].buf
    }

    /** getblk of a block as it is. */
    method Hold(bno: nat) returns (ok: bool, s: nat)
      requires Valid() && bno >= 1 && bno !in pins.Values
      modifies Parts()
      ensures ok <==> bno < cache.disk.Length && |old(pins)| < SLOTS
      ensures ok ==> Valid() && blocks == old(blocks) && s !in old(pins) && pins == old(pins)[s := bno]
    {
      ghost var c0, d0 := cache.slots[..], cache.disk[..];
      IdleIff(c0, pins);
      HeldIsPinned(c0, pins, bno);
      var k;
      ok, k := cache.GetBlk(bno, None, 0);
      s := 0;
      if ok {
        s := k;
        assert ShownAt(c0, d0, blocks, bno) && PinOk(c0, pins, s);
        ShownAfter(c0, d0, blocks, pins, cache.slots[..], cache.disk[..], s, bno, cache.slots[s].buf);
        assert blocks[bno := cache.slots[s].buf] == blocks;
        pins := pins[s := bno];
      }
    }

    /** getblk of a block that is cleared; `zero` is the cleared buffer as its user sees it. */
    method HoldClear(bno: nat, zero: Content) returns (ok: bool, s: nat)
      requires Valid() && bno >= 1 && bno !in pins.Values
      modifies Parts()
      ensures ok <==> bno < cache.disk.Length && |old(pins)| < SLOTS
      ensures ok ==> Valid() && blocks == old(blocks)[bno := zero] && s !in old(pins) && pins == old(pins)[s := bno]
    {
      ghost var c0, d0 := cache.slots[..], cache.disk[..];
      IdleIff(c0, pins);
      HeldIsPinned(c0, pins, bno);
      var k;
      ok, k := cache.GetBlk(bno, Some(zero), 0);
      s := 0;
      if ok {
        s := k;
        assert PinOk(c0, pins, s);
        ShownAfter(c0, d0, blocks, pins, cache.slots[..], cache.disk[..], s, bno, zero);
        blocks := blocks[bno := zero];
        pins := pins[s := bno];
      }
    }

    /** A store to the buffer of a held block. */
    method Write(s: nat, x: Content)
      requires Valid() && s in pins
      modifies Parts()
      ensures Valid() && pins == old(pins) && blocks == old(blocks)[pins[s] := x]
    {
      ghost var c0, d0 := cache.slots[..], cache.disk[..];
      assert PinOk(c0, pins, s) && SlotOk(c0, |d0|, cache.t, s);
      cache.Write(s, x);
      ShownAfter(c0, d0, blocks, pins, cache.slots[..], cache.disk[..], s, pins[s], x);
      assert pins[s := pins[s]] == pins;
      blocks := blocks[pins[s] := x];
    }

    /** putblk */
    method Put(s: nat)
      requires Valid() && s in pins
      modifies Parts()
      ensures Valid() && pins == old(pins) - {s} && blocks == old(blocks)
    {
      ghost var c0, d0 := cache.slots[..], cache.disk[..];
      assert PinOk(c0, pins, s) && SlotOk(c0, |d0|, cache.t, s);
      InView(c0, d0, cache.t, blocks, pins, s);
      cache.PutBlk(s);
      ShownAfter(c0, d0, blocks, pins, cache.slots[..], cache.disk[..], s, pins[s], cache.slots[s].buf);
      assert blocks[pins[s] := cache.slots[s].buf] == blocks;
      pins := pins - {s};
    }

    /** flushdisk: the file holds what the cache showed. */
    method Flush()
      requires Valid()
      modifies Parts()
      ensures Valid() && blocks == old(blocks) && pins == old(pins)
      ensures forall b: nat :: b in blocks ==> b < cache.disk.Length && cache.disk[b] == blocks[b]
    {
      ghost var c0, d0 := cache.slots[..], cache.disk[..];
      cache.FlushDisk();
      forall b: nat
        ensures ShownAt(cache.slots[..], cache.disk[..], blocks, b) && (b in blocks ==> cache.disk[b] == blocks[b])
      {
        assert ShownAt(c0, d0, blocks, b);
      }
    }
  }
}
