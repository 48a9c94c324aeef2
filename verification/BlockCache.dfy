/**
 The write-back block cache of fs/fsformat.c: sixteen slots over the disk image, replaced
 by least recent use. Its users see a flat disk.
 */
module BlockCache {
  import opened Options

  const SLOTS: nat := 16

  /** `used` is the time of the last getblk, or 0 for a slot that has held no block yet. */
  datatype Slot<Buf> = Slot(busy: bool, bno: nat, used: nat, buf: Buf, kind: nat)

  // ---------- The flat disk ----------

  ghost predicate Holds<Buf>(c: seq<Slot<Buf>>, i: int, b: nat) {
    0 <= i < |c| && c[i].bno == b
  }

  ghost predicate Cached<Buf>(c: seq<Slot<Buf>>, b: nat) {
    exists i :: Holds(c, i, b)
  }

  ghost function Where<Buf>(c: seq<Slot<Buf>>, b: nat): (i: int)
    requires Cached(c, b)
    ensures Holds(c, i, b)
  {
    var i :| Holds(c, i, b);
    i
  }

  /** The current contents of block `b`. */
  ghost function View<Buf>(c: seq<Slot<Buf>>, disk: seq<Buf>, b: nat): Buf
    requires b < |disk|
  {
    if Cached(c, b) then c[Where(c, b)].buf else disk[b]
  }

  /** Some caller of getblk has not yet given `b` back. */
  ghost predicate Held<Buf>(c: seq<Slot<Buf>>, b: nat) {
    exists i :: Holds(c, i, b) && c[i].busy
  }

  ghost predicate Idle<Buf>(c: seq<Slot<Buf>>, i: int) {
    0 <= i < |c| && !c[i].busy
  }

  // ---------- What every call keeps ----------

  /** Block 0 is never used, and stands for "no block" in slots that have not been filled. */
  ghost predicate Apart<Buf>(c: seq<Slot<Buf>>, i: int, j: int) {
    0 <= i < |c| && 0 <= j < |c| && i != j && c[i].bno == c[j].bno ==> c[i].bno == 0
  }

  ghost predicate SlotOk<Buf>(c: seq<Slot<Buf>>, n: nat, t: nat, i: int) {
    0 <= i < |c| ==> c[i].bno < n && c[i].used <= t && (c[i].used == 0 ==> c[i].bno == 0 && !c[i].busy)
  }

  ghost predicate Inv<Buf>(c: seq<Slot<Buf>>, disk: seq<Buf>, t: nat) {
    && |c| == SLOTS
    && (forall i, j :: Apart(c, i, j))
    && (forall i :: SlotOk(c, |disk|, t, i))
  }

  ghost predicate SeenAs<Buf>(c: seq<Slot<Buf>>, disk: seq<Buf>, c': seq<Slot<Buf>>, disk': seq<Buf>, a: nat, b: nat,
                              x: Buf)
    requires a < |disk| == |disk'|
  {
    View(c', disk', a) == if a == b then x else View(c, disk, a)
  }

  ghost predicate HeldAs<Buf>(c: seq<Slot<Buf>>, c': seq<Slot<Buf>>, a: nat, b: nat, held: bool) {
    Held(c', a) <==> if a == b then held else Held(c, a)
  }

  /** Every block from 1 up is seen as before, except that `b` is seen as `x`. */
  ghost predicate Changed<Buf>(c: seq<Slot<Buf>>, disk: seq<Buf>, c': seq<Slot<Buf>>, disk': seq<Buf>, b: nat, x: Buf) {
    |disk'| == |disk| && forall a :: 1 <= a < |disk| ==> SeenAs(c, disk, c', disk', a, b, x)
  }

  /** Every block from 1 up is held as before, except that `b` is held as told. */
  ghost predicate HeldAfter<Buf>(c: seq<Slot<Buf>>, disk: seq<Buf>, c': seq<Slot<Buf>>, b: nat, held: bool) {
    forall a :: 1 <= a < |disk| ==> HeldAs(c, c', a, b, held)
  }

  lemma WhereIs<Buf>(c: seq<Slot<Buf>>, disk: seq<Buf>, i: int)
    requires (forall k, j :: Apart(c, k, j)) && 0 <= i < |c| && 0 < c[i].bno < |disk|
    ensures View(c, disk, c[i].bno) == c[i].buf
    ensures Held(c, c[i].bno) <==> c[i].busy
  {
    var b := c[i].bno;
    assert Holds(c, i, b);
    assert Apart(c, i, Where(c, b));
    forall j | Holds(c, j, b) ensures j == i { assert Apart(c, i, j); }
  }

  /** Blocks that slot `i` concerns neither before nor after are seen and held as before. */
  lemma Elsewhere<Buf>(c: seq<Slot<Buf>>, disk: seq<Buf>, i: int, s: Slot<Buf>, a: nat)
    requires (forall k, j :: Apart(c, k, j)) && 0 <= i < |c| && 0 < a < |disk| && c[i].bno != a && s.bno != a
    ensures View(c[i := s], disk, a) == View(c, disk, a)
    ensures Held(c[i := s], a) <==> Held(c, a)
  {
    var c' := c[i := s];
    forall k ensures Holds(c', k, a) <==> Holds(c, k, a) {}
    if Cached(c, a) {
      assert Holds(c', Where(c, a), a);
    }
    if Cached(c', a) {
      assert Holds(c, Where(c', a), a);
      assert Apart(c, Where(c, a), Where(c', a));
    }
    if Held(c, a) {
      var k :| Holds(c, k, a) && c[k].busy;
      assert Holds(c', k, a) && c'[k].busy;
    }
  }

  /** A slot gets new contents for the block it holds, or is marked busy or idle. */
  lemma Refill<Buf>(c: seq<Slot<Buf>>, disk: seq<Buf>, t: nat, i: int, s: Slot<Buf>, t': nat)
    requires Inv(c, disk, t) && 0 <= i < |c| && s.bno == c[i].bno && t <= t' && s.used <= t'
      && (s.used == 0 ==> s.bno == 0 && !s.busy)
    ensures Inv(c[i := s], disk, t')
    ensures Changed(c, disk, c[i := s], disk, s.bno, s.buf) && HeldAfter(c, disk, c[i := s], s.bno, s.busy)
  {
    var c' := c[i := s];
    forall k, j ensures Apart(c', k, j) { assert Apart(c, k, j); }
    forall k ensures SlotOk(c', |disk|, t', k) { assert SlotOk(c, |disk|, t, k) && SlotOk(c, |disk|, t, i); }
    forall a | 1 <= a < |disk| ensures SeenAs(c, disk, c', disk, a, s.bno, s.buf) && HeldAs(c, c', a, s.bno, s.busy) {
      if a == s.bno {
        WhereIs(c', disk, i);
      } else {
        Elsewhere(c, disk, i, s, a);
      }
    }
  }

  lemma ViewOfDisk<Buf>(c: seq<Slot<Buf>>, disk: seq<Buf>, disk': seq<Buf>, a: nat)
    requires a < |disk| == |disk'| && disk'[a] == disk[a]
    ensures View(c, disk', a) == View(c, disk, a)
  {
  }

  /** Idle slot `i` is written back and then holds block `b`, which no slot held before. */
  lemma Replace<Buf>(c: seq<Slot<Buf>>, disk: seq<Buf>, t: nat, i: int, s: Slot<Buf>, disk': seq<Buf>, t': nat)
    requires
      && Inv(c, disk, t) && Idle(c, i) && c[i].bno < |disk| && s.bno < |disk| && !Cached(c, s.bno) && t <= t'
      && 0 < s.used <= t'
    requires disk' == if c[i].used > 0 then disk[c[i].bno := c[i].buf] else disk
    ensures Inv(c[i := s], disk', t')
    ensures Changed(c, disk, c[i := s], disk', s.bno, s.buf) && HeldAfter(c, disk, c[i := s], s.bno, s.busy)
  {
    var c' := c[i := s];
    forall k, j ensures Apart(c', k, j) { assert Apart(c, k, j) && !Holds(c, k, s.bno) && !Holds(c, j, s.bno); }
    forall k ensures SlotOk(c', |disk'|, t', k) { assert SlotOk(c, |disk|, t, k); }
    assert SlotOk(c, |disk|, t, i);
    forall a | 1 <= a < |disk| ensures SeenAs(c, disk, c', disk', a, s.bno, s.buf) && HeldAs(c, c', a, s.bno, s.busy) {
      if a == s.bno {
        WhereIs(c', disk', i);
      } else if a == c[i].bno {
        WhereIs(c, disk, i);
        forall k ensures !Holds(c', k, a) { assert Apart(c, i, k); }
      } else {
        Elsewhere(c, disk, i, s, a);
        ViewOfDisk(c', disk, disk', a);
      }
    }
  }

  /** The slot that getblk replaces: idle, and no idle slot was used longer ago. */
  ghost predicate Victim<Buf>(c: seq<Slot<Buf>>, k: int) {
    Idle(c, k) && forall i :: Idle(c, i) ==> c[k].used <= c[i].used
  }

  /** The scan of getblk: the slot that holds `bno`, or else the idle slot used least recently, or else -1. */
  method Scan<Buf>(c: seq<Slot<Buf>>, bno: nat) returns (hit: bool, k: int)
    ensures hit ==> Holds(c, k, bno)
    ensures !hit ==> !Cached(c, bno) && (if k == -1 then forall i :: !Idle(c, i) else Victim(c, k))
  {
    hit, k := false, -1;
    var i := 0;
    while i < |c|
      invariant i <= |c| && (k == -1 || (0 <= k < i && !c[k].busy))
      invariant forall j :: 0 <= j < i ==> !Holds(c, j, bno)
      invariant forall j :: 0 <= j < i && Idle(c, j) ==> k != -1 && c[k].used <= c[j].used
    {
      if c[i].bno == bno {
        return true, i;
      }
      if !c[i].busy && (k == -1 || c[i].used < c[k].used) {
        k := i;
      }
      i := i + 1;
    }
  }

  /** Block `b` after the first `i` slots have been written back. */
  ghost predicate Flushed<Buf>(c: seq<Slot<Buf>>, disk0: seq<Buf>, disk: seq<Buf>, i: int, b: nat) {
    && |disk| == |disk0|
    && (1 <= b < |disk| ==> disk[b] == if Cached(c, b) && Where(c, b) < i then c[Where(c, b)].buf else disk0[b])
  }

  lemma FlushOne<Buf>(c: seq<Slot<Buf>>, disk0: seq<Buf>, disk: seq<Buf>, t: nat, i: int, b: nat)
    requires Inv(c, disk0, t) && 0 <= i < |c| && Flushed(c, disk0, disk, i, b) && c[i].bno < |disk|
    ensures Flushed(c, disk0, if c[i].used > 0 then disk[c[i].bno := c[i].buf] else disk, i + 1, b)
  {
    assert SlotOk(c, |disk0|, t, i);
    if 1 <= b == c[i].bno {
      assert Holds(c, i, b);
      assert Apart(c, i, Where(c, b));
    }
  }

  lemma HitMeans<Buf>(c: seq<Slot<Buf>>, disk: seq<Buf>, k: int)
    requires (forall i, j :: Apart(c, i, j)) && 0 <= k < |c| && c[k].bno < |disk|
    ensures c[k].bno > 0 ==> View(c, disk, c[k].bno) == c[k].buf && (Held(c, c[k].bno) <==> c[k].busy)
  {
    if c[k].bno > 0 {
      WhereIs(c, disk, k);
    }
  }

  class Cache<Buf> {
    const slots: array<Slot<Buf>>
    const disk: array<Buf>
    var t: nat

    ghost predicate Valid()
      reads this, slots, disk
    {
      slots.Length == SLOTS && (slots as object) != disk && Inv(slots[..], disk[..], t)
    }

    /** The cache before the first getblk, over a disk image `file`. */
    constructor (file: array<Buf>, zero: Buf)
      requires file.Length > 0
      ensures Valid() && disk == file && fresh(slots) && forall i :: 0 <= i < SLOTS ==> !slots[i].busy
      ensures forall b :: 1 <= b < file.Length ==> View(slots[..], disk[..], b) == file[b] && !Held(slots[..], b)
    {
      slots := new Slot<Buf>[SLOTS](_ => Slot(false, 0, 0, zero, 0));
      disk := file;
      t := 1;
      new;
      forall i ensures SlotOk(slots[..], disk.Length, t, i) {}
      forall i, j ensures Apart(slots[..], i, j) {}
      forall b | 1 <= b < file.Length ensures View(slots[..], disk[..], b) == file[b] && !Held(slots[..], b) {
        forall i ensures !Holds(slots[..], i, b) {}
      }
    }

    /**
     getblk: slot `k` is the caller's until putblk. `clr` is the zeroed buffer when it is to be cleared.
     Not `ok` stands for the calls of abort.
     */
    method GetBlk(bno: nat, clr: Option<Buf>, kind: nat) returns (ok: bool, k: int)
      requires Valid()
      modifies this, slots, disk
      ensures bno >= 1 ==>
        (ok <==> bno < disk.Length && !Held(old(slots[..]), bno) && exists i :: Idle(old(slots[..]), i))
      ensures ok ==> Valid() && bno < disk.Length && Holds(slots[..], k, bno) && slots[k].busy
      ensures ok && bno >= 1 ==>
        slots[k].buf == if clr.Some? then clr.value else View(old(slots[..]), old(disk[..]), bno)
      ensures ok ==> Changed(old(slots[..]), old(disk[..]), slots[..], disk[..], bno, slots[k].buf)
      ensures ok ==> HeldAfter(old(slots[..]), old(disk[..]), slots[..], bno, true)
      ensures ok ==> Idle(old(slots[..]), k)
      ensures ok && !Cached(old(slots[..]), bno) ==> Victim(old(slots[..]), k)
      ensures ok ==> forall i :: 0 <= i < SLOTS && i != k ==> slots[i] == old(slots[i])
      ensures !ok ==> disk[..] == old(disk[..])
    {
      ghost var c0, d0 := slots[..], disk[..];
      if bno >= disk.Length {
        return false, -1;
      }
      var hit;
      hit, k := Scan(slots[..], bno);
      if !hit && k == -1 {
        return false, -1;
      }
      var b := slots[k];
      assert SlotOk(c0, |d0|, t, k);
      if hit {
        HitMeans(c0, d0, k);
      } else {
        if b.used > 0 {
          disk[b.bno] := b.buf;
          assert disk[..] == d0[b.bno := b.buf];
        }
        assert !Holds(c0, k, bno);
        b := b.(bno := bno, buf := disk[bno]);
      }
      t := t + 1;
      b := b.(buf := if clr.Some? then clr.value else b.buf, used := t);
      if b.busy {
        return false, k;
      }
      assert Idle(c0, k);
      slots[k] := b.(kind := kind, busy := true);
      assert slots[..] == c0[k := slots[k]];
      if hit {
        Refill(c0, d0, t - 1, k, slots[k], t);
      } else {
        Replace(c0, d0, t - 1, k, slots[k], disk[..], t);
      }
      ok := true;
    }

    /** putblk */
    method PutBlk(k: int)
      requires Valid() && 0 <= k < SLOTS && slots[k].busy
      modifies slots
      ensures Valid() && slots[k] == old(slots[k]).(busy := false)
      ensures forall i :: 0 <= i < SLOTS && i != k ==> slots[i] == old(slots[i])
      ensures Changed(old(slots[..]), disk[..], slots[..], disk[..], slots[k].bno, slots[k].buf)
      ensures HeldAfter(old(slots[..]), disk[..], slots[..], slots[k].bno, false)
    {
      ghost var c0, d := slots[..], disk[..];
      assert SlotOk(c0, |d|, t, k);
      slots[k] := slots[k].(busy := false);
      assert slots[..] == c0[k := slots[k]];
      Refill(c0, d, t, k, slots[k], t);
    }

    /** The holder of a slot writes to its buffer. */
    method Write(k: int, buf: Buf)
      requires Valid() && 0 <= k < SLOTS && slots[k].busy
      modifies slots
      ensures Valid() && slots[k] == old(slots[k]).(buf := buf)
      ensures forall i :: 0 <= i < SLOTS && i != k ==> slots[i] == old(slots[i])
      ensures Changed(old(slots[..]), disk[..], slots[..], disk[..], slots[k].bno, buf)
      ensures HeldAfter(old(slots[..]), disk[..], slots[..], slots[k].bno, true)
    {
      ghost var c0, d := slots[..], disk[..];
      assert SlotOk(c0, |d|, t, k);
      slots[k] := slots[k].(buf := buf);
      assert slots[..] == c0[k := slots[k]];
      Refill(c0, d, t, k, slots[k], t);
    }

    /** flushdisk: the image itself then shows what the cache showed. */
    method FlushDisk()
      requires Valid()
      modifies disk
      ensures Valid()
      ensures forall b :: 1 <= b < disk.Length ==> disk[b] == View(old(slots[..]), old(disk[..]), b)
      ensures forall b :: 1 <= b < disk.Length ==>
        View(slots[..], disk[..], b) == View(old(slots[..]), old(disk[..]), b)
    {
      ghost var c, d0 := slots[..], disk[..];
      var i := 0;
      while i < SLOTS
        invariant 0 <= i <= SLOTS && slots[..] == c
        invariant forall b :: Flushed(c, d0, disk[..], i, b)
      {
        assert SlotOk(c, |d0|, t, i);
        ghost var d := disk[..];
        if slots[i].used > 0 {
          disk[slots[i].bno] := slots[i].buf;
          assert disk[..] == d[c[i].bno := c[i].buf];
        }
        ghost var d' := disk[..];
        i := i + 1;
        forall b ensures Flushed(c, d0, d', i, b) { FlushOne(c, d0, d, t, i - 1, b); }
      }
      forall b | 1 <= b < disk.Length ensures disk[b] == View(c, d0, b) == View(c, disk[..], b) {
        assert Flushed(c, d0, disk[..], SLOTS, b);
      }
    }
  }
}
