/** The routines of fs/fsformat.c that write a directory tree into an image, on the block cache. */
module ImageBuilder {
  import opened Options
  import opened DiskImage
  import opened ImageStore
  import opened ImageTree
  import BlockCache

  /** A pointer to a file record: into the super block or into a held directory block. */
  datatype FileRef = InSuper | InSlot(slot: nat, i: nat)

  /** `ref` points to the record at `l`. */
  ghost predicate RefOk(ref: FileRef, l: Loc, pins: map<nat, nat>) {
    if l.Root? then ref.InSuper? else ref.InSlot? && ref.slot in pins && pins[ref.slot] == l.bno && ref.i == l.i
  }

  /** A held block is a block of some file other than `l`. */
  ghost predicate PinClear(pins: map<nat, nat>, own: map<nat, Owner>, l: Loc, s: nat) {
    s in pins ==> pins[s] in own && own[pins[s]].Blk? && own[pins[s]].file != l
  }

  ghost predicate PinsClear(pins: map<nat, nat>, own: map<nat, Owner>, l: Loc) {
    forall s: nat :: PinClear(pins, own, l, s)
  }

  ghost predicate GrownAt(own: map<nat, Owner>, own': map<nat, Owner>, b: nat) {
    b in own ==> b in own' && own'[b] == own[b]
  }

  /** Blocks keep their owners. */
  ghost predicate Grown(own: map<nat, Owner>, own': map<nat, Owner>) {
    forall b: nat :: GrownAt(own, own', b)
  }

  lemma GrownOn(own: map<nat, Owner>, own1: map<nat, Owner>, own2: map<nat, Owner>)
    requires Grown(own, own1) && Grown(own1, own2)
    ensures Grown(own, own2)
  {
    forall b: nat ensures GrownAt(own, own2, b) { assert GrownAt(own, own1, b) && GrownAt(own1, own2, b); }
  }

  lemma StillClear(pins: map<nat, nat>, own: map<nat, Owner>, own': map<nat, Owner>, l: Loc)
    requires PinsClear(pins, own, l) && Grown(own, own')
    ensures PinsClear(pins, own', l)
  {
    forall s: nat ensures PinClear(pins, own', l, s) {
      assert PinClear(pins, own, l, s);
      if s in pins { assert GrownAt(own, own', pins[s]); }
    }
  }

  /** Blocks that are new, hold a table or belong to `l` are not held. */
  lemma NotHeld(pins: map<nat, nat>, g: Ghost, l: Loc, b: nat)
    requires PinsClear(pins, g.own, l) && (b in g.own && g.own[b].Blk? ==> g.own[b].file == l)
    ensures b !in pins.Values
  {
    forall s: nat | s in pins ensures pins[s] != b { assert PinClear(pins, g.own, l, s); }
  }

  /** The holders of the record's block and of all others may go on to write the new file at `e`. */
  lemma ClearBelow(pins: map<nat, nat>, d: Disk, g: Ghost, l: Loc, s: nat, e: Loc, g': Ghost)
    requires PinsClear(pins, g.own, l) && (forall b :: OwnOk(d, g, b)) && l in g.ino && e !in g.ino && e.Entry?
    requires Grown(g.own, g'.own) && e.bno in g'.own && g'.own[e.bno].Blk? && g'.own[e.bno].file == l
    ensures PinsClear(pins[s := e.bno], g'.own, e)
  {
    var pins' := pins[s := e.bno];
    forall x: nat ensures PinClear(pins', g'.own, e, x) {
      assert PinClear(pins, g.own, l, x);
      if x in pins { assert OwnOk(d, g, pins[x]) && GrownAt(g.own, g'.own, pins[x]); }
    }
  }

  /** The scan of allocfile. */
  method FirstBlank(files: seq<File>) returns (i: nat)
    ensures i <= |files| && (i < |files| ==> files[i].name == "") && forall j :: 0 <= j < i ==> files[j].name != ""
  {
    i := 0;
    while i < |files| && files[i].name != ""
      invariant i <= |files| && forall j :: 0 <= j < i ==> files[j].name != ""
    {
      i := i + 1;
    }
  }

  /** What storeblk makes of the image. */
  ghost predicate Stored(d: Disk, l: Loc, b: nat, k: nat, d': Disk) {
    && RecIn(d, l) && CanStore(d, Rec(d, l), k) && RecIn(StoredDisk(d, Rec(d, l), b, k), l)
    && d' == SetRec(StoredDisk(d, Rec(d, l), b, k), l, StoredFile(d, Rec(d, l), b, k))
  }

  lemma StoredNewTable(d: Disk, l: Loc, b: nat, k: nat)
    requires RecIn(d, l) && CanStore(d, Rec(d, l), k) && k >= NDIRECT && Rec(d, l).indirect == 0
      && (l.Entry? ==> l.bno != d.nextb)
    ensures var d1 := Taken(d, BlankTable());
      && RecIn(d1, l)
      && var d2 := SetRec(d1, l, Rec(d, l).(indirect := d.nextb));
      && d.nextb in d2.blocks && d2.blocks[d.nextb] == BlankTable()
      && Stored(d, l, b, k, d2.(blocks := d2.blocks[d.nextb := Table(BlankTable().ents[k := b])]))
  {
  }

  /**
   Before storeblk: the block `d.nextb` with contents `c` is held in slot `s`; the next block and
   the file's table are not held.
   */
  lemma StoreReady(pins: map<nat, nat>, d: Disk, g: Ghost, l: Loc, c: Content, k: nat, s: nat)
    requires s in pins && pins[s] == d.nextb && PinsClear(pins - {s}, g.own, l) && Inv(d, g) && l in g.ino
      && k == |g.ino[l].blks|
    ensures var d1 := Taken(d, c);
      && d1.nextb > 1 && d1.nextb !in pins.Values && d1.nextb !in d1.blocks
      && RecIn(d1, l) && RecIn(d, l) && Rec(d1, l) == Rec(d, l) && |Rec(d1, l).direct| == NDIRECT
      && Rec(d1, l).indirect !in pins.Values && (k < NINDIRECT ==> CanStore(d1, Rec(d1, l), k))
      && (Rec(d1, l).indirect == 0 <==> k <= NDIRECT)
  {
    AppendDefined(d, g, l, c, k);
    assert OwnOk(d, g, d.nextb + 1) && OwnOk(d, g, 0);
    NotHeld(pins - {s}, g, l, d.nextb + 1);
    NotHeld(pins - {s}, g, l, Rec(d, l).indirect);
    assert forall x :: x in pins && x != s ==> x in pins - {s} && (pins - {s})[x] == pins[x];
  }

  /** After storeblk, and once the size has grown, the invariant holds again. */
  lemma StoreDone(d: Disk, g: Ghost, l: Loc, c: Content, k: nat, grow: nat, chunk: seq<int>, d2: Disk, d3: Disk)
    requires Inv(d, g) && Fits(g, l, c, chunk, grow) && k == |g.ino[l].blks| && Stored(Taken(d, c), l, d.nextb, k, d2)
    requires RecIn(d, l) && Rec(Taken(d, c), l) == Rec(d, l)
    requires RecIn(d2, l) && d3 == SetRec(d2, l, Rec(d2, l).(size := Rec(d2, l).size + grow))
    ensures Inv(d3, Appended(d, g, l, chunk)) && d3.nextb == d.nextb + (if k == NDIRECT then 2 else 1)
  {
    AppendDefined(d, g, l, c, k);
    var d1, f := Taken(d, c), Rec(d, l);
    SetRecAgain(StoredDisk(d1, f, d.nextb, k), l, StoredFile(d1, f, d.nextb, k), AppendedFile(d, l, c, k, grow));
    AppendKeeps(d, g, l, c, k, chunk, grow);
    AppendNew(d, g, l, c, k, grow);
  }

  /** The last block of a directory and its table are not held by those who write into it. */
  lemma LastUnheld(pins: map<nat, nat>, d: Disk, g: Ghost, l: Loc)
    requires Inv(d, g) && l in g.ino && g.ino[l].isDir && |g.ino[l].blks| > 0 && PinsClear(pins, g.own, l)
    ensures var nblk := |g.ino[l].blks| - 1; var b := g.ino[l].blks[nblk];
      && RecIn(d, l) && BlockNo(d, Rec(d, l), nblk) == Some(b) && b in d.blocks && b !in pins.Values
      && (nblk >= NDIRECT ==> Rec(d, l).indirect !in pins.Values && Rec(d, l).indirect != b)
  {
    var nblk := |g.ino[l].blks| - 1;
    var b := g.ino[l].blks[nblk];
    assert InoOk(d, g, l) && BlkOk(d, g, l, nblk);
    NotHeld(pins, g, l, b);
    if nblk >= NDIRECT {
      NotHeld(pins, g, l, Rec(d, l).indirect);
    }
  }

  /** The first unused place of the directory is place `i` of block `b`. */
  ghost predicate IsFree(g: Ghost, l: Loc, b: nat, i: nat) {
    l in g.ino && |g.ino[l].kids| < BLKFILES * |g.ino[l].blks| && FreePlace(g, l) == Entry(b, i)
  }

  /** The first blank place of the last block is the place after the entries. */
  lemma BlankIsFree(d: Disk, g: Ghost, l: Loc, i: nat)
    requires Inv(d, g) && l in g.ino && g.ino[l].isDir && |g.ino[l].blks| > 0
    requires var b := g.ino[l].blks[|g.ino[l].blks| - 1];
      && b in d.blocks && d.blocks[b].Dir? && |d.blocks[b].files| == BLKFILES && i <= BLKFILES
      && (i < BLKFILES ==> d.blocks[b].files[i].name == "") && forall j :: 0 <= j < i ==>
        d.blocks[b].files[j].name != ""
    ensures if i < BLKFILES then IsFree(g, l, g.ino[l].blks[|g.ino[l].blks| - 1], i)
      else |g.ino[l].kids| == BLKFILES * |g.ino[l].blks|
  {
    LastBlock(d, g, l);
    assert InoOk(d, g, l);
    var k, m := |g.ino[l].blks| - 1, |g.ino[l].kids|;
    if i > 0 {
      assert d.blocks[g.ino[l].blks[k]].files[i - 1].name != "" && BLKFILES * k + (i - 1) < m;
    }
    if i < BLKFILES {
      assert m == BLKFILES * k + i;
    }
  }

  /** What allocfile's scan leaves: the first unused place, whose block is held, or the directory is full. */
  ghost predicate Scanned(g: Ghost, l: Loc, pins: map<nat, nat>, found: bool, s: nat, i: nat, pins': map<nat, nat>) {
    if found then s in pins' && IsFree(g, l, pins'[s], i) && s !in pins && pins' == pins[s := pins'[s]]
    else l in g.ino && |g.ino[l].kids| == BLKFILES * |g.ino[l].blks| && pins' == pins
  }

  /** The directory `l` may have one more block, and nothing else has changed. */
  ghost predicate Widened(g: Ghost, g': Ghost, l: Loc) {
    l in g.ino && l in g'.ino && g'.ino == g.ino[l := g.ino[l].(blks := g'.ino[l].blks)] && Grown(g.own, g'.own)
  }

  lemma SameIsWidened(g: Ghost, l: Loc)
    requires l in g.ino
    ensures Widened(g, g, l)
  {
    assert g.ino[l := g.ino[l]] == g.ino;
  }

  /** A new block of a full directory has the first unused place. */
  lemma BlockWidens(d: Disk, g: Ghost, l: Loc)
    requires Inv(d, g) && l in g.ino && |g.ino[l].kids| == BLKFILES * |g.ino[l].blks|
    ensures var g' := Appended(d, g, l, []);
      Widened(g, g', l) && IsFree(g', l, d.nextb, 0) && |g'.ino[l].blks| == |g.ino[l].blks| + 1
  {
    assert OwnOk(d, g, d.nextb) && OwnOk(d, g, d.nextb + 1);
    assert g.ino[l].bytes + [] == g.ino[l].bytes;
    forall b: nat ensures GrownAt(g.own, Appended(d, g, l, []).own, b) {}
  }

  /** The new entry is added to its directory, and the holders may go on to write what is below it. */
  lemma NameAdds(d0: Disk, g0: Ghost, pins: map<nat, nat>, d: Disk, g: Ghost, l: Loc, s: nat, name: string, isDir: bool)
    requires Inv(d0, g0) && PinsClear(pins, g0.own, l) && Inv(d, g) && Widened(g0, g, l) && g.ino[l].isDir
      && NameFits(name)
    requires |g.ino[l].kids| < BLKFILES * |g.ino[l].blks|
    ensures var e := FreePlace(g, l);
      && e !in g.ino && RecIn(d, e)
      && Inv(SetRec(d, e, BlankFile().(name := name, isDir := isDir)), Named(g, l, e, name, isDir))
      && var g' := Named(g, l, e, name, isDir);
      && Added(g0.ino, g'.ino, l, e) && g'.ino[e] == Ino(name, isDir, false, [], [], [])
      && g'.ino[l].blks == g.ino[l].blks
      && Grown(g0.own, g'.own) && PinsClear(pins[s := e.bno], g'.own, e)
  {
    NameKeeps(d, g, l, name, isDir);
    PlaceIsFree(d, g, l);
    var e := FreePlace(g, l);
    ClearBelow(pins, d0, g0, l, s, e, Named(g, l, e, name, isDir));
  }

  /** A block of a file: what has been read, and zeros. */
  function Padded(chunk: seq<int>): Content
    requires |chunk| <= BLKSIZE
  {
    Raw(chunk + seq(BLKSIZE - |chunk|, _ => 0))
  }

  /** A round of writefile's loop, which appends the next `chunk` of the file, or finds that there is none. */
  lemma Round(ino1: map<Loc, Ino>, d: Disk, g: Ghost, e: Loc, name: string, bytes: seq<int>, k: nat, chunk: seq<int>)
    requires Inv(d, g) && Writing(ino1, g.ino, e, name, bytes, k)
    requires chunk == bytes[BLKSIZE * k..][..if |bytes| - BLKSIZE * k < BLKSIZE then |bytes| - BLKSIZE * k else BLKSIZE]
    ensures chunk != [] && k < NINDIRECT ==> Fits(g, e, Padded(chunk), chunk, 0)
    ensures var g' := if chunk == [] then g else Appended(d, g, e, chunk);
      && Grown(g.own, g'.own) && e in g'.ino
      && (|chunk| < BLKSIZE ==> g'.ino == ino1[e := Ino(name, false, false, g'.ino[e].blks, bytes, [])])
      && (|chunk| == BLKSIZE ==> Writing(ino1, g'.ino, e, name, bytes, k + 1))
  {
    assert OwnOk(d, g, d.nextb) && OwnOk(d, g, d.nextb + 1);
    NextChunk(g.ino[e].bytes, bytes, k, chunk);
    assert chunk == [] ==> g.ino[e].bytes + chunk == g.ino[e].bytes;
  }

  class Builder {
    const store: Store
    const nblocks: nat
    const first: nat
    var nextb: nat
    var root: File
    /** The image that is being built. */
    ghost var disk: Disk
    ghost var g: Ghost

    /** The blocks below `first`, which are left alone. */
    ghost const base: map<nat, Content>

    ghost function Parts(): set<object> {
      {this} + store.Parts()
    }

    /** Block `b` is in `blocks` as it is in `part` or, failing that, in `base`. */
    ghost predicate CoveredAt(part: map<nat, Content>, blocks: map<nat, Content>, b: nat) {
      && (b in part ==> b in blocks && blocks[b] == part[b])
      && (b in base ==> b < first && (b !in part ==> b in blocks && blocks[b] == base[b]))
    }

    /** The fields and the blocks that the cache shows are those of `disk`. */
    ghost predicate Linked()
      reads Parts()
    {
      && store.Valid() && store.cache.disk.Length == nblocks
      && disk.nextb == nextb && disk.root == root && disk.first == first && 0 < first
      && forall b :: CoveredAt(disk.blocks, store.blocks, b)
    }

    ghost predicate Valid()
      reads Parts()
    {
      Linked() && Inv(disk, g) && nextb <= nblocks
    }

    constructor (store: Store, nblocks: nat, first: nat)
      requires store.Valid() && store.cache.disk.Length == nblocks && 0 < first <= nblocks
      ensures Valid() && this.store == store && this.nblocks == nblocks && this.first == first && nextb == first
      ensures g == Ghost(map[], map[Root := Ino("/", true, false, [], [], [])])
      ensures forall b: nat :: b in base <==> b < first && b in store.blocks
      ensures forall b: nat :: b in base ==> base[b] == store.blocks[b]
    {
      this.store := store;
      this.nblocks := nblocks;
      this.first := first;
      nextb := first;
      root := BlankFile().(name := "/", isDir := true);
      disk := Disk(map[], BlankFile().(name := "/", isDir := true), first, first);
      g := Ghost(map[], map[Root := Ino("/", true, false, [], [], [])]);
      base := map b | b in store.blocks && b < first :: store.blocks[b];
    }

    method Load(ref: FileRef, ghost l: Loc) returns (f: File)
      requires Linked() && RefOk(ref, l, store.pins) && RecIn(disk, l)
      ensures f == Rec(disk, l)
    {
      if ref.InSuper? {
        f := root;
      } else {
        assert CoveredAt(disk.blocks, store.blocks, l.bno);
        f := store.At(ref.slot).files[ref.i];
      }
    }

    method Save(ref: FileRef, ghost l: Loc, f: File)
      requires Linked() && RefOk(ref, l, store.pins) && RecIn(disk, l)
      modifies Parts()
      ensures Linked() && disk == SetRec(old(disk), l, f)
      ensures store.pins == old(store.pins) && nextb == old(nextb) && g == old(g)
    {
      ghost var was := store.blocks;
      if ref.InSuper? {
        root := f;
      } else {
        assert CoveredAt(disk.blocks, store.blocks, l.bno);
        store.Write(ref.slot, Dir(store.At(ref.slot).files[ref.i := f]));
      }
      ghost var d0 := disk;
      disk := SetRec(disk, l, f);
      forall b ensures CoveredAt(disk.blocks, store.blocks, b) { assert CoveredAt(d0.blocks, was, b); }
    }

    /** getblk of the next block, cleared, and the step of the counter. */
    method Take(c: Content) returns (ok: bool, s: nat)
      requires Linked() && nextb >= 1 && nextb !in store.pins.Values && nextb !in disk.blocks
      modifies Parts()
      ensures ok <==> old(nextb) < nblocks && |old(store.pins)| < BlockCache.SLOTS
      ensures ok ==> Linked() && disk == Taken(old(disk), c) && g == old(g)
      ensures ok ==> s !in old(store.pins) && store.pins == old(store.pins)[s := old(nextb)]
    {
      ghost var was, d0 := store.blocks, disk;
      ok, s := store.HoldClear(nextb, c);
      if ok {
        nextb := nextb + 1;
        disk := Taken(disk, c);
        forall b ensures CoveredAt(disk.blocks, store.blocks, b) { assert CoveredAt(d0.blocks, was, b); }
      }
    }

    /** A store to entry `k` of the held table `t`, which is then released. */
    method SetEntry(s: nat, ghost t: nat, k: nat, b: nat)
      requires Linked() && s in store.pins && store.pins[s] == t
      requires t in disk.blocks && disk.blocks[t].Table? && k < |disk.blocks[t].ents|
      modifies Parts()
      ensures Linked() && disk == old(disk).(blocks := old(disk).blocks[t := Table(old(disk).blocks[t].ents[k := b])])
      ensures store.pins == old(store.pins) - {s} && nextb == old(nextb) && root == old(root) && g == old(g)
    {
      ghost var was, d0 := store.blocks, disk;
      assert CoveredAt(disk.blocks, store.blocks, t);
      store.Write(s, Table(store.At(s).ents[k := b]));
      store.Put(s);
      disk := disk.(blocks := disk.blocks[t := Table(disk.blocks[t].ents[k := b])]);
      forall x ensures CoveredAt(disk.blocks, store.blocks, x) { assert CoveredAt(d0.blocks, was, x); }
    }

    /** The branch of storeblk that takes an indirect block. */
    method StoreInNewTable(ref: FileRef, ghost l: Loc, f: File, b: nat, k: nat) returns (ok: bool)
      requires Linked() && RefOk(ref, l, store.pins) && RecIn(disk, l) && f == Rec(disk, l)
      requires NDIRECT <= k < NINDIRECT && f.indirect == 0 && CanStore(disk, f, k)
      requires nextb >= 1 && nextb !in store.pins.Values && nextb !in disk.blocks
      modifies Parts()
      ensures ok <==> |old(store.pins)| < BlockCache.SLOTS && old(nextb) < nblocks
      ensures ok ==> Linked() && store.pins == old(store.pins) && g == old(g) && Stored(old(disk), l, b, k, disk)
    {
      ghost var d0, p0 := disk, store.pins;
      var s;
      var t := nextb;
      ok, s := Take(BlankTable());
      if ok {
        Save(ref, l, f.(indirect := t));
        SetEntry(s, t, k, b);
        assert p0[s := t] - {s} == p0;
        StoredNewTable(d0, l, b, k);
      }
    }

    /** The branch of storeblk that uses the indirect block. */
    method StoreInTable(ghost l: Loc, f: File, b: nat, k: nat) returns (ok: bool)
      requires Linked() && RecIn(disk, l) && f == Rec(disk, l)
      requires NDIRECT <= k < NINDIRECT && f.indirect != 0 && CanStore(disk, f, k) && f.indirect !in store.pins.Values
      modifies Parts()
      ensures ok <==> |old(store.pins)| < BlockCache.SLOTS
      ensures ok ==> Linked() && store.pins == old(store.pins) && g == old(g) && Stored(old(disk), l, b, k, disk)
    {
      ghost var d0, p0 := disk, store.pins;
      assert CoveredAt(disk.blocks, store.blocks, f.indirect);
      store.InDisk(f.indirect);
      var s;
      ok, s := store.Hold(f.indirect);
      if ok {
        SetEntry(s, f.indirect, k, b);
        assert p0[s := f.indirect] - {s} == p0;
        SetRecAgain(disk, l, f, f);
      }
    }

    /** storeblk; not `ok` stands for the calls of abort. */
    method StoreBlk(ref: FileRef, ghost l: Loc, b: nat, k: nat) returns (ok: bool)
      requires Linked() && RefOk(ref, l, store.pins) && RecIn(disk, l) && |Rec(disk, l).direct| == NDIRECT
      requires k < NINDIRECT ==> CanStore(disk, Rec(disk, l), k)
      requires nextb >= 1 && nextb !in store.pins.Values && nextb !in disk.blocks
        && Rec(disk, l).indirect !in store.pins.Values
      modifies Parts()
      ensures ok <==>
        && k < NINDIRECT
        && (k >= NDIRECT ==>
          |old(store.pins)| < BlockCache.SLOTS && (old(Rec(disk, l)).indirect == 0 ==> old(nextb) < nblocks))
      ensures ok ==> Linked() && store.pins == old(store.pins) && g == old(g) && Stored(old(disk), l, b, k, disk)
    {
      var f := Load(ref, l);
      if k < NDIRECT {
        Save(ref, l, f.(direct := f.direct[k := b]));
        ok := true;
      } else if k < NINDIRECT {
        if f.indirect == 0 {
          ok := StoreInNewTable(ref, l, f, b, k);
        } else {
          ok := StoreInTable(l, f, b, k);
        }
      } else {
        ok := false;
      }
    }

    method GrowSize(ref: FileRef, ghost l: Loc, grow: nat)
      requires Linked() && RefOk(ref, l, store.pins) && RecIn(disk, l)
      modifies Parts()
      ensures Linked() && disk == SetRec(old(disk), l, old(Rec(disk, l)).(size := old(Rec(disk, l)).size + grow))
      ensures store.pins == old(store.pins) && nextb == old(nextb) && g == old(g)
    {
      var f := Load(ref, l);
      Save(ref, l, f.(size := f.size + grow));
    }

    /** storeblk of the block that has just been taken, and the growth of a directory's size. */
    method Extend(ref: FileRef, ghost l: Loc, ghost d0: Disk, c: Content, sb: nat, k: nat, grow: nat,
                  ghost chunk: seq<int>)
      returns (ok: bool)
      requires Linked() && disk == Taken(d0, c) && Inv(d0, g) && nextb <= nblocks
      requires l in g.ino && k == |g.ino[l].blks| && (k < NINDIRECT ==> Fits(g, l, c, chunk, grow))
      requires sb in store.pins && store.pins[sb] == d0.nextb && PinsClear(store.pins - {sb}, g.own, l)
      requires RefOk(ref, l, store.pins)
      modifies Parts()
      ensures ok <==>
        k < NINDIRECT && (k >= NDIRECT ==> |old(store.pins)| < BlockCache.SLOTS)
          && (k == NDIRECT ==> old(nextb) < nblocks)
      ensures ok ==> Valid() && store.pins == old(store.pins) && g == Appended(d0, old(g), l, chunk)
      ensures ok ==> nextb == old(nextb) + if k == NDIRECT then 1 else 0
    {
      StoreReady(store.pins, d0, g, l, c, k, sb);
      ok := StoreBlk(ref, l, nextb - 1, k);
      if ok {
        ghost var d2 := disk;
        assert RecIn(d2, l);
        GrowSize(ref, l, grow);
        StoreDone(d0, g, l, c, k, grow, chunk, d2, disk);
        g := Appended(d0, g, l, chunk);
      }
    }

    /** The block that allocfile takes from the file's last entry: the directory's last block, held. */
    method HoldLast(f: File, ghost l: Loc, nblk: nat) returns (ok: bool, s: nat)
      requires Valid() && l in g.ino && g.ino[l].isDir && nblk == |g.ino[l].blks| - 1 && PinsClear(store.pins, g.own, l)
      requires RecIn(disk, l) && f == Rec(disk, l)
      modifies store.Parts()
      ensures ok <==> |old(store.pins)| + (if nblk >= NDIRECT then 2 else 1) <= BlockCache.SLOTS
      ensures ok ==> store.Valid() && store.blocks == old(store.blocks) && s !in old(store.pins)
      ensures ok ==> store.pins == old(store.pins)[s := g.ino[l].blks[nblk]]
    {
      ghost var p0, b0 := store.pins, g.ino[l].blks[nblk];
      LastUnheld(p0, disk, g, l);
      assert CoveredAt(disk.blocks, store.blocks, b0);
      store.InDisk(b0);
      if nblk >= NDIRECT {
        assert CoveredAt(disk.blocks, store.blocks, f.indirect);
        store.InDisk(f.indirect);
        var t;
        ok, t := store.Hold(f.indirect);
        if !ok {
          s := 0;
          return;
        }
        ok, s := store.Hold(store.At(t).ents[nblk]);
        if ok {
          store.Put(t);
          assert p0[t := f.indirect][s := b0] - {t} == p0[s := b0];
        }
      } else {
        ok, s := store.Hold(f.direct[nblk]);
      }
    }

    /**
     The scan of allocfile in the last block of a directory: it finds the place after the entries,
     if the block has one.
     */
    method Scan(s: nat, ghost l: Loc) returns (i: nat)
      requires Valid() && l in g.ino && g.ino[l].isDir && |g.ino[l].blks| > 0
      requires s in store.pins && store.pins[s] == g.ino[l].blks[|g.ino[l].blks| - 1]
      ensures if i < BLKFILES then IsFree(g, l, store.pins[s], i) else |g.ino[l].kids| == BLKFILES * |g.ino[l].blks|
    {
      ghost var b := store.pins[s];
      assert BlkOk(disk, g, l, |g.ino[l].blks| - 1) && CoveredAt(disk.blocks, store.blocks, b);
      i := FirstBlank(store.At(s).files);
      BlankIsFree(disk, g, l, i);
    }

    /** Scan of the last block, which stays held if it has a blank place `i`. */
    method ScanLast(f: File, ghost l: Loc, nblk: nat) returns (ok: bool, found: bool, s: nat, i: nat)
      requires Valid() && l in g.ino && g.ino[l].isDir && nblk == |g.ino[l].blks| - 1 && PinsClear(store.pins, g.own, l)
      requires RecIn(disk, l) && f == Rec(disk, l)
      modifies store.Parts()
      ensures ok <==> |old(store.pins)| + (if nblk >= NDIRECT then 2 else 1) <= BlockCache.SLOTS
      ensures ok ==>
        store.Valid() && store.blocks == old(store.blocks) && Scanned(g, l, old(store.pins), found, s, i, store.pins)
    {
      ghost var p0, b := store.pins, g.ino[l].blks[nblk];
      found, i := false, 0;
      ok, s := HoldLast(f, l, nblk);
      if ok {
        i := Scan(s, l);
        found := i < BLKFILES;
        if !found {
          store.Put(s);
          assert p0[s := b] - {s} == p0;
        }
      }
    }

    /** The first half of allocfile, and the index of the directory's last block or -1. */
    method FindBlank(ref: FileRef, ghost l: Loc) returns (ok: bool, found: bool, s: nat, i: nat, nblk: int)
      requires Valid() && l in g.ino && g.ino[l].isDir && RefOk(ref, l, store.pins) && PinsClear(store.pins, g.own, l)
      modifies store.Parts()
      ensures var n := |old(g).ino[l].blks|;
        ok <==> n == 0 || |old(store.pins)| + (if n > NDIRECT then 2 else 1) <= BlockCache.SLOTS
      ensures ok ==> store.Valid() && store.blocks == old(store.blocks) && nblk == |g.ino[l].blks| - 1
      ensures ok ==> Scanned(g, l, old(store.pins), found, s, i, store.pins)
    {
      assert InoOk(disk, g, l);
      var f := Load(ref, l);
      nblk := (f.size + BLKSIZE - 1) / BLKSIZE - 1;
      ok, found, s, i := true, false, 0, 0;
      if nblk >= 0 {
        ok, found, s, i := ScanLast(f, l, nblk);
      }
    }

    /** The second half of allocfile: a new block for a full directory, held in slot `s`. */
    method AddBlock(ref: FileRef, ghost l: Loc, k: nat) returns (ok: bool, s: nat)
      requires Valid() && l in g.ino && g.ino[l].isDir && k == |g.ino[l].blks| && |g.ino[l].kids| == BLKFILES * k
      requires RefOk(ref, l, store.pins) && PinsClear(store.pins, g.own, l)
      modifies Parts()
      ensures ok <==>
        && k < NINDIRECT && old(nextb) + (if k == NDIRECT then 2 else 1) <= nblocks
        && |old(store.pins)| + (if k >= NDIRECT then 2 else 1) <= BlockCache.SLOTS
      ensures ok ==> Valid() && g == Appended(old(disk), old(g), l, [])
      ensures ok ==> nextb == old(nextb) + if k == NDIRECT then 2 else 1
      ensures ok ==> s !in old(store.pins) && store.pins == old(store.pins)[s := old(nextb)]
    {
      ghost var d0, p0 := disk, store.pins;
      assert OwnOk(disk, g, nextb);
      NotHeld(p0, g, l, nextb);
      ok, s := Take(BlankDir());
      if ok {
        assert p0[s := d0.nextb] - {s} == p0;
        ok := Extend(ref, l, d0, BlankDir(), s, k, BLKSIZE, []);
      }
    }

    /** The place that allocfile gives to a new entry; its block is held. */
    method FindPlace(ref: FileRef, ghost l: Loc) returns (ok: bool, s: nat, i: nat)
      requires Valid() && l in g.ino && g.ino[l].isDir && RefOk(ref, l, store.pins) && PinsClear(store.pins, g.own, l)
      modifies Parts()
      ensures var n := old(g).ino[l]; ok <==> CanAlloc(|n.kids|, |n.blks|, old(nextb), |old(store.pins)|, nblocks)
      ensures ok ==> Valid() && Widened(old(g), g, l) && s in store.pins && IsFree(g, l, store.pins[s], i)
      ensures var n := old(g).ino[l];
        ok ==> nextb == old(nextb) + EntryRoom(|n.kids|, |n.blks|) && |g.ino[l].blks| == DirBlocks(|n.kids|, |n.blks|)
      ensures ok ==> s !in old(store.pins) && store.pins == old(store.pins)[s := store.pins[s]]
    {
      var found, nblk;
      ghost var d0, g0 := disk, g;
      SameIsWidened(g, l);
      ok, found, s, i, nblk := FindBlank(ref, l);
      if ok && !found {
        ok, s := AddBlock(ref, l, nblk + 1);
        i := 0;
        if ok {
          BlockWidens(d0, g0, l);
        }
      }
    }

    /**
     allocfile, and the type that its callers then store: a new entry in the directory `l`, whose
     block stays held.
     */
    method AllocFile(ref: FileRef, ghost l: Loc, name: string, isDir: bool)
      returns (ok: bool, s: nat, i: nat, ghost e: Loc)
      requires Valid() && l in g.ino && g.ino[l].isDir && NameFits(name) && RefOk(ref, l, store.pins)
        && PinsClear(store.pins, g.own, l)
      modifies Parts()
      ensures var n := old(g).ino[l]; ok <==> CanAlloc(|n.kids|, |n.blks|, old(nextb), |old(store.pins)|, nblocks)
      ensures ok ==> Valid() && Added(old(g).ino, g.ino, l, e) && g.ino[e] == Ino(name, isDir, false, [], [], [])
      ensures var n := old(g).ino[l];
        ok ==> nextb == old(nextb) + EntryRoom(|n.kids|, |n.blks|) && |g.ino[l].blks| == DirBlocks(|n.kids|, |n.blks|)
      ensures ok ==> Grown(old(g).own, g.own) && PinsClear(store.pins, g.own, e)
      ensures ok ==>
        s !in old(store.pins) && RefOk(InSlot(s, i), e, store.pins) && store.pins == old(store.pins)[s := store.pins[s]]
    {
      ghost var d0, g0, p0 := disk, g, store.pins;
      e := Root;
      ok, s, i := FindPlace(ref, l);
      if ok {
        e := FreePlace(g, l);
        NameAdds(d0, g0, p0, disk, g, l, s, name, isDir);
        Save(InSlot(s, i), e, BlankFile().(name := name, isDir := isDir));
        g := Named(g, l, e, name, isDir);
      }
    }

    /** getblk of the next block without a step of the counter, and a read of the file into it. */
    method ReadBlock(chunk: seq<int>) returns (ok: bool, s: nat)
      requires Linked() && nextb >= 1 && nextb !in store.pins.Values && nextb !in disk.blocks && |chunk| <= BLKSIZE
      modifies store.Parts()
      ensures ok <==> nextb < nblocks && |old(store.pins)| < BlockCache.SLOTS
      ensures ok ==> store.Valid() && s !in old(store.pins) && store.pins == old(store.pins)[s := nextb]
      ensures ok ==> store.blocks == old(store.blocks)[nextb := Padded(chunk)]
    {
      ok, s := store.HoldClear(nextb, BlankData());
      if ok {
        store.Write(s, Padded(chunk));
      }
    }

    /** The step of the counter past the block that has been read, storeblk and putblk. */
    method KeepBlock(ref: FileRef, ghost e: Loc, k: nat, chunk: seq<int>, s: nat) returns (ok: bool)
      requires Valid() && e in g.ino && k == |g.ino[e].blks| && 0 < |chunk| <= BLKSIZE && nextb < nblocks
      requires k < NINDIRECT ==> Fits(g, e, Padded(chunk), chunk, 0)
      requires s in store.pins && store.pins[s] == nextb && nextb in store.blocks
        && store.blocks[nextb] == Padded(chunk)
      requires RefOk(ref, e, store.pins) && PinsClear(store.pins - {s}, g.own, e)
      modifies Parts()
      ensures ok <==>
        k < NINDIRECT && (k >= NDIRECT ==> |old(store.pins)| < BlockCache.SLOTS)
          && (k == NDIRECT ==> old(nextb) + 1 < nblocks)
      ensures ok ==> Valid() && store.pins == old(store.pins) - {s} && g == Appended(old(disk), old(g), e, chunk)
      ensures ok ==> nextb == old(nextb) + if k == NDIRECT then 2 else 1
    {
      ghost var d0 := disk;
      nextb := nextb + 1;
      disk := Taken(disk, Padded(chunk));
      forall b ensures CoveredAt(disk.blocks, store.blocks, b) { assert CoveredAt(d0.blocks, store.blocks, b); }
      ok := Extend(ref, e, d0, Padded(chunk), s, k, 0, chunk);
      if ok {
        store.Put(s);
      }
    }

    /** One round of the loop of writefile, which has read `chunk`. */
    method WriteBlock(ref: FileRef, ghost e: Loc, k: nat, chunk: seq<int>) returns (ok: bool)
      requires Valid() && e in g.ino && k == |g.ino[e].blks| && |chunk| <= BLKSIZE
      requires chunk != [] && k < NINDIRECT ==> Fits(g, e, Padded(chunk), chunk, 0)
      requires RefOk(ref, e, store.pins) && PinsClear(store.pins, g.own, e)
      modifies Parts()
      ensures ok <==> CanExtend(|chunk|, k, old(nextb), |old(store.pins)|, nblocks)
      ensures ok ==> Valid() && store.pins == old(store.pins)
      ensures ok ==> g == if chunk == [] then old(g) else Appended(old(disk), old(g), e, chunk)
      ensures ok ==> nextb == if chunk == [] then old(nextb) else old(nextb) + if k == NDIRECT then 2 else 1
    {
      ghost var p0, was := store.pins, store.blocks;
      assert OwnOk(disk, g, nextb);
      NotHeld(p0, g, e, nextb);
      var s;
      ok, s := ReadBlock(chunk);
      if ok {
        assert p0[s := nextb] - {s} == p0;
        forall b ensures CoveredAt(disk.blocks, store.blocks, b) { assert CoveredAt(disk.blocks, was, b); }
        if chunk == [] {
          store.Put(s);
        } else {
          ok := KeepBlock(ref, e, k, chunk, s);
        }
      }
    }

    /** WriteBlock of the next part of a file. */
    method WriteNext(ref: FileRef, ghost e: Loc, ghost ino1: map<Loc, Ino>, ghost name: string, bytes: seq<int>, k: nat)
      returns (ok: bool, n: nat)
      requires Valid() && Writing(ino1, g.ino, e, name, bytes, k) && RefOk(ref, e, store.pins)
        && PinsClear(store.pins, g.own, e)
      modifies Parts()
      ensures n == if |bytes| - BLKSIZE * k < BLKSIZE then |bytes| - BLKSIZE * k else BLKSIZE
      ensures ok <==> CanExtend(n, k, old(nextb), |old(store.pins)|, nblocks)
      ensures ok ==> Valid() && store.pins == old(store.pins) && Grown(old(g).own, g.own) && e in g.ino
      ensures ok && n < BLKSIZE ==> g.ino == ino1[e := Ino(name, false, false, g.ino[e].blks, bytes, [])]
      ensures ok && n == BLKSIZE ==> Writing(ino1, g.ino, e, name, bytes, k + 1)
      ensures ok ==> nextb == if n == 0 then old(nextb) else old(nextb) + if k == NDIRECT then 2 else 1
    {
      var chunk := bytes[BLKSIZE * k..][..if |bytes| - BLKSIZE * k < BLKSIZE then |bytes| - BLKSIZE * k else BLKSIZE];
      n := |chunk|;
      Round(ino1, disk, g, e, name, bytes, k, chunk);
      ok := WriteBlock(ref, e, k, chunk);
    }

    /** The loop of writefile: the last block is `nblk` with `n` bytes in it, or there is none when `n` is 0. */
    method WriteBlocks(ref: FileRef, ghost e: Loc, ghost name: string, bytes: seq<int>)
      returns (ok: bool, nblk: nat, n: nat)
      requires Valid() && e in g.ino && g.ino[e] == Ino(name, false, false, [], [], [])
      requires RefOk(ref, e, store.pins) && PinsClear(store.pins, g.own, e)
      modifies Parts()
      ensures ok <==> CanWrite(|bytes|, old(nextb), |old(store.pins)|, nblocks)
      ensures ok ==> Valid() && nblk * BLKSIZE + n == |bytes| && nextb == old(nextb) + FileBlocks(|bytes|)
      ensures ok ==> e in g.ino && g.ino == old(g).ino[e := Ino(name, false, false, g.ino[e].blks, bytes, [])]
      ensures ok ==> store.pins == old(store.pins) && Grown(old(g).own, g.own)
    {
      nblk, n := 0, 0;
      while true
        invariant Valid() && Writing(old(g).ino, g.ino, e, name, bytes, nblk)
        invariant nextb == old(nextb) + nblk + if nblk > NDIRECT then 1 else 0
        invariant nblk <= NINDIRECT && (nblk > NDIRECT ==> |store.pins| + 2 <= BlockCache.SLOTS)
        invariant store.pins == old(store.pins) && Grown(old(g).own, g.own)
        decreases |bytes| - BLKSIZE * nblk
      {
        StillClear(store.pins, old(g).own, g.own, e);
        ghost var own := g.own;
        ok, n := WriteNext(ref, e, old(g).ino, name, bytes, nblk);
        RoundDecides(|bytes|, nblk, n, old(nextb), |old(store.pins)|, nblocks);
        if !ok {
          return;
        }
        GrownOn(old(g).own, own, g.own);
        if n < BLKSIZE {
          return;
        }
        nblk := nblk + 1;
      }
    }

    /** The end of writefile: the size, and putblk of the directory block. */
    method FinishFile(s: nat, i: nat, ghost e: Loc, size: nat)
      requires Valid() && e in g.ino && !g.ino[e].isDir && RefOk(InSlot(s, i), e, store.pins)
        && size == |g.ino[e].bytes|
      modifies Parts()
      ensures Valid() && g == Finished(old(g), e) && nextb == old(nextb) && store.pins == old(store.pins) - {s}
    {
      FinishKeeps(disk, g, e);
      var f := Load(InSlot(s, i), e);
      Save(InSlot(s, i), e, f.(size := size));
      g := Finished(g, e);
      store.Put(s);
    }

    /** writefile: a new file with contents `bytes` in the directory `l`. */
    method WriteFile(ref: FileRef, ghost l: Loc, name: string, bytes: seq<int>) returns (ok: bool, ghost e: Loc)
      requires Valid() && l in g.ino && g.ino[l].isDir && NameFits(name) && RefOk(ref, l, store.pins)
        && PinsClear(store.pins, g.own, l)
      modifies Parts()
      ensures ok ==>
        Valid() && Added(old(g).ino, g.ino, l, e) && Stands(g.ino, old(g).ino.Keys, e, RegFile(name, bytes))
      ensures ok ==> store.pins == old(store.pins) && Grown(old(g).own, g.own)
      ensures var n := old(g).ino[l];
        ok <==>
          && CanAlloc(|n.kids|, |n.blks|, old(nextb), |old(store.pins)|, nblocks)
          && CanWrite(|bytes|, old(nextb) + EntryRoom(|n.kids|, |n.blks|), |old(store.pins)| + 1, nblocks)
      ensures var n := old(g).ino[l];
        ok ==>
          && nextb == old(nextb) + EntryRoom(|n.kids|, |n.blks|) + FileBlocks(|bytes|)
          && |g.ino[l].blks| == DirBlocks(|n.kids|, |n.blks|)
    {
      ghost var p0, ino0 := store.pins, g.ino;
      var s, i;
      ok, s, i, e := AllocFile(ref, l, name, false);
      if !ok {
        return;
      }
      ghost var ino1, own1 := g.ino, g.own;
      var nblk, n;
      ok, nblk, n := WriteBlocks(InSlot(s, i), e, name, bytes);
      if ok {
        FinishFile(s, i, e, nblk * BLKSIZE + n);
        FileStands(ino0, ino1, g.ino, l, e, name, bytes);
        GrownOn(old(g).own, own1, g.own);
        assert store.pins == p0;
      }
    }

    /**
     writedirectory after its call of allocfile: all that is in the directory, and putblk of the
     block with its record.
     */
    method FillAndPut(s: nat, i: nat, ghost e: Loc, kids: seq<Tree>) returns (ok: bool)
      requires Valid() && e in g.ino && g.ino[e].isDir && g.ino[e].kids == [] && g.ino[e].blks == []
      requires forall i :: 0 <= i < |kids| ==> AllNamed(kids[i])
      requires RefOk(InSlot(s, i), e, store.pins) && PinsClear(store.pins, g.own, e)
      modifies Parts()
      ensures ok ==> Valid() && Filled(old(g).ino, g.ino, e, kids, |kids|)
      ensures ok ==> s in old(store.pins) && store.pins == old(store.pins) - {s} && Grown(old(g).own, g.own)
      ensures After(kids, 0, 0, old(nextb), |old(store.pins)|, nblocks) == if ok then Some(nextb) else None
      decreases kids, 1
    {
      ok := WriteDirectory(InSlot(s, i), e, kids);
      if ok {
        store.Put(s);
      }
    }

    /** writedirectory below the root: a new directory with all that is in it, after which its block is released. */
    method WriteSubdirectory(ref: FileRef, ghost l: Loc, name: string, kids: seq<Tree>) returns (ok: bool, ghost e: Loc)
      requires Valid() && l in g.ino && g.ino[l].isDir && AllNamed(Directory(name, kids))
      requires RefOk(ref, l, store.pins) && PinsClear(store.pins, g.own, l)
      modifies Parts()
      ensures ok ==>
        Valid() && Added(old(g).ino, g.ino, l, e) && Stands(g.ino, old(g).ino.Keys, e, Directory(name, kids))
      ensures ok ==> store.pins == old(store.pins) && Grown(old(g).own, g.own)
      ensures var n := old(g).ino[l];
        (if CanAlloc(|n.kids|, |n.blks|, old(nextb), |old(store.pins)|, nblocks) then
           After(kids, 0, 0, old(nextb) + EntryRoom(|n.kids|, |n.blks|), |old(store.pins)| + 1, nblocks)
         else None) == if ok then Some(nextb) else None
      ensures var n := old(g).ino[l]; ok ==> |g.ino[l].blks| == DirBlocks(|n.kids|, |n.blks|)
      decreases kids, 2
    {
      ghost var ino0, p0 := g.ino, store.pins;
      var s, i;
      ok, s, i, e := AllocFile(ref, l, name, true);
      if ok {
        ghost var ino1, own1 := g.ino, g.own;
        assert |store.pins| == |p0| + 1;
        ok := FillAndPut(s, i, e, kids);
        if ok {
          SubtreeStands(ino0, ino1, g.ino, l, e, Directory(name, kids));
          GrownOn(old(g).own, own1, g.own);
          assert store.pins == p0;
        }
      }
    }

    /** The body of writedirectory's loop: a file, or a directory with all that is in it. */
    method WriteEntry(ref: FileRef, ghost l: Loc, t: Tree) returns (ok: bool, ghost e: Loc)
      requires Valid() && l in g.ino && g.ino[l].isDir && AllNamed(t) && RefOk(ref, l, store.pins)
        && PinsClear(store.pins, g.own, l)
      modifies Parts()
      ensures ok ==> Valid() && Added(old(g).ino, g.ino, l, e) && Stands(g.ino, old(g).ino.Keys, e, t)
      ensures ok ==> store.pins == old(store.pins) && Grown(old(g).own, g.own)
      ensures var n := old(g).ino[l];
        AfterOne(t, |n.kids|, |n.blks|, old(nextb), |old(store.pins)|, nblocks) == if ok then Some(nextb) else None
      ensures var n := old(g).ino[l]; ok ==> |g.ino[l].blks| == DirBlocks(|n.kids|, |n.blks|)
      decreases t, 1
    {
      if t.RegFile? {
        ok, e := WriteFile(ref, l, t.name, t.bytes);
      } else {
        ok, e := WriteSubdirectory(ref, l, t.name, t.kids);
      }
    }

    /** WriteEntry of the next of the entries of a directory. */
    method WriteKid(ref: FileRef, ghost l: Loc, kids: seq<Tree>, i: nat, ghost g0: Ghost) returns (ok: bool)
      requires Valid() && l in g.ino && g.ino[l].isDir && i < |kids| && AllNamed(kids[i])
        && Filled(g0.ino, g.ino, l, kids, i)
      requires RefOk(ref, l, store.pins) && PinsClear(store.pins, g0.own, l) && Grown(g0.own, g.own)
      modifies Parts()
      ensures ok ==>
        Valid() && Filled(g0.ino, g.ino, l, kids, i + 1) && store.pins == old(store.pins) && Grown(g0.own, g.own)
      ensures var n := old(g).ino[l];
        After(kids[i..], |n.kids|, |n.blks|, old(nextb), |old(store.pins)|, nblocks) ==
          if ok then After(kids[i + 1..], |g.ino[l].kids|, |g.ino[l].blks|, nextb, |old(store.pins)|, nblocks) else None
      decreases kids[i], 2
    {
      StillClear(store.pins, g0.own, g.own, l);
      AfterStep(kids, i, |g.ino[l].kids|, |g.ino[l].blks|, nextb, |store.pins|, nblocks);
      ghost var e;
      ok, e := WriteEntry(ref, l, kids[i]);
      if ok {
        FillStep(g0.ino, old(g).ino, g.ino, l, kids, i, e);
        GrownOn(g0.own, old(g).own, g.own);
      }
    }

    /** The loop of writedirectory over the entries of a directory. */
    method WriteDirectory(ref: FileRef, ghost l: Loc, kids: seq<Tree>) returns (ok: bool)
      requires Valid() && l in g.ino && g.ino[l].isDir && (forall i :: 0 <= i < |kids| ==> AllNamed(kids[i]))
      requires RefOk(ref, l, store.pins) && PinsClear(store.pins, g.own, l)
      modifies Parts()
      ensures ok ==> Valid() && Filled(old(g).ino, g.ino, l, kids, |kids|)
      ensures ok ==> store.pins == old(store.pins) && Grown(old(g).own, g.own)
      ensures var n := old(g).ino[l];
        After(kids, |n.kids|, |n.blks|, old(nextb), |old(store.pins)|, nblocks) == if ok then Some(nextb) else None
      decreases kids, 0
    {
      ghost var g0, held := g, |store.pins|;
      ghost var goal := After(kids, |g.ino[l].kids|, |g.ino[l].blks|, nextb, held, nblocks);
      assert kids[0..] == kids;
      FillStart(g.ino, l, kids);
      var i := 0;
      ok := true;
      while i < |kids|
        invariant i <= |kids| && Valid() && ok && Filled(g0.ino, g.ino, l, kids, i)
        invariant store.pins == old(store.pins) && Grown(g0.own, g.own)
        invariant goal == After(kids[i..], |g.ino[l].kids|, |g.ino[l].blks|, nextb, held, nblocks)
      {
        ok := WriteKid(ref, l, kids, i, g0);
        if !ok {
          return;
        }
        i := i + 1;
      }
    }
  }
}
