/** fs/fsformat.c as a whole: opendisk, the tree below the root, finishfs and flushdisk. */
module ImageFormat {
  import opened Options
  import opened DiskImage
  import opened ImageStore
  import opened ImageTree
  import opened ImageBuilder

  /** Block `2 + j` is a bitmap block. */
  predicate BitmapBlock(blocks: map<nat, Content>, j: nat) {
    2 + j in blocks && blocks[2 + j].Bits? && |blocks[2 + j].bits| == BLKBITSIZE
  }

  /** The bit of block `i`. */
  predicate BitSet(blocks: map<nat, Content>, i: nat) {
    var j := i / BLKBITSIZE;
    BitmapBlock(blocks, j) && blocks[2 + j].bits[i % BLKBITSIZE]
  }

  /** The first `n` bitmap blocks have the bits from `lo` on set except those from `a` up to `b`. */
  ghost predicate Marked(blocks: map<nat, Content>, n: nat, lo: nat, a: nat, b: nat) {
    && (forall j: nat :: j < n ==> BitmapBlock(blocks, j))
    && (forall i: nat :: i < n * BLKBITSIZE ==> (BitSet(blocks, i) <==> lo <= i && !(a <= i < b)))
  }

  function Ones(): seq<bool> {
    seq(BLKBITSIZE, _ => true)
  }

  predicate AllOnes(blocks: map<nat, Content>, j: nat) {
    2 + j in blocks && blocks[2 + j] == Bits(Ones())
  }

  lemma AllSet(blocks: map<nat, Content>, n: nat, a: nat)
    requires forall j: nat :: j < n ==> AllOnes(blocks, j)
    ensures Marked(blocks, n, 0, a, a)
  {
    forall j: nat | j < n ensures BitmapBlock(blocks, j) { assert AllOnes(blocks, j); }
    forall i: nat | i < n * BLKBITSIZE ensures BitSet(blocks, i) { assert AllOnes(blocks, i / BLKBITSIZE); }
  }

  /** Clearing bit `i`, the lowest that is set or the next of the others. */
  lemma OneCleared(blocks: map<nat, Content>, n: nat, lo: nat, a: nat, b: nat, i: nat, blocks': map<nat, Content>)
    requires Marked(blocks, n, lo, a, b) && i < n * BLKBITSIZE && BitmapBlock(blocks, i / BLKBITSIZE) && a <= b
    requires var j := i / BLKBITSIZE; blocks' == blocks[2 + j := Bits(blocks[2 + j].bits[i % BLKBITSIZE := false])]
    ensures i == lo ==> Marked(blocks', n, lo + 1, a, b)
    ensures i == b ==> Marked(blocks', n, lo, a, b + 1)
  {
    forall j: nat | j < n ensures BitmapBlock(blocks', j) { assert BitmapBlock(blocks, j); }
    forall k: nat | k < n * BLKBITSIZE ensures BitSet(blocks', k) <==> BitSet(blocks, k) && k != i {
      assert BitmapBlock(blocks, k / BLKBITSIZE);
    }
  }

  /** One round of opendisk's loop. */
  method SetAll(store: Store, i: nat) returns (ok: bool)
    requires store.Valid() && store.pins == map[]
    modifies store.Parts()
    ensures ok <==> 2 + i < store.cache.disk.Length
    ensures ok ==> store.Valid() && store.pins == map[] && store.blocks == old(store.blocks)[2 + i := Bits(Ones())]
  {
    var s;
    ok, s := store.Hold(2 + i);
    if ok {
      store.Write(s, Bits(Ones()));
      store.Put(s);
      assert store.pins == map[];
    }
  }

  /** opendisk: the bits of all bitmap blocks are set; not `ok` stands for the call of abort. */
  method OpenDisk(file: array<Content>) returns (ok: bool, store: Store)
    requires file.Length >= 2
    modifies file
    ensures fresh(store.Parts() - {file}) && store.cache.disk == file
    ensures ok <==> 2 + BitBlocks(file.Length) <= file.Length
    ensures ok ==> store.Valid() && store.pins == map[]
    ensures ok ==> Marked(store.blocks, BitBlocks(file.Length), 0, file.Length, file.Length)
  {
    var nbitblock := BitBlocks(file.Length);
    store := new Store(file);
    for i := 0 to nbitblock
      invariant store.Valid() && store.pins == map[] && fresh(store.Parts() - {file}) && 2 + i <= file.Length
      invariant forall j: nat :: j < i ==> AllOnes(store.blocks, j)
    {
      ghost var was := store.blocks;
      ok := SetAll(store, i);
      if !ok {
        return;
      }
      forall j: nat | j < i + 1 ensures AllOnes(store.blocks, j) { assert j < i ==> AllOnes(was, j); }
    }
    AllSet(store.blocks, nbitblock, file.Length);
    ok := true;
  }

  /** One round of finishfs' first loop. */
  method ClearBit(store: Store, i: nat)
    requires store.Valid() && store.pins == map[] && BitmapBlock(store.blocks, i / BLKBITSIZE)
    modifies store.Parts()
    ensures store.Valid() && store.pins == map[]
    ensures var j := i / BLKBITSIZE;
      store.blocks == old(store.blocks)[2 + j := Bits(old(store.blocks)[2 + j].bits[i % BLKBITSIZE := false])]
  {
    store.InDisk(2 + i / BLKBITSIZE);
    var ok, s := store.Hold(2 + i / BLKBITSIZE);
    store.Write(s, Bits(store.At(s).bits[i % BLKBITSIZE := false]));
    store.Put(s);
    assert store.pins == map[];
  }

  /** What finishfs changes: bitmap blocks only. */
  ghost predicate OnlyBits(blocks: map<nat, Content>, blocks': map<nat, Content>, n: nat) {
    blocks'.Keys == blocks.Keys && forall b :: b in blocks && !(2 <= b < 2 + n) ==> blocks'[b] == blocks[b]
  }

  /** The first loop of finishfs: the bits of all blocks below `nextb` are cleared. */
  method ClearUsed(store: Store, nblocks: nat, nextb: nat)
    requires store.Valid() && store.pins == map[] && nextb <= nblocks
      && Marked(store.blocks, BitBlocks(nblocks), 0, nblocks, nblocks)
    modifies store.Parts()
    ensures store.Valid() && store.pins == map[] && Marked(store.blocks, BitBlocks(nblocks), nextb, nblocks, nblocks)
    ensures OnlyBits(old(store.blocks), store.blocks, BitBlocks(nblocks))
  {
    ghost var n := BitBlocks(nblocks);
    for i := 0 to nextb
      invariant store.Valid() && store.pins == map[] && Marked(store.blocks, n, i, nblocks, nblocks)
      invariant OnlyBits(old(store.blocks), store.blocks, n)
    {
      ghost var was := store.blocks;
      assert BitmapBlock(was, i / BLKBITSIZE);
      ClearBit(store, i);
      OneCleared(was, n, i, nblocks, nblocks, i, store.blocks);
    }
  }

  lemma InLast(n: nat, i: nat)
    requires n > 0 && i < BLKBITSIZE
    ensures ((n - 1) * BLKBITSIZE + i) / BLKBITSIZE == n - 1 && ((n - 1) * BLKBITSIZE + i) % BLKBITSIZE == i
    ensures (n - 1) * BLKBITSIZE + i < n * BLKBITSIZE
  {
  }

  /** The second loop of finishfs over the last bitmap block, which is held in slot `s`. */
  method ClearTail(store: Store, s: nat, nblocks: nat, ghost nextb: nat)
    requires var n := BitBlocks(nblocks);
      && store.Valid() && store.pins == map[s := 2 + (n - 1)] && nblocks % BLKBITSIZE != 0
      && Marked(store.blocks, n, nextb, nblocks, nblocks)
    modifies store.Parts()
    ensures store.Valid() && store.pins == old(store.pins)
    ensures Marked(store.blocks, BitBlocks(nblocks), nextb, nblocks, BitBlocks(nblocks) * BLKBITSIZE)
    ensures OnlyBits(old(store.blocks), store.blocks, BitBlocks(nblocks))
  {
    ghost var n := BitBlocks(nblocks);
    ghost var last := (n - 1) * BLKBITSIZE;
    var i := nblocks % BLKBITSIZE;
    while i < BLKBITSIZE
      invariant i <= BLKBITSIZE && nblocks <= last + i
      invariant store.Valid() && store.pins == old(store.pins) && Marked(store.blocks, n, nextb, nblocks, last + i)
      invariant OnlyBits(old(store.blocks), store.blocks, n)
    {
      ghost var was := store.blocks;
      InLast(n, i);
      assert BitmapBlock(was, n - 1);
      store.Write(s, Bits(store.At(s).bits[i := false]));
      OneCleared(was, n, nextb, nblocks, last + i, last + i, store.blocks);
      i := i + 1;
    }
  }

  /** The second half of finishfs: the bits beyond the disk are cleared. */
  method ClearRest(store: Store, nblocks: nat, ghost nextb: nat)
    requires store.Valid() && store.pins == map[] && nblocks > 0
      && Marked(store.blocks, BitBlocks(nblocks), nextb, nblocks, nblocks)
    modifies store.Parts()
    ensures store.Valid() && store.pins == map[]
    ensures Marked(store.blocks, BitBlocks(nblocks), nextb, nblocks, BitBlocks(nblocks) * BLKBITSIZE)
    ensures OnlyBits(old(store.blocks), store.blocks, BitBlocks(nblocks))
  {
    var n := BitBlocks(nblocks);
    if nblocks != n * BLKBITSIZE {
      assert BitmapBlock(store.blocks, n - 1);
      store.InDisk(2 + (n - 1));
      var ok, s := store.Hold(2 + (n - 1));
      ClearTail(store, s, nblocks, nextb);
      store.Put(s);
      assert store.pins == map[];
    }
  }

  /** The end of finishfs: the super block. */
  method WriteSuper(store: Store, nblocks: nat, root: File)
    requires store.Valid() && store.pins == map[] && store.cache.disk.Length >= 2
    modifies store.Parts()
    ensures store.Valid() && store.pins == map[] && store.blocks == old(store.blocks)[1 := Super(nblocks, root)]
  {
    var ok, s := store.HoldClear(1, BlankData());
    store.Write(s, Super(nblocks, root));
    store.Put(s);
    assert store.pins == map[];
  }

  ghost predicate WithinAt(part: map<nat, Content>, blocks: map<nat, Content>, b: nat) {
    b in part ==> b in blocks && blocks[b] == part[b]
  }

  /** The blocks of `part` are among `blocks`. */
  ghost predicate Within(part: map<nat, Content>, blocks: map<nat, Content>) {
    forall b: nat :: WithinAt(part, blocks, b)
  }

  lemma FetchMore(d: Disk, d': Disk, f: File, k: nat)
    requires Within(d.blocks, d'.blocks) && Fetch(d, f, k).Some?
    ensures Fetch(d', f, k) == Fetch(d, f, k)
  {
    assert WithinAt(d.blocks, d'.blocks, f.indirect) && WithinAt(d.blocks, d'.blocks, BlockNo(d, f, k).value);
  }

  /** The reader sees the same tree when there are more blocks. */
  lemma {:induction false} ReadsMore(d: Disk, d': Disk, f: File, t: Tree)
    requires ReadsAs(d, f, t) && Within(d.blocks, d'.blocks)
    ensures ReadsAs(d', f, t)
    decreases t
  {
    match t
    case RegFile(_, bytes) =>
      forall p: nat ensures ByteAt(d', f, p) == if p < |bytes| then Some(bytes[p]) else None {
        assert ByteAt(d, f, p) == if p < |bytes| then Some(bytes[p]) else None;
        if p < |bytes| { FetchMore(d, d', f, p / BLKSIZE); }
      }
    case Directory(_, kids) =>
      forall j: nat ensures EntryAt(d', f, j) == EntryAt(d, f, j) {
        assert EntryAt(d, f, j).Some? || j / BLKFILES >= f.size / BLKSIZE;
        if EntryAt(d, f, j).Some? { FetchMore(d, d', f, j / BLKFILES); }
      }
      forall j: nat | j < |kids| ensures ReadsAs(d', EntryAt(d, f, j).value, kids[j]) {
        ReadsMore(d, d', EntryAt(d, f, j).value, kids[j]);
      }
  }

  /** Only the bitmap blocks matter to the bitmap. */
  lemma MarkedSame(blocks: map<nat, Content>, blocks': map<nat, Content>, n: nat, lo: nat, a: nat, b: nat)
    requires Marked(blocks, n, lo, a, b)
    requires forall x: nat :: 2 <= x < 2 + n ==> WithinAt(blocks, blocks', x)
    ensures Marked(blocks', n, lo, a, b)
  {
    forall j: nat | j < n ensures BitmapBlock(blocks', j) {
      assert BitmapBlock(blocks, j) && WithinAt(blocks, blocks', 2 + j);
    }
    forall i: nat | i < n * BLKBITSIZE ensures BitSet(blocks', i) <==> BitSet(blocks, i) {
      assert BitmapBlock(blocks, i / BLKBITSIZE) && WithinAt(blocks, blocks', 2 + i / BLKBITSIZE);
    }
  }

  /** The bitmap blocks are below the blocks of the tree, so they are as before. */
  lemma BitmapKept(b: Builder, was: map<nat, Content>, n: nat, lo: nat, a: nat, z: nat)
    requires b.Valid() && b.first == 2 + n && Marked(was, n, lo, a, z)
    requires forall x: nat :: x in was && x < 2 + n ==> x in b.base && b.base[x] == was[x]
    ensures Marked(b.store.blocks, n, lo, a, z)
  {
    forall x: nat | 2 <= x < 2 + n ensures WithinAt(was, b.store.blocks, x) {
      assert b.CoveredAt(b.disk.blocks, b.store.blocks, x) && OwnOk(b.disk, b.g, x);
    }
    MarkedSame(was, b.store.blocks, n, lo, a, z);
  }

  /** What the builder has written is what the reader will see. */
  lemma TreeShown(b: Builder, ino0: map<Loc, Ino>, kids: seq<Tree>)
    requires b.Valid() && Filled(ino0, b.g.ino, Root, kids, |kids|) && ino0[Root] == Ino("/", true, false, [], [], [])
    ensures ReadsAs(b.disk, b.root, Directory("/", kids)) && Within(b.disk.blocks, b.store.blocks)
    ensures forall x :: x in b.disk.blocks ==> b.first <= x < b.nextb
  {
    RootStands(ino0, b.g.ino, kids);
    TreeReadsBack(b.disk, b.g, {}, Root, Directory("/", kids));
    forall x: nat ensures WithinAt(b.disk.blocks, b.store.blocks, x) {
      assert b.CoveredAt(b.disk.blocks, b.store.blocks, x);
    }
    forall x | x in b.disk.blocks ensures b.first <= x < b.nextb { assert OwnOk(b.disk, b.g, x); }
  }

  /** The tree below the root, and what the reader will see of it. */
  method Populate(store: Store, nblocks: nat, kids: seq<Tree>) returns (ok: bool, nextb: nat, root: File, ghost d: Disk)
    requires store.Valid() && store.pins == map[] && store.cache.disk.Length == nblocks
      && 2 + BitBlocks(nblocks) <= nblocks
    requires Marked(store.blocks, BitBlocks(nblocks), 0, nblocks, nblocks) && forall i :: 0 <= i < |kids| ==>
      AllNamed(kids[i])
    modifies store.Parts()
    ensures After(kids, 0, 0, 2 + BitBlocks(nblocks), 0, nblocks) == if ok then Some(nextb) else None
    ensures ok ==> store.Valid() && store.pins == map[] && 2 + BitBlocks(nblocks) <= nextb <= nblocks
    ensures ok ==> Marked(store.blocks, BitBlocks(nblocks), 0, nblocks, nblocks) && Within(d.blocks, store.blocks)
    ensures ok ==> d.root == root && ReadsAs(d, root, Directory("/", kids))
    ensures ok ==> forall x :: x in d.blocks ==> 2 + BitBlocks(nblocks) <= x < nextb
  {
    ghost var was := store.blocks;
    var b := new Builder(store, nblocks, 2 + BitBlocks(nblocks));
    ghost var ino0 := b.g.ino;
    assert ino0[Root].kids == [] && ino0[Root].blks == [] && |store.pins| == 0;
    ok := b.WriteDirectory(InSuper, Root, kids);
    nextb, root, d := b.nextb, b.root, b.disk;
    if ok {
      TreeShown(b, ino0, kids);
      BitmapKept(b, was, BitBlocks(nblocks), 0, nblocks, nblocks);
    }
  }

  /** finishfs and flushdisk */
  method Finish(store: Store, nblocks: nat, nextb: nat, root: File, ghost d: Disk)
    requires store.Valid() && store.pins == map[] && store.cache.disk.Length == nblocks
      && 2 + BitBlocks(nblocks) <= nblocks
    requires nextb <= nblocks && Marked(store.blocks, BitBlocks(nblocks), 0, nblocks, nblocks)
    requires Within(d.blocks, store.blocks) && forall x :: x in d.blocks ==> 2 + BitBlocks(nblocks) <= x
    modifies store.Parts()
    ensures var blocks := BlocksOf(store.cache.disk[..]);
      && Within(d.blocks, blocks) && 1 in blocks && blocks[1] == Super(nblocks, root)
      && Marked(blocks, BitBlocks(nblocks), nextb, nblocks, BitBlocks(nblocks) * BLKBITSIZE)
  {
    ghost var n, was := BitBlocks(nblocks), store.blocks;
    ClearUsed(store, nblocks, nextb);
    ClearRest(store, nblocks, nextb);
    ghost var marked := store.blocks;
    WriteSuper(store, nblocks, root);
    store.Flush();
    ghost var blocks := BlocksOf(store.cache.disk[..]);
    forall x: nat ensures WithinAt(marked, blocks, x) || x == 1 {
      if x in marked { store.InDisk(x); }
    }
    forall x: nat ensures WithinAt(d.blocks, blocks, x) {
      assert WithinAt(d.blocks, was, x) && (WithinAt(marked, blocks, x) || x == 1);
    }
    MarkedSame(marked, blocks, n, nextb, nblocks, n * BLKBITSIZE);
  }

  /**
   The program, for a directory tree or for a list of files: null stands for the calls of abort and
   for the number of blocks that main refuses. Otherwise what fs/fs.c reads from the super block on is
   the tree, and the bitmap marks exactly the blocks from `nextb` up to `nblocks` as free.
   */
  method Format(nblocks: nat, kids: seq<Tree>) returns (file: array?<Content>, nextb: nat)
    requires forall i :: 0 <= i < |kids| ==> AllNamed(kids[i])
    ensures file != null <==> 3 <= nblocks <= 1024 && After(kids, 0, 0, 3, 0, nblocks).Some?
    ensures file != null ==> file.Length == nblocks && file[1].Super? && file[1].nblocks == nblocks
    ensures file != null ==> After(kids, 0, 0, 3, 0, nblocks) == Some(nextb) && 3 <= nextb <= nblocks
    ensures file != null ==>
      ReadsAs(Disk(BlocksOf(file[..]), file[1].root, 3, nextb), file[1].root, Directory("/", kids))
    ensures file != null ==> BitmapBlock(BlocksOf(file[..]), 0)
    ensures file != null ==>
      forall i: nat :: i < BLKBITSIZE ==> (BitSet(BlocksOf(file[..]), i) <==> nextb <= i < nblocks)
  {
    nextb := 0;
    if nblocks < 2 || nblocks > 1024 {
      return null, nextb;
    }
    var f := new Content[nblocks](_ => BlankData());
    var ok, store := OpenDisk(f);
    if !ok {
      return null, nextb;
    }
    var root;
    ghost var d;
    ok, nextb, root, d := Populate(store, nblocks, kids);
    if !ok {
      return null, nextb;
    }
    Finish(store, nblocks, nextb, root, d);
    ghost var d' := Disk(BlocksOf(f[..]), root, 3, nextb);
    ReadsMore(d, d', root, Directory("/", kids));
    file := f;
  }
}
