/**
 The file system image that fs/fsformat.c writes and fs/fs.c reads: file records, directory
 blocks, indirect blocks and data blocks, handed out by a counter that only grows.
 */
module DiskImage {
  import opened Options

  const BLKSIZE: nat := 4096
  const NDIRECT: nat := 10
  const NINDIRECT: nat := 1024
  const BLKFILES: nat := 16
  const BLKBITSIZE: nat := 32768
  const MAXNAMELEN: nat := 128

  /** A C string of bytes. */
  predicate IsName(name: string) {
    forall i :: 0 <= i < |name| ==> 0 < name[i] as int < 256
  }

  /** A name that is not empty and fits f_name with its final null. */
  predicate NameFits(name: string) {
    IsName(name) && 0 < |name| < MAXNAMELEN
  }

  /** The number of bitmap blocks of a disk. */
  function BitBlocks(nblocks: nat): nat {
    (nblocks + BLKBITSIZE - 1) / BLKBITSIZE
  }

  /** struct File */
  datatype File = File(name: string, size: nat, isDir: bool, direct: seq<nat>, indirect: nat)

  function BlankFile(): File {
    File("", 0, false, seq(NDIRECT, _ => 0), 0)
  }

  /** A block, as the code that uses it interprets its bytes. */
  datatype Content =
    | Raw(bytes: seq<int>)
    | Dir(files: seq<File>)
    | Table(ents: seq<nat>)
    | Bits(bits: seq<bool>)
    | Super(nblocks: nat, root: File)

  function BlankData(): Content {
    Raw(seq(BLKSIZE, _ => 0))
  }

  function BlankDir(): Content {
    Dir(seq(BLKFILES, _ => BlankFile()))
  }

  function BlankTable(): Content {
    Table(seq(NINDIRECT, _ => 0))
  }

  /** The image; blocks from `first` up to `nextb` have been handed out. */
  datatype Disk = Disk(blocks: map<nat, Content>, root: File, first: nat, nextb: nat)

  /** Where a file record is: in the super block, or at place `i` of a directory block. */
  datatype Loc = Root | Entry(bno: nat, i: nat)

  predicate RecIn(d: Disk, l: Loc) {
    l.Root? || (l.bno in d.blocks && d.blocks[l.bno].Dir? && l.i < |d.blocks[l.bno].files|)
  }

  function Rec(d: Disk, l: Loc): File
    requires RecIn(d, l)
  {
    if l.Root? then d.root else d.blocks[l.bno].files[l.i]
  }

  function SetRec(d: Disk, l: Loc, f: File): Disk
    requires RecIn(d, l)
  {
    if l.Root? then d.(root := f)
    else d.(blocks := d.blocks[l.bno := Dir(d.blocks[l.bno].files[l.i := f])])
  }

  lemma SetRecAgain(d: Disk, l: Loc, f: File, f': File)
    requires RecIn(d, l)
    ensures SetRec(d, l, Rec(d, l)) == d
    ensures
      && RecIn(SetRec(d, l, f), l) && Rec(SetRec(d, l, f), l) == f
      && SetRec(SetRec(d, l, f), l, f') == SetRec(d, l, f')
  {
    if l.Entry? {
      var fs := d.blocks[l.bno].files;
      assert fs[l.i := fs[l.i]] == fs && fs[l.i := f][l.i := f'] == fs[l.i := f'];
      assert d.blocks[l.bno := Dir(fs[l.i := fs[l.i]])] == d.blocks;
    }
  }

  // ---------- The reader (fs/fs.c) ----------

  /**
   file_block_walk without allocation: the entry for block `k` of a file; an indirect block is
   indexed by `k` itself.
   */
  function BlockNo(d: Disk, f: File, k: nat): Option<nat> {
    if k < NDIRECT then
      if k < |f.direct| then Some(f.direct[k]) else None
    else if k < NINDIRECT then
      if f.indirect != 0 && f.indirect in d.blocks && d.blocks[f.indirect].Table?
        && k < |d.blocks[f.indirect].ents| then
        Some(d.blocks[f.indirect].ents[k])
      else None
    else None
  }

  /** Block `k` of a file. */
  function Fetch(d: Disk, f: File, k: nat): Option<Content> {
    var b := BlockNo(d, f, k);
    if b.Some? && b.value != 0 && b.value in d.blocks then Some(d.blocks[b.value]) else None
  }

  /** The byte of a regular file at position `p`. */
  function ByteAt(d: Disk, f: File, p: nat): Option<int> {
    var c := Fetch(d, f, p / BLKSIZE);
    if p < f.size && c.Some? && c.value.Raw? && p % BLKSIZE < |c.value.bytes| then Some(c.value.bytes[p % BLKSIZE])
      else None
  }

  /** The record at place `j` of a directory. */
  function EntryAt(d: Disk, f: File, j: nat): Option<File> {
    var c := Fetch(d, f, j / BLKFILES);
    if j / BLKFILES < f.size / BLKSIZE && c.Some? && c.value.Dir? && j % BLKFILES < |c.value.files| then
      Some(c.value.files[j % BLKFILES])
    else None
  }

  // ---------- What the builder keeps ----------

  /** Block `k` of the file at `file`, or its indirect block. */
  datatype Owner = Blk(file: Loc, k: nat) | Tab(file: Loc)

  /** What has been written through a record so far: its blocks, its bytes or the places of its entries. */
  datatype Ino = Ino(name: string, isDir: bool, done: bool, blks: seq<nat>, bytes: seq<int>, kids: seq<Loc>)

  datatype Ghost = Ghost(own: map<nat, Owner>, ino: map<Loc, Ino>)

  /** Exactly the blocks handed out have an owner, and the owner knows. */
  ghost predicate OwnOk(d: Disk, g: Ghost, b: nat) {
    && (b in g.own <==> d.first <= b < d.nextb)
    && (b in g.own <==> b in d.blocks)
    && (b in g.own ==> g.own[b].file in g.ino)
    && (b in g.own && g.own[b].Blk? ==> var n := g.ino[g.own[b].file]; g.own[b].k < |n.blks| && n.blks[g.own[b].k] == b)
    && (b in g.own && g.own[b].Tab? ==> d.blocks[b].Table? && |d.blocks[b].ents| == NINDIRECT)
  }

  ghost predicate LocOk(g: Ghost, l: Loc) {
    l in g.ino && l.Entry? ==>
      && l.i < BLKFILES && l.bno in g.own && g.own[l.bno].Blk? && g.own[l.bno].file in g.ino
      && g.ino[g.own[l.bno].file].isDir
      && BLKFILES * g.own[l.bno].k + l.i < |g.ino[g.own[l.bno].file].kids|
  }

  ghost predicate InoOk(d: Disk, g: Ghost, l: Loc) {
    l in g.ino ==>
      var n := g.ino[l];
      && RecIn(d, l)
      && var f := Rec(d, l);
      && f.name == n.name && NameFits(n.name) && f.isDir == n.isDir && |f.direct| == NDIRECT && |n.blks| <= NINDIRECT
      && (if |n.blks| <= NDIRECT then f.indirect == 0 else f.indirect in g.own && g.own[f.indirect] == Tab(l))
      && (n.isDir ==>
        f.size == BLKSIZE * |n.blks| && BLKFILES * |n.blks| - BLKFILES <= |n.kids| <= BLKFILES * |n.blks|
          && n.bytes == [])
      && (!n.isDir ==>
        n.kids == [] && |n.blks| == (|n.bytes| + BLKSIZE - 1) / BLKSIZE && (n.done ==> f.size == |n.bytes|))
  }

  /** A block of a file is reached by the reader and holds its part of the file. */
  ghost predicate BlkOk(d: Disk, g: Ghost, l: Loc, k: nat) {
    l in g.ino && k < |g.ino[l].blks| ==>
      var n := g.ino[l];
      var b := n.blks[k];
      && RecIn(d, l) && BlockNo(d, Rec(d, l), k) == Some(b)
      && b in g.own && g.own[b] == Blk(l, k)
      && b in d.blocks
      && (if n.isDir then d.blocks[b].Dir? && |d.blocks[b].files| == BLKFILES
          else d.blocks[b].Raw? && |d.blocks[b].bytes| == BLKSIZE)
  }

  ghost predicate ByteOk(d: Disk, g: Ghost, l: Loc, p: nat) {
    l in g.ino && !g.ino[l].isDir && p < |g.ino[l].bytes| && p / BLKSIZE < |g.ino[l].blks| ==>
      var b := g.ino[l].blks[p / BLKSIZE];
      b in d.blocks && d.blocks[b].Raw? && p % BLKSIZE < |d.blocks[b].bytes|
        && d.blocks[b].bytes[p % BLKSIZE] == g.ino[l].bytes[p]
  }

  /** The used places of a directory are its entries in order, and the others are blank. */
  ghost predicate KidOk(d: Disk, g: Ghost, l: Loc, j: nat) {
    l in g.ino && g.ino[l].isDir && j / BLKFILES < |g.ino[l].blks| ==>
      var e := Entry(g.ino[l].blks[j / BLKFILES], j % BLKFILES);
      if j < |g.ino[l].kids| then g.ino[l].kids[j] == e && e in g.ino
      else RecIn(d, e) && Rec(d, e) == BlankFile() && e !in g.ino
  }

  ghost predicate Inv(d: Disk, g: Ghost) {
    && Root in g.ino && d.first > 0 && d.first <= d.nextb
    && (forall b :: OwnOk(d, g, b))
    && (forall l :: LocOk(g, l))
    && (forall l :: InoOk(d, g, l))
    && (forall l, k: nat :: BlkOk(d, g, l, k))
    && (forall l, p: nat :: ByteOk(d, g, l, p))
    && (forall l, j: nat :: KidOk(d, g, l, j))
  }

  // ---------- Reading back ----------

  /** Every byte of every finished file is read back, and nothing beyond its size. */
  lemma FileReadsBack(d: Disk, g: Ghost, l: Loc, p: nat)
    requires Inv(d, g) && l in g.ino && !g.ino[l].isDir && g.ino[l].done
    ensures RecIn(d, l) && Rec(d, l).size == |g.ino[l].bytes| && !Rec(d, l).isDir
    ensures ByteAt(d, Rec(d, l), p) == if p < |g.ino[l].bytes| then Some(g.ino[l].bytes[p]) else None
  {
    assert InoOk(d, g, l);
    if p < |g.ino[l].bytes| {
      var k := p / BLKSIZE;
      assert BlkOk(d, g, l, k) && ByteOk(d, g, l, p);
      assert OwnOk(d, g, g.ino[l].blks[k]);
    }
  }

  /** The entries of a directory are read back in order; the places after them are blank, up to the directory's size. */
  lemma DirReadsBack(d: Disk, g: Ghost, l: Loc, j: nat)
    requires Inv(d, g) && l in g.ino && g.ino[l].isDir
    ensures RecIn(d, l) && Rec(d, l).isDir && Rec(d, l).size % BLKSIZE == 0
    ensures j < |g.ino[l].kids| ==>
      RecIn(d, g.ino[l].kids[j]) && EntryAt(d, Rec(d, l), j) == Some(Rec(d, g.ino[l].kids[j]))
    ensures j >= |g.ino[l].kids| ==>
      EntryAt(d, Rec(d, l), j) == if j / BLKFILES < Rec(d, l).size / BLKSIZE then Some(BlankFile()) else None
  {
    assert InoOk(d, g, l) && KidOk(d, g, l, j) && BlkOk(d, g, l, j / BLKFILES);
    if j / BLKFILES < |g.ino[l].blks| {
      assert OwnOk(d, g, g.ino[l].blks[j / BLKFILES]);
    }
    if j < |g.ino[l].kids| {
      assert InoOk(d, g, g.ino[l].kids[j]);
    }
  }

  /** No block belongs to two files or to two places of one file, and no two files have the same indirect block. */
  lemma BlocksAreDistinct(d: Disk, g: Ghost, l: Loc, k: nat, l': Loc, k': nat)
    requires Inv(d, g) && l in g.ino && l' in g.ino && k < |g.ino[l].blks| && k' < |g.ino[l'].blks|
    ensures g.ino[l].blks[k] == g.ino[l'].blks[k'] ==> l == l' && k == k'
    ensures d.first <= g.ino[l].blks[k] < d.nextb
    ensures RecIn(d, l) && RecIn(d, l')
    ensures var t := Rec(d, l').indirect; t == 0 || (g.ino[l].blks[k] != t && d.first <= t < d.nextb)
    ensures Rec(d, l).indirect == Rec(d, l').indirect != 0 ==> l == l'
  {
    assert BlkOk(d, g, l, k) && BlkOk(d, g, l', k') && InoOk(d, g, l) && InoOk(d, g, l');
    assert OwnOk(d, g, g.ino[l].blks[k]) && OwnOk(d, g, Rec(d, l').indirect);
  }

  // ---------- The writer (fs/fsformat.c) ----------

  /** storeblk: block `b` becomes block `k` of the file `f`; a new indirect block comes from the counter. */
  function StoredFile(d: Disk, f: File, b: nat, k: nat): File
    requires k < NINDIRECT && |f.direct| == NDIRECT
  {
    if k < NDIRECT then f.(direct := f.direct[k := b]) else if f.indirect == 0 then f.(indirect := d.nextb) else f
  }

  predicate CanStore(d: Disk, f: File, k: nat) {
    && k < NINDIRECT && |f.direct| == NDIRECT
    && (k >= NDIRECT && f.indirect != 0 ==>
          f.indirect in d.blocks && d.blocks[f.indirect].Table? && |d.blocks[f.indirect].ents| == NINDIRECT)
  }

  function StoredDisk(d: Disk, f: File, b: nat, k: nat): Disk
    requires CanStore(d, f, k)
  {
    if k < NDIRECT then d
    else if f.indirect == 0 then
      d.(nextb := d.nextb + 1, blocks := d.blocks[d.nextb := Table(BlankTable().ents[k := b])])
    else d.(blocks := d.blocks[f.indirect := Table(d.blocks[f.indirect].ents[k := b])])
  }

  /** The next block, with contents `c`. */
  function Taken(d: Disk, c: Content): Disk {
    d.(nextb := d.nextb + 1, blocks := d.blocks[d.nextb := c])
  }

  /** A new block at the end of the file at `l`, which grows by `grow` bytes. */
  function Append(d: Disk, l: Loc, c: Content, k: nat, grow: nat): Disk
    requires RecIn(d, l) && d.nextb !in d.blocks && CanStore(Taken(d, c), Rec(d, l), k)
    requires l.Entry? && k >= NDIRECT ==> Rec(d, l).indirect != l.bno && d.nextb + 1 != l.bno
  {
    var f, b, d1 := Rec(d, l), d.nextb, Taken(d, c);
    var f' := StoredFile(d1, f, b, k);
    SetRec(StoredDisk(d1, f, b, k), l, f'.(size := f'.size + grow))
  }

  ghost function Appended(d: Disk, g: Ghost, l: Loc, chunk: seq<int>): Ghost
    requires l in g.ino
  {
    var b, n := d.nextb, g.ino[l];
    var own := g.own[b := Blk(l, |n.blks|)];
    Ghost(if |n.blks| == NDIRECT then own[b + 1 := Tab(l)] else own,
          g.ino[l := n.(blks := n.blks + [b], bytes := n.bytes + chunk)])
  }

  /** A block that may follow the blocks of the file at `l`. */
  ghost predicate Fits(g: Ghost, l: Loc, c: Content, chunk: seq<int>, grow: nat) {
    && l in g.ino && |g.ino[l].blks| < NINDIRECT
    && if g.ino[l].isDir then
         c == BlankDir() && chunk == [] && grow == BLKSIZE && |g.ino[l].kids| == BLKFILES * |g.ino[l].blks|
       else
         && c.Raw? && |c.bytes| == BLKSIZE && 0 < |chunk| <= BLKSIZE && c.bytes[..|chunk|] == chunk
         && |g.ino[l].bytes| == BLKSIZE * |g.ino[l].blks| && grow == 0 && !g.ino[l].done
  }

  lemma AppendDefined(d: Disk, g: Ghost, l: Loc, c: Content, k: nat)
    requires Inv(d, g) && l in g.ino && k == |g.ino[l].blks|
    ensures d.nextb !in d.blocks && RecIn(d, l) && (k < NINDIRECT ==> CanStore(Taken(d, c), Rec(d, l), k))
    ensures |Rec(d, l).direct| == NDIRECT && d.nextb !in g.own && d.nextb + 1 !in g.own
    ensures l.Entry? ==> l.bno in g.own && Rec(d, l).indirect != l.bno && d.nextb + 1 != l.bno && d.nextb != l.bno
    ensures Rec(d, l).indirect == 0 <==> k <= NDIRECT
    ensures k > NDIRECT ==> Rec(d, l).indirect in g.own && g.own[Rec(d, l).indirect] == Tab(l)
  {
    assert InoOk(d, g, l) && LocOk(g, l);
    assert OwnOk(d, g, Rec(d, l).indirect) && OwnOk(d, g, d.nextb) && OwnOk(d, g, d.nextb + 1) && OwnOk(d, g, 0);
  }

  /** The file record that Append leaves at `l`. */
  function AppendedFile(d: Disk, l: Loc, c: Content, k: nat, grow: nat): File
    requires RecIn(d, l) && CanStore(Taken(d, c), Rec(d, l), k)
  {
    var f' := StoredFile(Taken(d, c), Rec(d, l), d.nextb, k);
    f'.(size := f'.size + grow)
  }

  /** What Append does to the blocks that were handed out before. */
  lemma AppendBlock(d: Disk, g: Ghost, l: Loc, c: Content, k: nat, grow: nat, x: nat)
    requires Inv(d, g) && l in g.ino && k == |g.ino[l].blks| < NINDIRECT && x in g.own
    ensures d.nextb !in d.blocks && RecIn(d, l) && CanStore(Taken(d, c), Rec(d, l), k) && x in d.blocks
    ensures l.Entry? && k >= NDIRECT ==> Rec(d, l).indirect != l.bno && d.nextb + 1 != l.bno
    ensures var d' := Append(d, l, c, k, grow);
      x in d'.blocks && d'.blocks[x] ==
        if l.Entry? && x == l.bno && d.blocks[x].Dir? && l.i < |d.blocks[x].files| then
          Dir(d.blocks[x].files[l.i := AppendedFile(d, l, c, k, grow)])
        else if k > NDIRECT && x == Rec(d, l).indirect && d.blocks[x].Table? && k < |d.blocks[x].ents| then
          Table(d.blocks[x].ents[k := d.nextb])
        else d.blocks[x]
  {
    AppendDefined(d, g, l, c, k);
    assert OwnOk(d, g, x);
  }

  /** The record at `l` after Append, and every other record as before. */
  lemma AppendRec(d: Disk, g: Ghost, l: Loc, c: Content, k: nat, grow: nat, y: Loc)
    requires Inv(d, g) && l in g.ino && y in g.ino && k == |g.ino[l].blks| < NINDIRECT
    ensures d.nextb !in d.blocks && RecIn(d, l) && CanStore(Taken(d, c), Rec(d, l), k) && RecIn(d, y)
    ensures l.Entry? && k >= NDIRECT ==> Rec(d, l).indirect != l.bno && d.nextb + 1 != l.bno
    ensures var d' := Append(d, l, c, k, grow);
      RecIn(d', y) && Rec(d', y) == if y == l then AppendedFile(d, l, c, k, grow) else Rec(d, y)
  {
    AppendDefined(d, g, l, c, k);
    assert LocOk(g, y) && InoOk(d, g, y);
    if y.Entry? {
      AppendBlock(d, g, l, c, k, grow, y.bno);
      assert OwnOk(d, g, y.bno);
    }
  }

  /** The reader finds the old blocks where they were and the new block after them. */
  lemma AppendReads(d: Disk, g: Ghost, l: Loc, c: Content, k: nat, grow: nat, y: Loc, j: nat)
    requires Inv(d, g) && l in g.ino && y in g.ino && k == |g.ino[l].blks| < NINDIRECT
    requires j < |g.ino[y].blks| || (y == l && j == k)
    ensures d.nextb !in d.blocks && RecIn(d, l) && CanStore(Taken(d, c), Rec(d, l), k) && RecIn(d, y)
    ensures l.Entry? && k >= NDIRECT ==> Rec(d, l).indirect != l.bno && d.nextb + 1 != l.bno
    ensures var d' := Append(d, l, c, k, grow);
      RecIn(d', y) && BlockNo(d', Rec(d', y), j) == Some(if j < |g.ino[y].blks| then g.ino[y].blks[j] else d.nextb)
  {
    AppendDefined(d, g, l, c, k);
    AppendRec(d, g, l, c, k, grow, y);
    assert InoOk(d, g, y) && BlkOk(d, g, y, j);
    var t := Rec(d, y).indirect;
    if |g.ino[y].blks| > NDIRECT {
      AppendBlock(d, g, l, c, k, grow, t);
      assert OwnOk(d, g, t) && OwnOk(d, g, 0);
    }
  }

  /** New block `b`, and the indirect block that may come with it. */
  lemma AppendNew(d: Disk, g: Ghost, l: Loc, c: Content, k: nat, grow: nat)
    requires Inv(d, g) && l in g.ino && k == |g.ino[l].blks| < NINDIRECT
    ensures d.nextb !in d.blocks && RecIn(d, l) && CanStore(Taken(d, c), Rec(d, l), k)
    ensures l.Entry? && k >= NDIRECT ==> Rec(d, l).indirect != l.bno && d.nextb + 1 != l.bno
    ensures var d' := Append(d, l, c, k, grow);
      && d'.first == d.first && d'.nextb == d.nextb + (if k == NDIRECT then 2 else 1)
      && d.nextb in d'.blocks && d'.blocks[d.nextb] == c
      && (k == NDIRECT ==> d.nextb + 1 in d'.blocks && d'.blocks[d.nextb + 1] == Table(BlankTable().ents[k := d.nextb]))
      && d'.blocks.Keys == d.blocks.Keys + {d.nextb} + (if k == NDIRECT then {d.nextb + 1} else {})
      && (l.Entry? ==> d'.root == d.root)
  {
    AppendDefined(d, g, l, c, k);
  }

  ghost predicate Growing(d: Disk, g: Ghost, l: Loc, c: Content, k: nat, chunk: seq<int>, grow: nat, d': Disk,
                          g': Ghost) {
    && Inv(d, g) && Fits(g, l, c, chunk, grow) && k == |g.ino[l].blks|
    && d.nextb !in d.blocks && RecIn(d, l) && CanStore(Taken(d, c), Rec(d, l), k)
    && (l.Entry? && k >= NDIRECT ==> Rec(d, l).indirect != l.bno && d.nextb + 1 != l.bno)
    && d' == Append(d, l, c, k, grow) && g' == Appended(d, g, l, chunk)
  }

  lemma AppendOwn(d: Disk, g: Ghost, l: Loc, c: Content, k: nat, chunk: seq<int>, grow: nat, d': Disk, g': Ghost,
                  b: nat)
    requires Growing(d, g, l, c, k, chunk, grow, d', g')
    ensures OwnOk(d', g', b)
  {
    AppendDefined(d, g, l, c, k);
    AppendNew(d, g, l, c, k, grow);
    assert OwnOk(d, g, b) && OwnOk(d, g, d.nextb) && OwnOk(d, g, d.nextb + 1);
    if b in g.own {
      AppendBlock(d, g, l, c, k, grow, b);
    }
  }

  lemma AppendLoc(d: Disk, g: Ghost, l: Loc, c: Content, k: nat, chunk: seq<int>, grow: nat, d': Disk, g': Ghost,
                  y: Loc)
    requires Growing(d, g, l, c, k, chunk, grow, d', g')
    ensures LocOk(g', y)
  {
    AppendDefined(d, g, l, c, k);
    assert LocOk(g, y);
  }

  lemma AppendIno(d: Disk, g: Ghost, l: Loc, c: Content, k: nat, chunk: seq<int>, grow: nat, d': Disk, g': Ghost,
                  y: Loc)
    requires Growing(d, g, l, c, k, chunk, grow, d', g')
    ensures InoOk(d', g', y)
  {
    AppendDefined(d, g, l, c, k);
    if y in g.ino {
      assert InoOk(d, g, y);
      AppendRec(d, g, l, c, k, grow, y);
    }
  }

  lemma AppendBlk(d: Disk, g: Ghost, l: Loc, c: Content, k: nat, chunk: seq<int>, grow: nat, d': Disk, g': Ghost,
                  y: Loc, j: nat)
    requires Growing(d, g, l, c, k, chunk, grow, d', g')
    ensures BlkOk(d', g', y, j)
  {
    AppendDefined(d, g, l, c, k);
    if y in g.ino && j < |g'.ino[y].blks| {
      AppendReads(d, g, l, c, k, grow, y, j);
      AppendNew(d, g, l, c, k, grow);
      if j < |g.ino[y].blks| {
        assert BlkOk(d, g, y, j);
        AppendBlock(d, g, l, c, k, grow, g.ino[y].blks[j]);
        assert OwnOk(d, g, g.ino[y].blks[j]);
      }
    }
  }

  lemma AppendByte(d: Disk, g: Ghost, l: Loc, c: Content, k: nat, chunk: seq<int>, grow: nat, d': Disk, g': Ghost,
                   y: Loc, p: nat)
    requires Growing(d, g, l, c, k, chunk, grow, d', g')
    ensures ByteOk(d', g', y, p)
  {
    AppendDefined(d, g, l, c, k);
    if y in g.ino && !g.ino[y].isDir && p < |g'.ino[y].bytes| && p / BLKSIZE < |g'.ino[y].blks| {
      assert InoOk(d, g, y);
      if p < |g.ino[y].bytes| {
        assert ByteOk(d, g, y, p) && BlkOk(d, g, y, p / BLKSIZE);
        AppendBlock(d, g, l, c, k, grow, g.ino[y].blks[p / BLKSIZE]);
      } else {
        AppendNew(d, g, l, c, k, grow);
        assert y == l && p / BLKSIZE == k;
        assert c.bytes[..|chunk|][p % BLKSIZE] == chunk[p % BLKSIZE];
      }
    }
  }

  lemma AppendKid(d: Disk, g: Ghost, l: Loc, c: Content, k: nat, chunk: seq<int>, grow: nat, d': Disk, g': Ghost,
                  y: Loc, j: nat)
    requires Growing(d, g, l, c, k, chunk, grow, d', g')
    requires y in g.ino && j / BLKFILES < |g.ino[y].blks|
    ensures KidOk(d', g', y, j)
  {
    AppendDefined(d, g, l, c, k);
    if g.ino[y].isDir {
      assert KidOk(d, g, y, j) && LocOk(g, l) && BlkOk(d, g, y, j / BLKFILES);
      AppendBlock(d, g, l, c, k, grow, g.ino[y].blks[j / BLKFILES]);
    }
  }

  /** The places of a new directory block are blank. */
  lemma AppendBlankKid(d: Disk, g: Ghost, l: Loc, c: Content, k: nat, chunk: seq<int>, grow: nat, d': Disk, g': Ghost,
                       j: nat)
    requires Growing(d, g, l, c, k, chunk, grow, d', g') && j / BLKFILES >= |g.ino[l].blks|
    ensures KidOk(d', g', l, j)
  {
    AppendDefined(d, g, l, c, k);
    AppendNew(d, g, l, c, k, grow);
    assert LocOk(g, Entry(d.nextb, j % BLKFILES));
  }

  /** Appending a block keeps the invariant. */
  lemma AppendKeeps(d: Disk, g: Ghost, l: Loc, c: Content, k: nat, chunk: seq<int>, grow: nat)
    requires Inv(d, g) && Fits(g, l, c, chunk, grow) && k == |g.ino[l].blks|
    ensures d.nextb !in d.blocks && RecIn(d, l) && CanStore(Taken(d, c), Rec(d, l), k)
    ensures l.Entry? && k >= NDIRECT ==> Rec(d, l).indirect != l.bno && d.nextb + 1 != l.bno
    ensures Inv(Append(d, l, c, k, grow), Appended(d, g, l, chunk))
  {
    AppendNew(d, g, l, c, k, grow);
    var d', g' := Append(d, l, c, k, grow), Appended(d, g, l, chunk);
    forall b ensures OwnOk(d', g', b) { AppendOwn(d, g, l, c, k, chunk, grow, d', g', b); }
    forall y ensures LocOk(g', y) { AppendLoc(d, g, l, c, k, chunk, grow, d', g', y); }
    forall y ensures InoOk(d', g', y) { AppendIno(d, g, l, c, k, chunk, grow, d', g', y); }
    forall y, j: nat ensures BlkOk(d', g', y, j) { AppendBlk(d, g, l, c, k, chunk, grow, d', g', y, j); }
    forall y, p: nat ensures ByteOk(d', g', y, p) { AppendByte(d, g, l, c, k, chunk, grow, d', g', y, p); }
    forall y, j: nat ensures KidOk(d', g', y, j) {
      if y in g.ino && j / BLKFILES < |g.ino[y].blks| {
        AppendKid(d, g, l, c, k, chunk, grow, d', g', y, j);
      } else if y == l {
        AppendBlankKid(d, g, l, c, k, chunk, grow, d', g', j);
      }
    }
  }

  // ---------- A new entry, and the size of a finished file ----------

  /** The first unused place of a directory. */
  ghost function FreePlace(g: Ghost, l: Loc): Loc
    requires l in g.ino && |g.ino[l].kids| / BLKFILES < |g.ino[l].blks|
  {
    Entry(g.ino[l].blks[|g.ino[l].kids| / BLKFILES], |g.ino[l].kids| % BLKFILES)
  }

  ghost function Named(g: Ghost, l: Loc, e: Loc, name: string, isDir: bool): Ghost
    requires l in g.ino
  {
    g.(ino := g.ino[l := g.ino[l].(kids := g.ino[l].kids + [e])][e := Ino(name, isDir, false, [], [], [])])
  }

  ghost predicate Naming(d: Disk, g: Ghost, l: Loc, e: Loc, name: string, isDir: bool, d': Disk, g': Ghost) {
    && Inv(d, g) && l in g.ino && g.ino[l].isDir && |g.ino[l].kids| < BLKFILES * |g.ino[l].blks| && NameFits(name)
    && e == FreePlace(g, l) && RecIn(d, e)
    && d' == SetRec(d, e, BlankFile().(name := name, isDir := isDir)) && g' == Named(g, l, e, name, isDir)
  }

  lemma PlaceIsFree(d: Disk, g: Ghost, l: Loc)
    requires Inv(d, g) && l in g.ino && g.ino[l].isDir && |g.ino[l].kids| < BLKFILES * |g.ino[l].blks|
    ensures var e := FreePlace(g, l);
      && RecIn(d, e) && Rec(d, e) == BlankFile() && e !in g.ino && e.bno in g.own && d.blocks[e.bno].Dir?
      && g.own[e.bno] == Blk(l, |g.ino[l].kids| / BLKFILES) && e.i == |g.ino[l].kids| % BLKFILES
      && |g.ino[l].kids| / BLKFILES == |g.ino[l].blks| - 1
  {
    var j := |g.ino[l].kids|;
    assert InoOk(d, g, l) && KidOk(d, g, l, j) && BlkOk(d, g, l, j / BLKFILES);
  }

  /** All blocks but the one of the new entry are as before, and so are all records. */
  lemma NameFrame(d: Disk, g: Ghost, l: Loc, e: Loc, name: string, isDir: bool, d': Disk, g': Ghost)
    requires Naming(d, g, l, e, name, isDir, d', g')
    ensures forall x :: x != e.bno && x in d.blocks ==> x in d'.blocks && d'.blocks[x] == d.blocks[x]
    ensures d'.blocks[e.bno] == Dir(d.blocks[e.bno].files[e.i := BlankFile().(name := name, isDir := isDir)])
    ensures d'.blocks.Keys == d.blocks.Keys
    ensures forall y :: y in g.ino ==> RecIn(d, y) && RecIn(d', y) && Rec(d', y) == Rec(d, y)
  {
    PlaceIsFree(d, g, l);
    forall y | y in g.ino ensures RecIn(d, y) && RecIn(d', y) && Rec(d', y) == Rec(d, y) {
      assert InoOk(d, g, y);
    }
  }

  lemma NameOwn(d: Disk, g: Ghost, l: Loc, e: Loc, name: string, isDir: bool, d': Disk, g': Ghost, b: nat)
    requires Naming(d, g, l, e, name, isDir, d', g')
    ensures OwnOk(d', g', b)
  {
    PlaceIsFree(d, g, l);
    NameFrame(d, g, l, e, name, isDir, d', g');
    assert OwnOk(d, g, b);
  }

  lemma NameLoc(d: Disk, g: Ghost, l: Loc, e: Loc, name: string, isDir: bool, d': Disk, g': Ghost, y: Loc)
    requires Naming(d, g, l, e, name, isDir, d', g')
    ensures LocOk(g', y)
  {
    PlaceIsFree(d, g, l);
    assert LocOk(g, y);
  }

  lemma NameIno(d: Disk, g: Ghost, l: Loc, e: Loc, name: string, isDir: bool, d': Disk, g': Ghost, y: Loc)
    requires Naming(d, g, l, e, name, isDir, d', g')
    ensures InoOk(d', g', y)
  {
    PlaceIsFree(d, g, l);
    NameFrame(d, g, l, e, name, isDir, d', g');
    assert InoOk(d, g, y);
  }

  lemma NameBlk(d: Disk, g: Ghost, l: Loc, e: Loc, name: string, isDir: bool, d': Disk, g': Ghost, y: Loc, k: nat)
    requires Naming(d, g, l, e, name, isDir, d', g')
    ensures BlkOk(d', g', y, k)
  {
    PlaceIsFree(d, g, l);
    NameFrame(d, g, l, e, name, isDir, d', g');
    if y in g.ino && k < |g.ino[y].blks| {
      assert BlkOk(d, g, y, k) && InoOk(d, g, y);
      assert OwnOk(d, g, Rec(d, y).indirect);
    }
  }

  lemma NameByte(d: Disk, g: Ghost, l: Loc, e: Loc, name: string, isDir: bool, d': Disk, g': Ghost, y: Loc, p: nat)
    requires Naming(d, g, l, e, name, isDir, d', g')
    ensures ByteOk(d', g', y, p)
  {
    PlaceIsFree(d, g, l);
    NameFrame(d, g, l, e, name, isDir, d', g');
    if y in g.ino {
      assert ByteOk(d, g, y, p);
    }
  }

  lemma NameKid(d: Disk, g: Ghost, l: Loc, e: Loc, name: string, isDir: bool, d': Disk, g': Ghost, y: Loc, j: nat)
    requires Naming(d, g, l, e, name, isDir, d', g')
    ensures KidOk(d', g', y, j)
  {
    PlaceIsFree(d, g, l);
    NameFrame(d, g, l, e, name, isDir, d', g');
    if y in g.ino && g.ino[y].isDir && j / BLKFILES < |g.ino[y].blks| {
      assert KidOk(d, g, y, j) && BlkOk(d, g, y, j / BLKFILES);
      var b := g.ino[y].blks[j / BLKFILES];
      if b == e.bno {
        assert y == l && j / BLKFILES == |g.ino[l].kids| / BLKFILES;
        assert j % BLKFILES == e.i ==> j == |g.ino[l].kids|;
      } else {
        assert g.own[b] == Blk(y, j / BLKFILES);
        assert y == l ==> j != |g.ino[l].kids|;
      }
    }
  }

  /** Naming a blank place of a directory keeps the invariant. */
  lemma NameKeeps(d: Disk, g: Ghost, l: Loc, name: string, isDir: bool)
    requires Inv(d, g) && l in g.ino && g.ino[l].isDir && |g.ino[l].kids| < BLKFILES * |g.ino[l].blks| && NameFits(name)
    ensures var e := FreePlace(g, l);
      e !in g.ino && RecIn(d, e)
        && Inv(SetRec(d, e, BlankFile().(name := name, isDir := isDir)), Named(g, l, e, name, isDir))
  {
    PlaceIsFree(d, g, l);
    var e := FreePlace(g, l);
    var d', g' := SetRec(d, e, BlankFile().(name := name, isDir := isDir)), Named(g, l, e, name, isDir);
    forall b ensures OwnOk(d', g', b) { NameOwn(d, g, l, e, name, isDir, d', g', b); }
    forall y ensures LocOk(g', y) { NameLoc(d, g, l, e, name, isDir, d', g', y); }
    forall y ensures InoOk(d', g', y) { NameIno(d, g, l, e, name, isDir, d', g', y); }
    forall y, k: nat ensures BlkOk(d', g', y, k) { NameBlk(d, g, l, e, name, isDir, d', g', y, k); }
    forall y, p: nat ensures ByteOk(d', g', y, p) { NameByte(d, g, l, e, name, isDir, d', g', y, p); }
    forall y, j: nat ensures KidOk(d', g', y, j) { NameKid(d, g, l, e, name, isDir, d', g', y, j); }
  }

  ghost function Finished(g: Ghost, l: Loc): Ghost
    requires l in g.ino
  {
    g.(ino := g.ino[l := g.ino[l].(done := true)])
  }

  ghost predicate Finishing(d: Disk, g: Ghost, l: Loc, d': Disk, g': Ghost) {
    && Inv(d, g) && l in g.ino && !g.ino[l].isDir && RecIn(d, l)
    && d' == SetRec(d, l, Rec(d, l).(size := |g.ino[l].bytes|)) && g' == Finished(g, l)
  }

  lemma FinishFrame(d: Disk, g: Ghost, l: Loc, d': Disk, g': Ghost)
    requires Finishing(d, g, l, d', g')
    ensures d'.blocks.Keys == d.blocks.Keys
    ensures forall x :: x in d.blocks && !(l.Entry? && x == l.bno) ==> d'.blocks[x] == d.blocks[x]
    ensures forall y :: y in g.ino ==>
      RecIn(d, y) && RecIn(d', y) && Rec(d', y) == if y == l then Rec(d, l).(size := |g.ino[l].bytes|) else Rec(d, y)
  {
    forall y | y in g.ino
      ensures RecIn(d, y) && RecIn(d', y) && Rec(d', y) == if y == l then Rec(d, l).(size := |g.ino[l].bytes|)
        else Rec(d, y)
    {
      assert InoOk(d, g, y);
    }
  }

  lemma FinishBlk(d: Disk, g: Ghost, l: Loc, d': Disk, g': Ghost, y: Loc, k: nat)
    requires Finishing(d, g, l, d', g')
    ensures BlkOk(d', g', y, k)
  {
    FinishFrame(d, g, l, d', g');
    if y in g.ino && k < |g.ino[y].blks| {
      assert BlkOk(d, g, y, k) && InoOk(d, g, y) && LocOk(g, l);
      assert OwnOk(d, g, Rec(d, y).indirect);
    }
  }

  lemma FinishIno(d: Disk, g: Ghost, l: Loc, d': Disk, g': Ghost, y: Loc)
    requires Finishing(d, g, l, d', g')
    ensures InoOk(d', g', y)
  {
    FinishFrame(d, g, l, d', g');
    assert InoOk(d, g, y);
  }

  lemma FinishKid(d: Disk, g: Ghost, l: Loc, d': Disk, g': Ghost, y: Loc, j: nat)
    requires Finishing(d, g, l, d', g')
    ensures KidOk(d', g', y, j)
  {
    FinishFrame(d, g, l, d', g');
    assert KidOk(d, g, y, j) && BlkOk(d, g, y, j / BLKFILES);
  }

  /** Setting the size of a file whose bytes are all written keeps the invariant. */
  lemma FinishKeeps(d: Disk, g: Ghost, l: Loc)
    requires Inv(d, g) && l in g.ino && !g.ino[l].isDir
    ensures RecIn(d, l) && Inv(SetRec(d, l, Rec(d, l).(size := |g.ino[l].bytes|)), Finished(g, l))
  {
    assert InoOk(d, g, l);
    var d', g' := SetRec(d, l, Rec(d, l).(size := |g.ino[l].bytes|)), Finished(g, l);
    forall b ensures OwnOk(d', g', b) { assert OwnOk(d, g, b); }
    forall y ensures LocOk(g', y) { assert LocOk(g, y); }
    forall y ensures InoOk(d', g', y) { FinishIno(d, g, l, d', g', y); }
    forall y, k: nat ensures BlkOk(d', g', y, k) { FinishBlk(d, g, l, d', g', y, k); }
    forall y, p: nat ensures ByteOk(d', g', y, p) { assert ByteOk(d, g, y, p); }
    forall y, j: nat ensures KidOk(d', g', y, j) { FinishKid(d, g, l, d', g', y, j); }
  }
}
