/**
 Directory trees: what fs/fs.c reads below a record, what the builder has written, and the blocks
 and cache slots a tree needs.
 */
module ImageTree {
  import opened Options
  import BlockCache
  import opened DiskImage

  datatype Tree = RegFile(name: string, bytes: seq<int>) | Directory(name: string, kids: seq<Tree>)

  /** All names fit their field, which the code takes for granted. */
  ghost predicate AllNamed(t: Tree) {
    NameFits(t.name) && (t.Directory? ==> forall i :: 0 <= i < |t.kids| ==> AllNamed(t.kids[i]))
  }

  /** What the reader sees below the record `f` is the tree `t`. */
  ghost predicate ReadsAs(d: Disk, f: File, t: Tree)
    decreases t
  {
    f.name == t.name &&
    match t
    case RegFile(_, bytes) =>
      && !f.isDir && f.size == |bytes|
      && (forall p: nat :: ByteAt(d, f, p) == if p < |bytes| then Some(bytes[p]) else None)
    case Directory(_, kids) =>
      && f.isDir && f.size % BLKSIZE == 0
      && (forall j: nat :: j < |kids| ==> EntryAt(d, f, j).Some? && ReadsAs(d, EntryAt(d, f, j).value, kids[j]))
      && (forall j: nat :: j >= |kids| ==>
        EntryAt(d, f, j) == if j / BLKFILES < f.size / BLKSIZE then Some(BlankFile()) else None)
  }

  /** The record at `l`, which is not among `base`, and those below it stand for the tree `t`. */
  ghost predicate Stands(ino: map<Loc, Ino>, base: set<Loc>, l: Loc, t: Tree)
    decreases t
  {
    && l in ino && l !in base && ino[l].name == t.name
    && match t
       case RegFile(_, bytes) => !ino[l].isDir && ino[l].done && ino[l].bytes == bytes
       case Directory(_, kids) =>
         ino[l].isDir && |ino[l].kids| == |kids| && forall i :: 0 <= i < |kids| ==>
           Stands(ino, base, ino[l].kids[i], kids[i])
  }

  /** The record at `y` is as before if it is not in `base`. */
  ghost predicate SameAt(ino: map<Loc, Ino>, ino': map<Loc, Ino>, base: set<Loc>, y: Loc) {
    y in ino && y !in base ==> y in ino' && ino'[y] == ino[y]
  }

  /** A tree outside `base` is not disturbed by changes inside `base` or by new records. */
  lemma {:induction false} StandsFrame(ino: map<Loc, Ino>, base: set<Loc>, l: Loc, t: Tree, ino': map<Loc, Ino>,
                                       base': set<Loc>)
    requires Stands(ino, base, l, t) && base' <= base
    requires forall y :: SameAt(ino, ino', base, y)
    ensures Stands(ino', base', l, t)
    decreases t
  {
    assert SameAt(ino, ino', base, l);
    if t.Directory? {
      forall i | 0 <= i < |t.kids| ensures Stands(ino', base', ino[l].kids[i], t.kids[i]) {
        StandsFrame(ino, base, ino[l].kids[i], t.kids[i], ino', base');
      }
    }
  }

  /** The reader sees every tree that the builder has written. */
  lemma {:induction false} TreeReadsBack(d: Disk, g: Ghost, base: set<Loc>, l: Loc, t: Tree)
    requires Inv(d, g) && Stands(g.ino, base, l, t)
    ensures RecIn(d, l) && ReadsAs(d, Rec(d, l), t)
    decreases t
  {
    assert InoOk(d, g, l);
    var f := Rec(d, l);
    match t
    case RegFile(_, bytes) =>
      forall p: nat ensures ByteAt(d, f, p) == if p < |bytes| then Some(bytes[p]) else None {
        FileReadsBack(d, g, l, p);
      }
    case Directory(_, kids) =>
      forall j: nat | j < |kids| ensures EntryAt(d, f, j).Some? && ReadsAs(d, EntryAt(d, f, j).value, kids[j]) {
        DirReadsBack(d, g, l, j);
        TreeReadsBack(d, g, base, g.ino[l].kids[j], kids[j]);
      }
      forall j: nat | j >= |kids|
        ensures EntryAt(d, f, j) == if j / BLKFILES < f.size / BLKSIZE then Some(BlankFile()) else None
      {
        DirReadsBack(d, g, l, j);
      }
      DirReadsBack(d, g, l, 0);
  }

  /** The records after something new has been written into the directory `dir` under the record `e`. */
  ghost predicate Added(ino: map<Loc, Ino>, ino': map<Loc, Ino>, dir: Loc, e: Loc) {
    && dir in ino && dir in ino' && e !in ino && e in ino'
    && ino'[dir].kids == ino[dir].kids + [e] && ino'[dir].isDir == ino[dir].isDir && ino'[dir].name == ino[dir].name
    && forall y :: SameAt(ino, ino', {dir}, y)
  }

  ghost predicate FilledAt(ino0: map<Loc, Ino>, ino: map<Loc, Ino>, dir: Loc, kids: seq<Tree>, i: nat) {
    && i < |kids| && dir in ino0 && dir in ino && |ino0[dir].kids| + i < |ino[dir].kids|
    && Stands(ino, ino0.Keys, ino[dir].kids[|ino0[dir].kids| + i], kids[i])
  }

  /** The first `n` of `kids` have been written into `dir`, after what it held in `ino0`. */
  ghost predicate Filled(ino0: map<Loc, Ino>, ino: map<Loc, Ino>, dir: Loc, kids: seq<Tree>, n: nat) {
    && n <= |kids| && dir in ino0 && dir in ino && ino[dir].isDir == ino0[dir].isDir && ino[dir].name == ino0[dir].name
    && |ino[dir].kids| == |ino0[dir].kids| + n && ino[dir].kids[..|ino0[dir].kids|] == ino0[dir].kids
    && (forall y :: SameAt(ino0, ino, {dir}, y))
    && (forall i :: 0 <= i < n ==> FilledAt(ino0, ino, dir, kids, i))
  }

  lemma FillStart(ino: map<Loc, Ino>, dir: Loc, kids: seq<Tree>)
    requires dir in ino
    ensures Filled(ino, ino, dir, kids, 0)
  {
    forall y ensures SameAt(ino, ino, {dir}, y) {}
  }

  lemma FillStep(ino0: map<Loc, Ino>, ino: map<Loc, Ino>, ino': map<Loc, Ino>, dir: Loc, kids: seq<Tree>, n: nat,
                 e: Loc)
    requires Filled(ino0, ino, dir, kids, n) && n < |kids|
    requires Added(ino, ino', dir, e) && Stands(ino', ino.Keys, e, kids[n])
    ensures Filled(ino0, ino', dir, kids, n + 1)
  {
    assert ino0.Keys <= ino.Keys by {
      forall y | y in ino0 ensures y in ino { assert SameAt(ino0, ino, {dir}, y); }
    }
    forall y ensures SameAt(ino0, ino', {dir}, y) { assert SameAt(ino0, ino, {dir}, y) && SameAt(ino, ino', {dir}, y); }
    forall y ensures SameAt(ino, ino', ino0.Keys, y) { assert SameAt(ino, ino', {dir}, y); }
    forall y ensures SameAt(ino', ino', ino.Keys, y) {}
    forall i | 0 <= i < n + 1 ensures FilledAt(ino0, ino', dir, kids, i) {
      if i < n {
        assert FilledAt(ino0, ino, dir, kids, i);
        StandsFrame(ino, ino0.Keys, ino[dir].kids[|ino0[dir].kids| + i], kids[i], ino', ino0.Keys);
      } else {
        StandsFrame(ino', ino.Keys, e, kids[n], ino', ino0.Keys);
      }
    }
  }

  lemma FileStands(ino: map<Loc, Ino>, ino1: map<Loc, Ino>, ino2: map<Loc, Ino>, dir: Loc, e: Loc, name: string,
                   bytes: seq<int>)
    requires Added(ino, ino1, dir, e) && e in ino2 && ino2 == ino1[e := Ino(name, false, true, ino2[e].blks, bytes, [])]
    ensures Added(ino, ino2, dir, e) && Stands(ino2, ino.Keys, e, RegFile(name, bytes))
      && ino2[dir].blks == ino1[dir].blks
  {
    forall y ensures SameAt(ino, ino2, {dir}, y) { assert SameAt(ino, ino1, {dir}, y); }
  }

  lemma SubtreeStands(ino: map<Loc, Ino>, ino1: map<Loc, Ino>, ino2: map<Loc, Ino>, dir: Loc, e: Loc, t: Tree)
    requires t.Directory? && Added(ino, ino1, dir, e) && ino1[e] == Ino(t.name, true, false, [], [], [])
    requires Filled(ino1, ino2, e, t.kids, |t.kids|)
    ensures Added(ino, ino2, dir, e) && Stands(ino2, ino.Keys, e, t) && ino2[dir].blks == ino1[dir].blks
  {
    assert SameAt(ino1, ino2, {e}, dir);
    assert ino.Keys <= ino1.Keys by {
      forall y | y in ino ensures y in ino1 { assert SameAt(ino, ino1, {dir}, y); }
    }
    forall y ensures SameAt(ino, ino2, {dir}, y) { assert SameAt(ino, ino1, {dir}, y) && SameAt(ino1, ino2, {e}, y); }
    forall y ensures SameAt(ino2, ino2, ino1.Keys, y) {}
    forall i | 0 <= i < |t.kids| ensures Stands(ino2, ino.Keys, ino2[e].kids[i], t.kids[i]) {
      assert FilledAt(ino1, ino2, e, t.kids, i);
      StandsFrame(ino2, ino1.Keys, ino2[e].kids[i], t.kids[i], ino2, ino.Keys);
    }
  }

  lemma RootStands(ino0: map<Loc, Ino>, ino: map<Loc, Ino>, kids: seq<Tree>)
    requires Filled(ino0, ino, Root, kids, |kids|) && ino0[Root] == Ino("/", true, false, [], [], [])
    ensures Stands(ino, {}, Root, Directory("/", kids))
  {
    forall y ensures SameAt(ino, ino, ino0.Keys, y) {}
    forall i | 0 <= i < |kids| ensures Stands(ino, {}, ino[Root].kids[i], kids[i]) {
      assert FilledAt(ino0, ino, Root, kids, i);
      StandsFrame(ino, ino0.Keys, ino[Root].kids[i], kids[i], ino, {});
    }
  }

  // ---------- What a tree needs ----------

  /** The number of blocks for `len` bytes. */
  function Blocks(len: nat): nat {
    (len + BLKSIZE - 1) / BLKSIZE
  }

  /**
   The blocks that writefile needs: those of the file, its indirect block, and one in which it
   notices the end of a file that fills its last block.
   */
  function Room(len: nat): nat {
    Blocks(len) + (if Blocks(len) > NDIRECT then 1 else 0) + (if len % BLKSIZE == 0 then 1 else 0)
  }

  /** The blocks that a file of `len` bytes keeps. */
  function FileBlocks(len: nat): nat {
    Blocks(len) + if Blocks(len) > NDIRECT then 1 else 0
  }

  /** The blocks of a directory after one more entry. */
  function DirBlocks(kids: nat, blks: nat): nat {
    if kids < BLKFILES * blks then blks else blks + 1
  }

  /** The blocks that allocfile takes. */
  function EntryRoom(kids: nat, blks: nat): nat {
    if kids < BLKFILES * blks then 0 else if blks == NDIRECT then 2 else 1
  }

  /** The slots that allocfile holds at once: the directory block, and an indirect block from the eleventh on. */
  function EntrySlots(kids: nat, blks: nat): nat {
    if blks > NDIRECT || (blks == NDIRECT && kids >= BLKFILES * blks) then 2 else 1
  }

  /** Allocfile finds a blank place or may add a block, while `held` blocks are held. */
  predicate CanAlloc(kids: nat, blks: nat, nextb: nat, held: nat, nblocks: nat) {
    && (kids < BLKFILES * blks || (blks < NINDIRECT && nextb + EntryRoom(kids, blks) <= nblocks))
    && held + EntrySlots(kids, blks) <= BlockCache.SLOTS
  }

  /** The slots that writefile holds at once: the directory block, the data block, and an indirect block. */
  function FileSlots(len: nat): nat {
    if Blocks(len) > NDIRECT then 3 else 2
  }

  /** Writefile can write a file of `len` bytes from block `nextb` on while `held` blocks are held. */
  predicate CanWrite(len: nat, nextb: nat, held: nat, nblocks: nat) {
    Blocks(len) <= NINDIRECT && nextb + Room(len) <= nblocks && held + FileSlots(len) - 1 <= BlockCache.SLOTS
  }

  /**
   The counter after `t` has been written behind `kids` entries in `blks` blocks while `held` blocks
   are held, or None where the program aborts.
   */
  function AfterOne(t: Tree, kids: nat, blks: nat, nextb: nat, held: nat, nblocks: nat): Option<nat>
    decreases t, 1
  {
    if !CanAlloc(kids, blks, nextb, held, nblocks) then None
    else
      var b := nextb + EntryRoom(kids, blks);
      match t
      case RegFile(_, bytes) =>
        if CanWrite(|bytes|, b, held + 1, nblocks) then Some(b + FileBlocks(|bytes|)) else None
      case Directory(_, ts) => After(ts, 0, 0, b, held + 1, nblocks)
  }

  function After(ts: seq<Tree>, kids: nat, blks: nat, nextb: nat, held: nat, nblocks: nat): Option<nat>
    decreases ts, 0
  {
    if ts == [] then Some(nextb)
    else
      var b := AfterOne(ts[0], kids, blks, nextb, held, nblocks);
      if b.None? then None else After(ts[1..], kids + 1, DirBlocks(kids, blks), b.value, held, nblocks)
  }

  lemma AfterStep(ts: seq<Tree>, i: nat, kids: nat, blks: nat, nextb: nat, held: nat, nblocks: nat)
    requires i < |ts|
    ensures var b := AfterOne(ts[i], kids, blks, nextb, held, nblocks);
      After(ts[i..], kids, blks, nextb, held, nblocks) ==
        if b.None? then None else After(ts[i + 1..], kids + 1, DirBlocks(kids, blks), b.value, held, nblocks)
  {
    assert ts[i..][1..] == ts[i + 1..];
  }

  /** A file below `n` nested directories. */
  function Nest(n: nat, bytes: seq<int>): Tree {
    if n == 0 then RegFile("f", bytes) else Directory("d", [Nest(n - 1, bytes)])
  }

  /** Each directory above a file takes a block of the disk and a slot of the cache. */
  lemma {:induction false} NestingLimit(n: nat, bytes: seq<int>, nextb: nat, held: nat, nblocks: nat)
    ensures After([Nest(n, bytes)], 0, 0, nextb, held, nblocks).Some? <==>
      CanWrite(|bytes|, nextb + n + 1, held + n + 1, nblocks)
    decreases n
  {
    if n > 0 {
      NestingLimit(n - 1, bytes, nextb + 1, held + 1, nblocks);
    }
  }

  /**
   On a disk of 1024 blocks a byte fits below fourteen directories but not below fifteen, and eleven
   blocks not below fourteen.
   */
  lemma FifteenIsTooDeep(bytes: seq<int>)
    requires Blocks(|bytes|) > NDIRECT
    ensures After([Nest(15, [0])], 0, 0, 3, 0, 1024).None? && After([Nest(14, [0])], 0, 0, 3, 0, 1024).Some?
    ensures After([Nest(14, bytes)], 0, 0, 3, 0, 1024).None?
  {
    NestingLimit(15, [0], 3, 0, 1024);
    NestingLimit(14, [0], 3, 0, 1024);
    NestingLimit(14, bytes, 3, 0, 1024);
  }

  /** A round of writefile's loop can write `n` bytes as block `k` of the file. */
  predicate CanExtend(n: nat, k: nat, nextb: nat, held: nat, nblocks: nat) {
    && nextb + (if n > 0 && k == NDIRECT then 2 else 1) <= nblocks && (n > 0 ==> k < NINDIRECT)
    && held + (if n > 0 && k >= NDIRECT then 2 else 1) <= BlockCache.SLOTS
  }

  /** A file can be written if and only if every round can. */
  lemma RoundDecides(len: nat, k: nat, n: nat, nextb: nat, held: nat, nblocks: nat)
    requires BLKSIZE * k <= len && n == if len - BLKSIZE * k < BLKSIZE then len - BLKSIZE * k else BLKSIZE
    requires k <= NINDIRECT && (k > NDIRECT ==> held + 2 <= BlockCache.SLOTS)
    ensures var b := nextb + k + if k > NDIRECT then 1 else 0;
      && (CanWrite(len, nextb, held, nblocks) ==> CanExtend(n, k, b, held, nblocks))
      && (CanExtend(n, k, b, held, nblocks) && n < BLKSIZE ==>
            && CanWrite(len, nextb, held, nblocks)
            && FileBlocks(len) ==
                 (if n == 0 then k else k + 1) + if k >= NDIRECT && (n > 0 || k > NDIRECT) then 1 else 0)
  {
  }

  lemma NextChunk(done: seq<int>, bytes: seq<int>, k: nat, chunk: seq<int>)
    requires BLKSIZE * k <= |bytes| && done == bytes[..BLKSIZE * k]
    requires chunk == bytes[BLKSIZE * k..][..if |bytes| - BLKSIZE * k < BLKSIZE then |bytes| - BLKSIZE * k else BLKSIZE]
    ensures done + chunk == if |chunk| < BLKSIZE then bytes else bytes[..BLKSIZE * (k + 1)]
  {
  }

  /** The records while the file at `e` is being written and `k` whole blocks are done. */
  ghost predicate Writing(ino1: map<Loc, Ino>, ino: map<Loc, Ino>, e: Loc, name: string, bytes: seq<int>, k: nat) {
    && e in ino1 && e in ino && ino == ino1[e := ino[e]] && BLKSIZE * k <= |bytes|
    && ino[e].name == name && !ino[e].isDir && !ino[e].done && ino[e].kids == [] && |ino[e].blks| == k
    && ino[e].bytes == bytes[..BLKSIZE * k]
  }

  /** The last block of a directory, in which allocfile looks for a blank place. */
  lemma LastBlock(d: Disk, g: Ghost, l: Loc)
    requires Inv(d, g) && l in g.ino && g.ino[l].isDir && |g.ino[l].blks| > 0
    ensures var k := |g.ino[l].blks| - 1; var b := g.ino[l].blks[k];
      && RecIn(d, l) && BlockNo(d, Rec(d, l), k) == Some(b) && Rec(d, l).size == BLKSIZE * (k + 1)
      && b in d.blocks && d.blocks[b].Dir? && |d.blocks[b].files| == BLKFILES
      && forall i: nat :: i < BLKFILES ==> (d.blocks[b].files[i].name == "" <==> BLKFILES * k + i >= |g.ino[l].kids|)
  {
    var k := |g.ino[l].blks| - 1;
    var b := g.ino[l].blks[k];
    assert InoOk(d, g, l) && BlkOk(d, g, l, k);
    forall i: nat | i < BLKFILES ensures d.blocks[b].files[i].name == "" <==> BLKFILES * k + i >= |g.ino[l].kids| {
      var j := BLKFILES * k + i;
      assert KidOk(d, g, l, j) && j / BLKFILES == k && j % BLKFILES == i;
      assert InoOk(d, g, Entry(b, i));
    }
  }
}
