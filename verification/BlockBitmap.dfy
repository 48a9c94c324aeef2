/** The free-block bitmap as fs/fs.c uses it: block_is_free, free_block and alloc_block_num. */
module BlockBitmap {
  import opened DiskImage
  import opened ImageStore
  import opened ImageFormat
  import opened ImageTree

  /** Word `i` of the bitmap is zero. */
  predicate ZeroWord(bits: seq<bool>, i: nat)
    requires 32 * i + 32 <= |bits|
  {
    true !in bits[32 * i..32 * i + 32]
  }

  /** All blocks are in use whose bits are in the words that alloc_block_num searches. */
  ghost predicate NoDisk(used: set<nat>, nblocks: nat) {
    forall i: nat :: i < 32 * (nblocks / 32) ==> i in used
  }

  ghost function Below(n: nat): (s: set<nat>)
    ensures forall i: nat :: i in s <==> i < n
  {
    if n == 0 then {} else Below(n - 1) + {n - 1}
  }

  /** So alloc_block_num finds a block whenever one is free exactly on disks whose size is a multiple of 32. */
  lemma EveryFreeBlockIsSeenIff(nblocks: nat)
    ensures (forall used: set<nat> :: NoDisk(used, nblocks) ==> forall i: nat :: i < nblocks ==> i in used) <==>
      nblocks % 32 == 0
  {
    if nblocks % 32 != 0 {
      var used := Below(nblocks - 1);
      assert NoDisk(used, nblocks) && nblocks - 1 !in used;
    }
  }

  class Bitmap {
    const nblocks: nat
    const bits: array<bool>
    /** The blocks in use. */
    ghost var used: set<nat>

    ghost predicate Valid()
      reads this, bits
    {
      && nblocks > 0 && bits.Length == BitBlocks(nblocks) * BLKBITSIZE
      && forall i :: 0 <= i < nblocks ==> (bits[i] <==> i !in used)
    }

    /** read_bitmap: the bitmap blocks of an image. */
    constructor (file: seq<Content>)
      requires 0 < |file| && forall j: nat :: j < BitBlocks(|file|) ==> BitmapBlock(BlocksOf(file), j)
      ensures Valid() && fresh(bits) && nblocks == |file|
      ensures forall i: nat :: i in used <==> i < nblocks && !BitSet(BlocksOf(file), i)
    {
      nblocks := |file|;
      bits := new bool[BitBlocks(|file|) * BLKBITSIZE]((i: nat) => BitSet(BlocksOf(file), i));
      used := set i: nat | i < |file| && !BitSet(BlocksOf(file), i);
    }

    /** block_is_free */
    method BlockIsFree(b: nat) returns (r: bool)
      requires Valid()
      ensures r <==> b < nblocks && b !in used
    {
      r := b < nblocks && bits[b];
    }

    /** free_block; not `ok` stands for its panic. */
    method FreeBlock(b: nat) returns (ok: bool)
      requires Valid() && b < bits.Length
      modifies this, bits
      ensures Valid() && (ok <==> b != 0) && used == if ok then old(used) - {b} else old(used)
    {
      if b == 0 {
        return false;
      }
      bits[b] := true;
      used := used - {b};
      ok := true;
    }

    /** alloc_block_num: the lowest free block, or -1 for -E_NO_DISK. */
    method AllocBlockNum() returns (r: int)
      requires Valid()
      modifies this, bits
      ensures Valid() && (r == -1 <==> NoDisk(old(used), nblocks))
      ensures r == -1 ==> used == old(used)
      ensures r != -1 ==> 0 <= r < nblocks && r !in old(used) && used == old(used) + {r}
      ensures r != -1 ==> forall i :: 0 <= i < r ==> i in old(used)
    {
      var i := 0;
      while i < nblocks / 32 && ZeroWord(bits[..], i)
        invariant 0 <= i <= nblocks / 32
        invariant forall j :: 0 <= j < 32 * i ==> !bits[j]
      {
        forall j | 32 * i <= j < 32 * i + 32 ensures !bits[j] {
          assert bits[..][32 * i..32 * i + 32][j - 32 * i] == bits[j];
        }
        i := i + 1;
      }
      if i == nblocks / 32 {
        return -1;
      }
      var j := 0;
      while j < 32 && !bits[i * 32 + j]
        invariant 0 <= j <= 32
        invariant forall m :: 0 <= m < i * 32 + j ==> !bits[m]
      {
        j := j + 1;
      }
      assert j < 32 by {
        var k :| 0 <= k < 32 && bits[..][32 * i..32 * i + 32][k];
        assert bits[32 * i + k];
      }
      r := i * 32 + j;
      bits[r] := false;
      used := used + {r as nat};
    }
  }

  /** The bits of a disk of 33 blocks of which only the last is free. */
  function OneLeft(): seq<Content> {
    seq(33, k => if k == 2 then Bits(seq(BLKBITSIZE, i => i == 32)) else BlankData())
  }

  /** alloc_block_num finds no block on it. */
  method LastBlockIsOverlooked() returns (m: Bitmap, r: int)
    ensures m.Valid() && m.nblocks == 33 && 32 !in m.used && r == -1
  {
    m := new Bitmap(OneLeft());
    assert forall i: nat :: i < 33 ==> (i in m.used <==> i != 32);
    r := m.AllocBlockNum();
  }

  /**
   On the image that fsformat has written exactly the blocks below its counter are in use, among them
   those that read_bitmap asserts to be.
   */
  method MountFormatted(nblocks: nat, kids: seq<Tree>) returns (m: Bitmap?, nextb: nat)
    requires forall i :: 0 <= i < |kids| ==> AllNamed(kids[i])
    ensures m != null ==> m.Valid() && m.nblocks == nblocks && 2 + BitBlocks(nblocks) <= nextb
    ensures m != null ==> forall i: nat :: i in m.used <==> i < nextb
    ensures m != null <==> 3 <= nblocks <= 1024 && After(kids, 0, 0, 3, 0, nblocks).Some?
  {
    var file;
    file, nextb := Format(nblocks, kids);
    m := null;
    if file != null {
      m := new Bitmap(file[..]);
    }
  }
}
