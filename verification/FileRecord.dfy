/**
 struct File (inc/fs.h) in its 256 bytes, and the name that allocfile copies into it
 (fs/fsformat.c) without looking at its length.
 */
module FileRecord {
  import opened Words
  import opened DiskImage

  const SIZEOF_FILE: nat := 256
  const F_SIZE: nat := 128
  const F_TYPE: nat := 132
  const F_DIRECT: nat := 136
  const F_INDIRECT: nat := 176

  function NameBytes(name: string): (s: seq<byte>)
    requires IsName(name)
    ensures |s| == |name| && forall i :: 0 <= i < |s| ==> s[i] == name[i] as int && s[i] > 0
  {
    seq(|name|, i requires 0 <= i < |name| => name[i] as int)
  }

  /** The C string at the start of `rec`. */
  function CString(rec: seq<byte>): (n: nat)
    ensures n <= |rec| && (n < |rec| ==> rec[n] == 0) && forall i :: 0 <= i < n ==> rec[i] != 0
  {
    if rec == [] || rec[0] == 0 then 0 else 1 + CString(rec[1..])
  }

  function NameIn(rec: seq<byte>): string {
    seq(CString(rec), i requires 0 <= i < CString(rec) => rec[i] as char)
  }

  /** strcpy to the start of `rec`. */
  function StrCpy(rec: seq<byte>, s: seq<byte>): (r: seq<byte>)
    requires |s| < |rec|
    ensures |r| == |rec|
  {
    s + [0] + rec[|s| + 1..]
  }

  /** The copy leaves the other fields of every record alone if and only if the name has fewer than 128 characters. */
  lemma CopyStaysInFieldIff(s: seq<byte>)
    requires |s| < SIZEOF_FILE
    ensures (forall rec: seq<byte> :: |rec| == SIZEOF_FILE ==> StrCpy(rec, s)[MAXNAMELEN..] == rec[MAXNAMELEN..]) <==>
      |s| < MAXNAMELEN
  {
    if |s| < MAXNAMELEN {
      forall rec: seq<byte> | |rec| == SIZEOF_FILE ensures StrCpy(rec, s)[MAXNAMELEN..] == rec[MAXNAMELEN..] {}
    } else {
      var x: byte := if |s| == MAXNAMELEN then 1 else if s[MAXNAMELEN] == 0 then 1 else 0;
      var rec: seq<byte> := seq(SIZEOF_FILE, _ => x);
      assert StrCpy(rec, s)[MAXNAMELEN..][0] != rec[MAXNAMELEN..][0];
    }
  }

  /** The stores to f_direct from entry `k` on. */
  function PutDirect(rec: seq<byte>, ds: seq<nat>, k: nat): (r: seq<byte>)
    requires |rec| == SIZEOF_FILE && k <= |ds| <= NDIRECT
    ensures |r| == SIZEOF_FILE
    decreases |ds| - k
  {
    if k == |ds| then rec else PutDirect(Put32(rec, F_DIRECT + 4 * k, ds[k]), ds, k + 1)
  }

  /** The record of a new file in the order of the stores: the name, and then everything else. */
  function Record(f: File): (r: seq<byte>)
    requires IsName(f.name) && |f.name| < SIZEOF_FILE && |f.direct| == NDIRECT
    ensures |r| == SIZEOF_FILE
  {
    var r0 := StrCpy(seq(SIZEOF_FILE, _ => 0), NameBytes(f.name));
    var r1 := Put32(r0, F_TYPE, if f.isDir then 1 else 0);
    Put32(Put32(PutDirect(r1, f.direct, 0), F_INDIRECT, f.indirect), F_SIZE, f.size)
  }

  /** What the reader finds in a record. */
  function Parse(rec: seq<byte>): File
    requires |rec| == SIZEOF_FILE
  {
    File(NameIn(rec), Get32(rec, F_SIZE), Get32(rec, F_TYPE) == 1,
      seq(NDIRECT, k requires 0 <= k < NDIRECT => Get32(rec, F_DIRECT + 4 * k)),
         Get32(rec, F_INDIRECT))
  }

  /** The numbers of the record fit their words. */
  predicate InWords(f: File) {
    |f.direct| == NDIRECT && f.size < U32 && f.indirect < U32 && forall k :: 0 <= k < NDIRECT ==> f.direct[k] < U32
  }

  lemma {:induction false} DirectStored(rec: seq<byte>, ds: seq<nat>, k: nat, p: nat)
    requires |rec| == SIZEOF_FILE && k <= |ds| == NDIRECT && p < SIZEOF_FILE
      && (p < F_DIRECT + 4 * k || p >= F_INDIRECT)
    ensures PutDirect(rec, ds, k)[p] == rec[p]
    decreases |ds| - k
  {
    if k < |ds| {
      DirectStored(Put32(rec, F_DIRECT + 4 * k, ds[k]), ds, k + 1, p);
    }
  }

  lemma {:induction false} DirectReads(rec: seq<byte>, ds: seq<nat>, k: nat, j: nat)
    requires |rec| == SIZEOF_FILE && k <= j < |ds| == NDIRECT && ds[j] < U32
    ensures Get32(PutDirect(rec, ds, k), F_DIRECT + 4 * j) == ds[j]
    decreases |ds| - k
  {
    var rec' := Put32(rec, F_DIRECT + 4 * k, ds[k]);
    if k == j {
      var q := F_DIRECT + 4 * j;
      Get32Put32(rec, q, ds[j], q);
      DirectStored(rec', ds, k + 1, q);
      DirectStored(rec', ds, k + 1, q + 1);
      DirectStored(rec', ds, k + 1, q + 2);
      DirectStored(rec', ds, k + 1, q + 3);
    } else {
      DirectReads(rec', ds, k + 1, j);
    }
  }

  /** The first 128 bytes are those of the name, and the next is the lowest of the size. */
  lemma RecordStarts(f: File, p: nat)
    requires IsName(f.name) && |f.name| < SIZEOF_FILE && |f.direct| == NDIRECT && p <= F_SIZE
    ensures Record(f)[p] ==
      if p == F_SIZE then f.size % 0x100 else if p < |f.name| then f.name[p] as int else 0
  {
    var r0 := StrCpy(seq(SIZEOF_FILE, _ => 0), NameBytes(f.name));
    var r1 := Put32(r0, F_TYPE, if f.isDir then 1 else 0);
    DirectStored(r1, f.direct, 0, p);
  }

  lemma RecordNumbers(f: File)
    requires IsName(f.name) && |f.name| < SIZEOF_FILE && InWords(f)
    ensures Get32(Record(f), F_SIZE) == f.size && Get32(Record(f), F_INDIRECT) == f.indirect
    ensures Get32(Record(f), F_TYPE) == if f.isDir then 1 else 0
    ensures forall k: nat :: k < NDIRECT ==> Get32(Record(f), F_DIRECT + 4 * k) == f.direct[k]
  {
    var r0 := StrCpy(seq(SIZEOF_FILE, _ => 0), NameBytes(f.name));
    var r1 := Put32(r0, F_TYPE, if f.isDir then 1 else 0);
    var r2 := PutDirect(r1, f.direct, 0);
    var r3 := Put32(r2, F_INDIRECT, f.indirect);
    Get32Put32(r0, F_TYPE, if f.isDir then 1 else 0, F_TYPE);
    forall p | F_TYPE <= p < F_TYPE + 4 ensures r2[p] == r1[p] { DirectStored(r1, f.direct, 0, p); }
    Get32Put32(r2, F_INDIRECT, f.indirect, F_INDIRECT);
    Get32Put32(r2, F_INDIRECT, f.indirect, F_TYPE);
    Get32Put32(r3, F_SIZE, f.size, F_SIZE);
    Get32Put32(r3, F_SIZE, f.size, F_TYPE);
    Get32Put32(r3, F_SIZE, f.size, F_INDIRECT);
    forall k: nat | k < NDIRECT ensures Get32(Record(f), F_DIRECT + 4 * k) == f.direct[k] {
      DirectReads(r1, f.direct, 0, k);
      Get32Put32(r2, F_INDIRECT, f.indirect, F_DIRECT + 4 * k);
      Get32Put32(r3, F_SIZE, f.size, F_DIRECT + 4 * k);
    }
  }

  lemma NameReads(f: File)
    requires IsName(f.name) && |f.name| < MAXNAMELEN && |f.direct| == NDIRECT
    ensures NameIn(Record(f)) == f.name
  {
    var r, n := Record(f), |f.name|;
    forall p: nat | p <= n ensures r[p] == if p < n then f.name[p] as int else 0 { RecordStarts(f, p); }
    assert r[n] == 0 && CString(r) == n;
  }

  /** A record whose name fits its field reads back. */
  lemma RecordReadsBack(f: File)
    requires NameFits(f.name) && InWords(f)
    ensures Parse(Record(f)) == f
  {
    RecordNumbers(f);
    NameReads(f);
    var ds := Parse(Record(f)).direct;
    forall k: nat | k < NDIRECT ensures ds[k] == f.direct[k] {}
  }

  /** A longer name is lost in a record whose size has another lowest byte than the name there. */
  lemma LongNameIsLost(f: File)
    requires IsName(f.name) && MAXNAMELEN <= |f.name| < SIZEOF_FILE && |f.direct| == NDIRECT
    requires f.size % 0x100 != if |f.name| == MAXNAMELEN then 0 else f.name[MAXNAMELEN] as int
    ensures NameIn(Record(f)) != f.name
  {
    var r := Record(f);
    RecordStarts(f, F_SIZE);
    assert |NameIn(r)| == CString(r);
    if CString(r) > MAXNAMELEN {
      assert NameIn(r)[MAXNAMELEN] == r[MAXNAMELEN] as char;
    }
  }

  /** A name reads back whatever the other fields are if and only if it has fewer than 128 characters. */
  lemma NameReadsBackIff(name: string)
    requires IsName(name) && |name| < SIZEOF_FILE
    ensures (forall f: File :: f.name == name && InWords(f) ==> NameIn(Record(f)) == name) <==> |name| < MAXNAMELEN
  {
    if |name| < MAXNAMELEN {
      forall f: File | f.name == name && InWords(f) ensures NameIn(Record(f)) == name { NameReads(f); }
    } else {
      var f := File(name, if |name| == MAXNAMELEN then 1 else 0, false, seq(NDIRECT, _ => 0), 0);
      LongNameIsLost(f);
      assert f.name == name && InWords(f);
    }
  }
}
