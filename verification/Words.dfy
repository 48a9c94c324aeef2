/** 32-bit words in memory, little-endian. */
module Words {

  const U32: nat := 0x1_0000_0000

  type byte = x: int | 0 <= x < 256

  function Get32(s: seq<byte>, p: nat): nat
    requires p + 4 <= |s|
  {
    s[p] as int + 0x100 * (s[p + 1] as int) + 0x1_0000 * (s[p + 2] as int) + 0x100_0000 * (s[p + 3] as int)
  }

  function Put32(s: seq<byte>, p: nat, v: nat): (r: seq<byte>)
    requires p + 4 <= |s|
    ensures |r| == |s|
  {
    s[p := v % 0x100][p + 1 := v / 0x100 % 0x100][p + 2 := v / 0x1_0000 % 0x100][p + 3 := v / 0x100_0000 % 0x100]
  }

  lemma BytesOfWord(v: nat)
    requires v < U32
    ensures v ==
      v % 0x100 + 0x100 * (v / 0x100 % 0x100) + 0x1_0000 * (v / 0x1_0000 % 0x100)
        + 0x100_0000 * (v / 0x100_0000 % 0x100)
  {
    var a, b, c := v / 0x100, v / 0x1_0000, v / 0x100_0000;
    assert b == a / 0x100 && c == b / 0x100;
  }

  lemma Get32Put32(s: seq<byte>, p: nat, v: nat, q: nat)
    requires p + 4 <= |s| && q + 4 <= |s| && v < U32 && (p == q || p + 4 <= q || q + 4 <= p)
    ensures Get32(Put32(s, p, v), q) == if p == q then v else Get32(s, q)
  {
    if p == q {
      BytesOfWord(v);
    }
  }
}
