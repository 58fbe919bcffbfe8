/** Bytes, and little-endian numbers of a fixed width. */
module Bytes {

  type byte = b: int | 0 <= b < 256

  function Pow256(k: nat): nat {
    if k == 0 then 1 else 256 * Pow256(k - 1)
  }

  /** The low k bytes of n. */
  function Put(n: nat, k: nat): (bs: seq<byte>)
    ensures |bs| == k
  {
    if k == 0 then [] else [n % 256] + Put(n / 256, k - 1)
  }

  function Get(bs: seq<byte>): nat {
    if bs == [] then 0 else bs[0] + 256 * Get(bs[1..])
  }

  lemma {:induction false} GetPut(n: nat, k: nat)
    requires n < Pow256(k)
    ensures Get(Put(n, k)) == n
  {
    if k > 0 { GetPut(n / 256, k - 1); }
  }

  lemma {:induction false} PutGet(bs: seq<byte>)
    ensures Put(Get(bs), |bs|) == bs
  {
    if bs != [] {
      PutGet(bs[1..]);
      LowByte(bs[0], Get(bs[1..]));
      assert bs == [bs[0]] + bs[1..];
    }
  }

  lemma LowByte(b: byte, rest: nat)
    ensures (b + 256 * rest) % 256 == b && (b + 256 * rest) / 256 == rest
  {
  }

  lemma {:induction false} PutZero(k: nat)
    ensures Put(0, k) == Repeat(0, k)
  {
    if k > 0 { PutZero(k - 1); }
  }

  lemma Pow256Values()
    ensures Pow256(4) == 0x1_0000_0000
    ensures Pow256(8) == 0x1_0000_0000_0000_0000
  {
    assert Pow256(2) == 0x1_0000;
    assert Pow256(4) == 256 * (256 * Pow256(2));
    assert Pow256(8) == 256 * (256 * (256 * (256 * Pow256(4))));
  }

  function Repeat(b: byte, n: nat): (bs: seq<byte>)
    ensures |bs| == n
  {
    seq(n, i => b)
  }

  /** The bytes with w stored at an offset. */
  function Splice(bs: seq<byte>, off: nat, w: seq<byte>): (r: seq<byte>)
    requires off + |w| <= |bs|
    ensures |r| == |bs|
  {
    bs[..off] + w + bs[off + |w|..]
  }

  /** Two stores side by side are one. */
  lemma SpliceNext(bs: seq<byte>, off: nat, v: seq<byte>, w: seq<byte>)
    requires off + |v| + |w| <= |bs|
    ensures Splice(Splice(bs, off, v), off + |v|, w) == Splice(bs, off, v + w)
  {
  }

  /** The least byte comes first. */
  lemma PutIs(n: nat)
    requires n < 0x1_0000_0000
    ensures Put(n, 4) == [n % 256, n / 256 % 256, n / 0x1_0000 % 256, n / 0x100_0000]
  {
    assert Put(n, 4) == [n % 256] + Put(n / 256, 3);
    assert n / 256 / 256 == n / 0x1_0000 && n / 256 / 256 / 256 == n / 0x100_0000;
    assert Put(n / 0x100_0000, 1) == [n / 0x100_0000 % 256] + [];
    assert Put(n / 0x1_0000, 2) == [n / 0x1_0000 % 256] + Put(n / 0x100_0000, 1);
    assert Put(n / 256, 3) == [n / 256 % 256] + Put(n / 0x1_0000, 2);
  }

  /** A store changes the bytes stored to, and no others. */
  lemma SpliceAt(bs: seq<byte>, off: nat, w: seq<byte>, i: nat)
    requires off + |w| <= |bs| && i < |bs|
    ensures Splice(bs, off, w)[i] == if off <= i < off + |w| then w[i - off] else bs[i]
  {
  }
}
