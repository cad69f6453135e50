/** Disk blocks as byte strings, the 32-bit words stored inside them, and the
    weighted byte sum that the log uses as its checksum. */
module Blocks {
  const BSIZE: nat := 512
  const WORD: nat := 0x1_0000_0000

  type byte = x: int | 0 <= x < 256
  type Block = s: seq<byte> | |s| == BSIZE witness seq(BSIZE, i => 0)

  function ZeroBlock(): Block {
    seq(BSIZE, i => 0)
  }

  /** The little-endian word at byte offset `off`. */
  function Get32(b: Block, off: nat): nat
    requires off + 4 <= BSIZE
  {
    b[off] as int + 256 * (b[off + 1] as int) + 65536 * (b[off + 2] as int) + 16777216 * (b[off + 3] as int)
  }

  /** Stores `v` as a little-endian word at byte offset `off`. */
  function Put32(b: Block, off: nat, v: nat): Block
    requires off + 4 <= BSIZE
    requires v < WORD
  {
    b[off := v % 256][off + 1 := v / 256 % 256][off + 2 := v / 65536 % 256][off + 3 := v / 16777216]
  }

  lemma WordRoundTrip(b: Block, off: nat, v: nat)
    requires off + 4 <= BSIZE
    requires v < WORD
    ensures Get32(Put32(b, off, v), off) == v
  {
    var hi := v / 256;
    assert v / 65536 == hi / 256;
    assert v / 16777216 == hi / 256 / 256;
  }

  /** The low byte comes first. */
  lemma WordBytes(b: Block, off: nat, v: nat)
    requires off + 4 <= BSIZE && v < WORD
    ensures var c := Put32(b, off, v);
      && c[off] == v % 0x100 && c[off + 1] == v / 0x100 % 0x100
      && c[off + 2] == v / 0x1_0000 % 0x100 && c[off + 3] == v / 0x100_0000
      && forall i :: 0 <= i < BSIZE && !(off <= i < off + 4) ==> c[i] == b[i]
  {
  }

  lemma WordFrame(b: Block, off: nat, v: nat, other: nat)
    requires off + 4 <= BSIZE && other + 4 <= BSIZE
    requires other + 4 <= off || off + 4 <= other
    requires v < WORD
    ensures Get32(Put32(b, off, v), other) == Get32(b, other)
  {
  }

  /** The sum of (i+1) * b[i] over the first `j` bytes, without wrap-around. */
  function Weighted(b: Block, j: nat): nat
    requires j <= BSIZE
  {
    if j == 0 then 0 else Weighted(b, j - 1) + j * b[j - 1]
  }

  function BlockSum(b: Block): nat {
    Weighted(b, BSIZE)
  }

  function BlockSums(bs: seq<Block>): nat {
    if bs == [] then 0 else BlockSums(bs[..|bs| - 1]) + BlockSum(bs[|bs| - 1])
  }

  lemma {:induction false} WeightedBound(b: Block, j: nat)
    requires j <= BSIZE
    ensures 2 * Weighted(b, j) <= 255 * j * (j + 1)
  {
    if j > 0 {
      WeightedBound(b, j - 1);
      assert j * b[j - 1] <= j * 255;
      assert 255 * j * (j + 1) == 255 * (j - 1) * j + 2 * (255 * j);
    }
  }

  /** A block contributes at most 255 * 512 * 513 / 2 to the sum. */
  lemma {:induction false} BlockSumsBound(bs: seq<Block>)
    ensures BlockSums(bs) <= 33488640 * |bs|
  {
    if bs != [] {
      BlockSumsBound(bs[..|bs| - 1]);
      WeightedBound(bs[|bs| - 1], BSIZE);
    }
  }

  lemma {:induction false} BlockSumsAppend(bs: seq<Block>, cs: seq<Block>)
    ensures BlockSums(bs + cs) == BlockSums(bs) + BlockSums(cs)
  {
    if cs == [] {
      assert bs + cs == bs;
    } else {
      var k := |cs| - 1;
      assert (bs + cs)[..|bs + cs| - 1] == bs + cs[..k];
      BlockSumsAppend(bs, cs[..k]);
    }
  }

  /** Changing one byte by d moves the weighted sum by exactly (i+1) * d. */
  lemma {:induction false} WeightedUpdate(b: Block, i: nat, v: byte, j: nat)
    requires i < BSIZE && j <= BSIZE
    ensures Weighted(b[i := v], j) == Weighted(b, j) + (if i < j then (i + 1) * (v - b[i]) else 0)
  {
    if j > 0 {
      WeightedUpdate(b, i, v, j - 1);
      if i == j - 1 {
        assert j * v == j * b[i] + j * (v - b[i]);
      }
    }
  }

  lemma {:induction false} WeightedZero(j: nat)
    requires j <= BSIZE
    ensures Weighted(ZeroBlock(), j) == 0
  {
    if j > 0 {
      WeightedZero(j - 1);
    }
  }

  lemma BlockSumsUpdate(bs: seq<Block>, k: nat, b: Block)
    requires k < |bs|
    ensures BlockSums(bs[k := b]) == BlockSums(bs) - BlockSum(bs[k]) + BlockSum(b)
  {
    var pre, post := bs[..k], bs[k + 1..];
    assert bs == pre + [bs[k]] + post;
    assert bs[k := b] == pre + [b] + post;
    BlockSumsAppend(pre + [bs[k]], post);
    BlockSumsAppend(pre + [b], post);
    BlockSumsAppend(pre, [bs[k]]);
    BlockSumsAppend(pre, [b]);
    assert [bs[k]][..0] == [] && [b][..0] == [];
    assert BlockSums([bs[k]]) == BlockSum(bs[k]);
    assert BlockSums([b]) == BlockSum(b);
  }

  /** A one-byte change by d at offset j of a summed block alters the stored value,
      the sum modulo 512, exactly when 512 does not divide (j+1) * d. */
  lemma OneByteChangeCaught(bs: seq<Block>, k: nat, j: nat, v: byte)
    requires k < |bs| && j < BSIZE
    ensures BlockSums(bs[k := bs[k][j := v]]) % BSIZE != BlockSums(bs) % BSIZE
       <==> ((j + 1) * (v - bs[k][j])) % BSIZE != 0
  {
    BlockSumsUpdate(bs, k, bs[k][j := v]);
    WeightedUpdate(bs[k], j, v, BSIZE);
    ModShift(BlockSums(bs), (j + 1) * (v - bs[k][j]));
  }

  lemma ModShift(a: int, x: int)
    ensures (a + x) % 512 == a % 512 <==> x % 512 == 0
  {
  }
}
