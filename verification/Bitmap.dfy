/** The free map: one bit per disk block, eight bits per byte, 4096 per bitmap block. */
module Bitmap {
  import opened Blocks

  /** Bits per bitmap block. */
  const BPB: nat := 4096

  // ---- One byte --------------------------------------------------------------

  /** (x & (1 << k)) != 0 */
  predicate Bit(x: nat, k: nat) {
    if k == 0 then x % 2 == 1 else Bit(x / 2, k - 1)
  }

  /** x | (1 << k) */
  function WithBit(x: nat, k: nat): nat {
    if k == 0 then x / 2 * 2 + 1 else 2 * WithBit(x / 2, k - 1) + x % 2
  }

  /** x & ~(1 << k) */
  function WithoutBit(x: nat, k: nat): nat {
    if k == 0 then x / 2 * 2 else 2 * WithoutBit(x / 2, k - 1) + x % 2
  }

  function Pow2(w: nat): nat {
    if w == 0 then 1 else 2 * Pow2(w - 1)
  }

  lemma {:induction false} BitBounds(x: nat, k: nat, w: nat)
    requires k < w && x < Pow2(w)
    ensures WithBit(x, k) < Pow2(w) && WithoutBit(x, k) < Pow2(w)
  {
    if k > 0 {
      BitBounds(x / 2, k - 1, w - 1);
    }
  }

  lemma ByteBounds(x: byte, k: nat)
    requires k < 8
    ensures WithBit(x, k) < 256 && WithoutBit(x, k) < 256
  {
    assert Pow2(4) == 16 && Pow2(8) == 256;
    BitBounds(x, k, 8);
  }

  lemma {:induction false} WithBitReads(x: nat, k: nat, j: nat)
    ensures Bit(WithBit(x, k), j) <==> j == k || Bit(x, j)
  {
    if k > 0 && j > 0 {
      WithBitReads(x / 2, k - 1, j - 1);
      assert WithBit(x, k) / 2 == WithBit(x / 2, k - 1);
    }
  }

  lemma {:induction false} WithoutBitReads(x: nat, k: nat, j: nat)
    ensures Bit(WithoutBit(x, k), j) <==> j != k && Bit(x, j)
  {
    if k > 0 && j > 0 {
      WithoutBitReads(x / 2, k - 1, j - 1);
      assert WithoutBit(x, k) / 2 == WithoutBit(x / 2, k - 1);
    }
  }

  /** Setting bit k adds 2^k unless it is there, and clearing it takes 2^k away if it is. */
  lemma {:induction false} BitIsPower(x: nat, k: nat)
    ensures WithBit(x, k) == x + if Bit(x, k) then 0 else Pow2(k)
    ensures WithoutBit(x, k) == x - if Bit(x, k) then Pow2(k) else 0
  {
    if k > 0 {
      BitIsPower(x / 2, k - 1);
    }
  }

  // ---- The whole map ----------------------------------------------------------

  predicate InUse(bm: seq<Block>, b: nat)
    requires b < |bm| * BPB
  {
    Bit(bm[b / BPB][b % BPB / 8], b % BPB % 8)
  }

  function SetByte(bm: seq<Block>, b: nat, v: byte): seq<Block>
    requires b < |bm| * BPB
  {
    bm[b / BPB := bm[b / BPB][b % BPB / 8 := v]]
  }

  /** The map with block b marked in use. */
  function Mark(bm: seq<Block>, b: nat): (m: seq<Block>)
    requires b < |bm| * BPB
    ensures |m| == |bm|
  {
    ByteBounds(bm[b / BPB][b % BPB / 8], b % BPB % 8);
    SetByte(bm, b, WithBit(bm[b / BPB][b % BPB / 8], b % BPB % 8))
  }

  /** The map with block b marked free. */
  function Clear(bm: seq<Block>, b: nat): (m: seq<Block>)
    requires b < |bm| * BPB
    ensures |m| == |bm|
  {
    ByteBounds(bm[b / BPB][b % BPB / 8], b % BPB % 8);
    SetByte(bm, b, WithoutBit(bm[b / BPB][b % BPB / 8], b % BPB % 8))
  }

  lemma SameBit(b: nat, c: nat)
    requires b / BPB == c / BPB && b % BPB / 8 == c % BPB / 8 && b % BPB % 8 == c % BPB % 8
    ensures b == c
  {
  }

  lemma MarkReads(bm: seq<Block>, b: nat, c: nat)
    requires b < |bm| * BPB && c < |bm| * BPB
    ensures InUse(Mark(bm, b), c) <==> c == b || InUse(bm, c)
  {
    hide Bit, WithBit;
    WithBitReads(bm[b / BPB][b % BPB / 8], b % BPB % 8, c % BPB % 8);
    if b / BPB == c / BPB && b % BPB / 8 == c % BPB / 8 && b % BPB % 8 == c % BPB % 8 {
      SameBit(b, c);
    }
  }

  lemma ClearReads(bm: seq<Block>, b: nat, c: nat)
    requires b < |bm| * BPB && c < |bm| * BPB
    ensures InUse(Clear(bm, b), c) <==> c != b && InUse(bm, c)
  {
    hide Bit, WithoutBit;
    WithoutBitReads(bm[b / BPB][b % BPB / 8], b % BPB % 8, c % BPB % 8);
    if b / BPB == c / BPB && b % BPB / 8 == c % BPB / 8 && b % BPB % 8 == c % BPB % 8 {
      SameBit(b, c);
    }
  }
}
