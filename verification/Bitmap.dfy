/** The free-block bitmap: one bit per block, in bytes, BPB bits to a block (xv6-public/fs.h lines
    50-54, xv6-public/fs.c lines 65-68 and 87-92). */
module Bitmap {
  import opened Blocks
  import opened Params

  const BPB := BSIZE * 8

  /** `x & (1 << k)` is not zero: the k-th binary digit of x. */
  predicate BitOn(x: nat, k: nat) {
    if k == 0 then x % 2 == 1 else BitOn(x / 2, k - 1)
  }

  /** `x | (1 << k)`. */
  function SetBit(x: nat, k: nat): nat {
    if k == 0 then x - x % 2 + 1 else x % 2 + 2 * SetBit(x / 2, k - 1)
  }

  /** `x & ~(1 << k)`. */
  function ClearBit(x: nat, k: nat): nat {
    if k == 0 then x - x % 2 else x % 2 + 2 * ClearBit(x / 2, k - 1)
  }

  function Pow2(n: nat): nat {
    if n == 0 then 1 else 2 * Pow2(n - 1)
  }

  lemma {:induction false} BitsAfterSet(x: nat, k: nat, j: nat)
    ensures BitOn(SetBit(x, k), j) <==> j == k || BitOn(x, j)
  {
    if k > 0 && j > 0 {
      BitsAfterSet(x / 2, k - 1, j - 1);
    }
  }

  lemma {:induction false} BitsAfterClear(x: nat, k: nat, j: nat)
    ensures BitOn(ClearBit(x, k), j) <==> j != k && BitOn(x, j)
  {
    if k > 0 && j > 0 {
      BitsAfterClear(x / 2, k - 1, j - 1);
    }
  }

  lemma {:induction false} BitsStayInWidth(x: nat, k: nat, n: nat)
    requires x < Pow2(n) && k < n
    ensures SetBit(x, k) < Pow2(n) && ClearBit(x, k) < Pow2(n)
  {
    if k > 0 {
      BitsStayInWidth(x / 2, k - 1, n - 1);
    }
  }

  lemma ByteBits(x: Byte, k: nat)
    requires k < 8
    ensures SetBit(x, k) < 256 && ClearBit(x, k) < 256
  {
    assert Pow2(3) == 8 && Pow2(6) == 64 && Pow2(8) == 256;
    BitsStayInWidth(x, k, 8);
  }

  // ---------------------------------------------------------------- bits of a bitmap block

  predicate BlockBit(b: Block, i: nat)
    requires i < BPB
  {
    BitOn(b[i / 8], i % 8)
  }

  function SetBlockBit(b: Block, i: nat): Block
    requires i < BPB
  {
    ByteBits(b[i / 8], i % 8);
    b[i / 8 := SetBit(b[i / 8], i % 8)]
  }

  function ClearBlockBit(b: Block, i: nat): Block
    requires i < BPB
  {
    ByteBits(b[i / 8], i % 8);
    b[i / 8 := ClearBit(b[i / 8], i % 8)]
  }

  lemma BlockBits(b: Block, i: nat, j: nat)
    requires i < BPB && j < BPB
    ensures BlockBit(SetBlockBit(b, i), j) <==> j == i || BlockBit(b, j)
    ensures BlockBit(ClearBlockBit(b, i), j) <==> j != i && BlockBit(b, j)
  {
    if i / 8 == j / 8 {
      BitsAfterSet(b[i / 8], i % 8, j % 8);
      BitsAfterClear(b[i / 8], i % 8, j % 8);
      assert i == 8 * (i / 8) + i % 8 && j == 8 * (j / 8) + j % 8;
    }
  }
}
