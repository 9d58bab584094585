/** Disk blocks as byte strings, with the little-endian 32-bit words that the log
    header and the indirect blocks keep in them. */
module Blocks {
  import opened Params

  const BSIZE := 512
  const WORDS := BSIZE / 4

  type Block = s: seq<Byte> | |s| == BSIZE witness seq(BSIZE, _ => 0)
  type Word32 = w: int | 0 <= w < UINT_LIMIT

  const ZERO_BLOCK: Block := Zeros()

  function Zeros(): Block { seq(BSIZE, _ => 0) }

  /** Four bytes, least significant first, as one word. */
  function Join(b0: int, b1: int, b2: int, b3: int): int {
    b0 + 0x100 * (b1 + 0x100 * (b2 + 0x100 * b3))
  }

  /** The i-th word of a block, as `((uint*)bp->data)[i]` reads it on a little-endian machine. */
  function Word(b: Block, i: nat): Word32
    requires i < WORDS
  {
    Join(b[4 * i], b[4 * i + 1], b[4 * i + 2], b[4 * i + 3])
  }

  /** The block after storing word `w` at position i. */
  function SetWord(b: Block, i: nat, w: Word32): Block
    requires i < WORDS
  {
    var b0, r0 := w % 0x100, w / 0x100;
    var b1, r1 := r0 % 0x100, r0 / 0x100;
    b[..4 * i] + [b0, b1, r1 % 0x100, r1 / 0x100] + b[4 * i + 4..]
  }

  /** A stored word reads back, and no other word moves. */
  lemma WordOfSetWord(b: Block, i: nat, w: Word32)
    requires i < WORDS
    ensures Word(SetWord(b, i, w), i) == w
    ensures forall j: nat :: j < WORDS && j != i ==> Word(SetWord(b, i, w), j) == Word(b, j)
  {
    var c := SetWord(b, i, w);
    forall j: nat | j < WORDS && j != i
      ensures Word(c, j) == Word(b, j)
    {
      assert forall k :: 4 * j <= k < 4 * j + 4 ==> c[k] == b[k];
    }
  }

  lemma ZeroBlockWords(i: nat)
    requires i < WORDS
    ensures Word(ZERO_BLOCK, i) == 0
  {
  }
}
