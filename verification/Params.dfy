/** Sizes shared by several parts: xv6-public/param.h and the widths of its integer types. */
module Params {

  const NPROC := 64
  const MAXOPBLOCKS := 10
  const LOGSIZE := MAXOPBLOCKS * 3
  const NBUF := MAXOPBLOCKS * 3
  const ROOTDEV := 1

  /** One more than the largest unsigned int. */
  const UINT_LIMIT := 0x1_0000_0000

  type Byte = x: int | 0 <= x < 256
}
