/** Constants of kernel/param.h and kernel/fs.h that several components share. */
module Params {
  const MAXOPBLOCKS := 10
  const LOGSIZE := 30
  const ROOTINO := 1

  /** log_write's first test, on a log of `size` blocks, header included, that holds n. */
  predicate NoRoom(size: int, n: int) { n >= LOGSIZE || n >= size - 1 }
}
