/** The limits of kernel/param.h that the log and its buffers share. */
module Params {
  const MAXOPBLOCKS := 10                 // blocks an operation may log
  const LOGBLOCKS := 3 * MAXOPBLOCKS      // blocks the log can hold
  const NBUF := 3 * MAXOPBLOCKS           // buffers in the cache
}
