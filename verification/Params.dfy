/** The constants of param.h that several parts share. */
module Params {
  const MAXOPBLOCKS := 10             // most blocks that one operation changes
  const LOGSIZE := 3 * MAXOPBLOCKS    // most blocks in the log on disk
  const NBUF := 3 * MAXOPBLOCKS       // buffers of the cache
}
