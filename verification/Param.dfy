/** param.h: the constants that the log, the cache and the file system share. */
module Param {
  const MAXOPBLOCKS: nat := 10          // the most blocks a call may log
  const LOGSIZE: nat := 3 * MAXOPBLOCKS // the most entries of a log header
  const NBUF: nat := 3 * MAXOPBLOCKS    // the buffers of the cache
  const FSSIZE: nat := 40000            // the blocks of the file system that mkfs makes
}
