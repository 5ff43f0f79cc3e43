/** Sizes that several parts of the kernel share. */
module Limits {
  /** Slots of the process table. */
  const NUM_PROCS := 256
  /** Block pointers of an inode, and of an index block. */
  const DIRECT_PTRS := 25
  const PTRS_PER_BLOCK := 1024
}
