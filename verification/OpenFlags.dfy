/** The flags of a descriptor. */
module OpenFlags {
  /** The open flags that `sys_dup3` leaves. */
  function Masked(flags: bv32, mask: bv32): bv32 {
    flags & mask
  }

  /** What is left was set before and is in the mask; the empty mask leaves nothing and the full
      one everything. */
  lemma FlagsLeft(flags: bv32, mask: bv32)
    ensures Masked(flags, mask) | flags == flags && Masked(flags, mask) | mask == mask
    ensures Masked(flags, 0) == 0 && Masked(flags, 0xffff_ffff) == flags
  {
  }

  /** Every flag that was set and is in the mask is left. */
  lemma FlagsKept(flags: bv32, mask: bv32, some: bv32)
    requires some | flags == flags && some | mask == mask
    ensures some | Masked(flags, mask) == Masked(flags, mask)
  {
  }
}
