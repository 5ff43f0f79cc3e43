/** Byte ranges cut at page boundaries, as `translate_bytes` (kernel/block_device.c) and
    `translate_fs` (kernel/fs_file.c) walk them. */
module Chunks {
  import opened Paging

  /** A 32-bit number is its four bytes. */
  lemma Digits(v: nat)
    requires v < 0x1_0000_0000
    ensures v % 0x100 + 0x100 * (v / 0x100 % 0x100) + 0x1_0000 * (v / 0x1_0000 % 0x100) +
      0x100_0000 * (v / 0x100_0000 % 0x100) == v
  {
    assert v / 0x1_0000 == v / 0x100 / 0x100 && v / 0x100_0000 == v / 0x1_0000 / 0x100;
  }

  /** `block` with `bytes` from `lo` on. */
  function Splice(block: Block, lo: nat, bytes: Block): (r: Block)
    requires lo + |bytes| <= |block|
    ensures |r| == |block| &&
      forall k :: 0 <= k < |block| ==> r[k] == if lo <= k < lo + |bytes| then bytes[k - lo] else block[k]
  {
    block[..lo] + bytes + block[lo + |bytes|..]
  }

  lemma Divided(k: nat, block: nat)
    ensures k / PAGESIZE == block <==> block * PAGESIZE <= k < block * PAGESIZE + PAGESIZE
    ensures k / PAGESIZE == block ==> k % PAGESIZE == k - block * PAGESIZE
  {
  }

  lemma EndBound(stop: nat, n: nat)
    requires stop <= n * PAGESIZE
    ensures PageUp(stop) <= n
  {
  }

  /** Bytes [offset, stop) cover block `b`. */
  predicate Whole(offset: nat, stop: nat, b: nat) { offset <= b * PAGESIZE && (b + 1) * PAGESIZE <= stop }

  /** Where `translate_bytes` is when it comes to `block`: `done` bytes are behind it. */
  predicate At(offset: nat, n: nat, block: nat, pageOffset: nat, pageMax: nat, done: nat)
  {
    && offset / PAGESIZE <= block <= PageUp(offset + n)
    && pageOffset == (if block == offset / PAGESIZE then offset % PAGESIZE else 0)
    && (if block < PageUp(offset + n)
      then pageMax == offset + n - block * PAGESIZE && offset + done == block * PAGESIZE + pageOffset
        else done == n)
  }

  lemma AtStart(offset: nat, n: nat)
    ensures At(offset, n, offset / PAGESIZE, offset % PAGESIZE, offset % PAGESIZE + n, 0)
  {
    Divided(offset, offset / PAGESIZE);
  }

  lemma AtEnd(offset: nat, n: nat, block: nat, pageOffset: nat, pageMax: nat, done: nat)
    requires At(offset, n, block, pageOffset, pageMax, done) && block >= PageUp(offset + n)
    ensures done == n && block == PageUp(offset + n)
  {
  }

  lemma AtStep(offset: nat, n: nat, block: nat, pageOffset: nat, pageMax: nat, done: nat)
    requires At(offset, n, block, pageOffset, pageMax, done) && block < PageUp(offset + n)
    ensures var top := if pageMax > PAGESIZE then PAGESIZE else pageMax;
            && pageOffset <= top <= PAGESIZE && done + top - pageOffset <= n
            && offset + done == block * PAGESIZE + pageOffset
            && (pageOffset == 0 && top == PAGESIZE <==> Whole(offset, offset + n, block))
            && At(offset, n, block + 1, 0, if pageMax > PAGESIZE then pageMax - PAGESIZE
              else pageMax, done + top - pageOffset)
  {
    Divided(offset, offset / PAGESIZE);
  }
}
