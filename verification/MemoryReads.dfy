/**
 * Memory as the processes see it: what a load from a user address gives after a fork, after
 * anything that concerns another process, and after a store of another process.
 */
module MemoryReads {
  import opened Paging
  import opened PageRuns
  import opened Allocator
  import opened UserTable
  import opened AddressSpaces
  import opened SpaceCopy
  import opened ProcessSpaces
  import opened UserBytes

  /** What the hardware maps below the trap frame are pages the kernel has, on the same frames. */
  ghost predicate FramesAgree(t: Snap, s: Space) {
    forall vpn: nat {:trigger Walk(t.m.tables, s.pfn, vpn)} ::
      vpn < TRAPFRAME && Walk(t.m.tables, s.pfn, vpn).Some? ==>
        Walkupt(t.m, s, vpn) != 0 && Walk(t.m.tables, s.pfn, vpn).value.pfn == FrameNat(t.frame, Walkupt(t.m, s, vpn))
  }

  lemma ProcessAgrees(ps: Processes, i: nat)
    requires ps.Valid() && InUse(ps.used, i)
    ensures i < |ps.procs| && FramesAgree(Now(ps.u), ps.procs[i].space)
  {
    hide Walk, Walkupt, AllTrees, Contents, PageAllocator.Valid, Region.Valid;
    forall vpn: nat | vpn < TRAPFRAME && Walk(ps.u.m.tables, ps.procs[i].space.pfn, vpn).Some?
      ensures Walkupt(ps.u.m, ps.procs[i].space, vpn) != 0
      ensures Walk(ps.u.m.tables, ps.procs[i].space.pfn, vpn).value.pfn
              == FrameNat(ps.u.Frames(), Walkupt(ps.u.m, ps.procs[i].space, vpn))
    {
      ps.UserFrame(i, vpn);
    }
  }

  /** Pages with the same bytes read the same. */
  lemma SameBytes(m': UserMem, frame': map<nat, nat>, v': nat, m: UserMem, frame: map<nat, nat>, v: nat)
    requires Bytes(m', frame', v') == Bytes(m, frame, v)
    ensures PageBytes(m', FrameNat(frame', v')) == PageBytes(m, FrameNat(frame, v))
  {
  }

  /** After a fork the child reads at every address below the trap frame what the parent reads. */
  lemma ChildReads(ps: Processes, live: map<nat, Run>, parent: nat, child: nat, a: nat)
    requires ps.Valid() && InUse(ps.used, parent) && InUse(ps.used, child) && a / PAGESIZE < TRAPFRAME
    requires parent < |ps.procs| && child < |ps.procs|
    requires ForkedUser(ps.u.m, ps.u.Frames(), live, ps.procs[parent].space, ps.procs[child].space)
    ensures Peek(ps.u.m, ps.procs[child].space, a) == Peek(ps.u.m, ps.procs[parent].space, a)
  {
    hide Walk, Walkupt, AllTrees, Contents, PageAllocator.Valid, Region.Valid, Bytes, PageBytes;
    var m, frame, vpn := ps.u.m, ps.u.Frames(), a / PAGESIZE;
    var src, dst := ps.procs[parent].space, ps.procs[child].space;
    ProcessAgrees(ps, parent);
    ProcessAgrees(ps, child);
    assert Copied(m, frame, live, src, dst, vpn);
    if Walkupt(m, src, vpn) != 0 { SameBytes(m, frame, Walkupt(m, dst, vpn), m, frame, Walkupt(m, src, vpn)); }
  }

  /** A process whose memory is as it was reads what it read. */
  lemma SameReads(t': Snap, t: Snap, s: Space, a: nat)
    requires SameMemory(t', t, s) && FramesAgree(t, s) && FramesAgree(t', s) && a / PAGESIZE < TRAPFRAME
    ensures Peek(t'.m, s, a) == Peek(t.m, s, a)
  {
    hide Walk, Walkupt, Bytes, PageBytes;
    var vpn := a / PAGESIZE;
    assert SamePage(t', t, s, vpn);
    if Walk(t.m.tables, s.pfn, vpn).Some? {
      SameBytes(t'.m, t'.frame, Walkupt(t.m, s, vpn), t.m, t.frame, Walkupt(t.m, s, vpn));
    }
  }

  /** What process `i` stores in a page of its own, no other process reads. */
  lemma UnseenStore(ps: Processes, i: nat, j: nat, vpn: nat, data: Block, a: nat)
    requires ps.Valid() && InUse(ps.used, i) && InUse(ps.used, j) && i != j && i < |ps.procs| && j < |ps.procs|
    requires vpn < PAGES && vpn != TRAMPOLINE && Walk(ps.u.m.tables, ps.procs[i].space.pfn, vpn).Some?
    requires a < PAGES * PAGESIZE
    ensures var pfn := Walk(ps.u.m.tables, ps.procs[i].space.pfn, vpn).value.pfn;
            Peek(ps.u.m.(bytes := ps.u.m.bytes[pfn := data]), ps.procs[j].space, a) ==
            Peek(ps.u.m, ps.procs[j].space, a)
  {
    hide Walk, Walkupt, AllTrees, Contents, PageAllocator.Valid, Region.Valid;
    var mine, other := Walk(ps.u.m.tables, ps.procs[i].space.pfn, vpn),
      Walk(ps.u.m.tables, ps.procs[j].space.pfn, a / PAGESIZE);
    if other.Some? && other.value.pfn == mine.value.pfn { ps.UserFramesApart(i, j, vpn, a / PAGESIZE); }
  }
}
