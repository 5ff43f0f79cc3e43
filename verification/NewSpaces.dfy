/** Making an address space and its kernel stack (kernel/process.c, kernel/sysproc.c): what
    `sys_fork` and `load_process` allocate before any page is mapped. */
module NewSpaces {
  import opened Paging
  import opened KernelTable
  import opened PageRuns
  import opened Allocator
  import opened UserTable
  import opened AddressSpaces
  import opened SpaceCopy

  const KERNEL_STACK_SIZE := 0x10_0000
  /** Pages of a kernel stack, its guard page included. */
  const STACK_PAGES := 257

  /** Memory with an empty base table in frame `pfn` and an empty reference array at `a`. */
  function AddBase(m: UserMem, pfn: nat, a: nat): UserMem
  {
    m.(tables := m.tables[pfn := EmptyTable()], refs := m.refs[a := EmptyRefs()])
  }

  /** Nothing belongs to space `id`. */
  ghost predicate NoneOf(own: map<nat, Owner>, id: nat) { forall v :: !OwnedBy(own, v, id) }

  lemma AddBaseTree(m: UserMem, frame: map<nat, nat>, own: map<nat, Owner>, kown: map<nat, Owner>, id: nat,
                    v: nat, pfn: nat, a: nat)
    requires Unused(m, frame, own, kown, v, pfn, a) && NoneOf(own, id) && NoneOf(kown, id)
    ensures var m', s := AddBase(m, pfn, a), Space(pfn, v, a);
            && Tree(m', frame, own[v := Owner(id, Base)], kown[a := Owner(id, Base)], s, id)
            && (forall i: nat :: MidRef(m', s, i).table == 0)
  {
    var m', s := AddBase(m, pfn, a), Space(pfn, v, a);
    var own', kown' := own[v := Owner(id, Base)], kown[a := Owner(id, Base)];
    forall p: Place | p.Valid() && p != Base ensures PageAt(m', s, p) == 0 { }
    assert TableAt(m', frame, own', kown', s, id, Base);
    forall w | OwnedBy(own', w, id) ensures w == v { assert w != v ==> OwnedBy(own, w, id); }
    forall b | OwnedBy(kown', b, id) ensures b == a { assert b != a ==> OwnedBy(kown, b, id); }
  }

  lemma AddBaseTrees(m: UserMem, frame: map<nat, nat>, own: map<nat, Owner>, kown: map<nat, Owner>,
                     spaces: map<nat, Space>, id: nat, v: nat, pfn: nat, a: nat)
    requires AllTrees(m, frame, own, kown, spaces) && !Alive(spaces, id)
    requires Unused(m, frame, own, kown, v, pfn, a)
    ensures var m', s := AddBase(m, pfn, a), Space(pfn, v, a);
            var own', kown' := own[v := Owner(id, Base)], kown[a := Owner(id, Base)];
            && AllTrees(m', frame, own', kown', spaces[id := s])
            && OnlySpace(m', m, frame, own', own, kown', kown, id)
            && (forall i: nat :: MidRef(m', s, i).table == 0)
  {
    hide Tree;
    var m', s := AddBase(m, pfn, a), Space(pfn, v, a);
    var own', kown' := own[v := Owner(id, Base)], kown[a := Owner(id, Base)];
    AddBaseTree(m, frame, own, kown, id, v, pfn, a);
    assert OnlySpace(m', m, frame, own', own, kown', kown, id);
    var spaces' := spaces[id := s];
    forall x {:trigger Alive(spaces', x)} | Alive(spaces', x) ensures Tree(m', frame, own', kown', spaces'[x], x) {
      if x != id {
        assert Alive(spaces, x);
        TreeKept(m, m', frame, frame, own, own', kown, kown', spaces[x], x);
      }
    }
  }

  lemma AddBaseContents(m: UserMem, use: map<nat, Use>, frame: map<nat, nat>, own: map<nat, Owner>,
                        kown: map<nat, Owner>, id: nat, v: nat, pfn: nat, a: nat)
    requires v !in own
    requires Contents(m, use, own, kown) && Framed(use, frame, true) && v in frame && frame[v] == pfn
    ensures Contents(AddBase(m, pfn, a), use, own[v := Owner(id, Base)], kown[a := Owner(id, Base)])
  {
    assert UsedBy(use, frame[v], UserOf(v, true));
  }

  /** A spare page and array become the base of space `id`. */
  lemma GrowBase(u: UserMemory, id: nat, v: nat, pfn: nat, a: nat)
    requires u.Valid() && !Alive(u.spaces, id) && u.Spare(v, pfn, a, 2)
    ensures var m', s := AddBase(u.m, pfn, a), Space(pfn, v, a);
            var own', kown' := u.own[v := Owner(id, Base)], u.kown[a := Owner(id, Base)];
            && Backed(u.alloc.dma.live, u.alloc.kva.live, own', kown')
            && AllTrees(m', u.Frames(), own', kown', u.spaces[id := s])
            && Contents(m', u.alloc.use, own', kown')
            && OnlySpace(m', u.m, u.Frames(), own', u.own, kown', u.kown, id)
            && (forall i: nat :: MidRef(m', s, i).table == 0)
  {
    hide Reached, PageAllocator.Counted, PageAllocator.Ranges, AllTrees;
    AddBaseTrees(u.m, u.Frames(), u.own, u.kown, u.spaces, id, v, pfn, a);
    AddBaseContents(u.m, u.alloc.use, u.Frames(), u.own, u.kown, id, v, pfn, a);
  }

  /** `dmalloc` of a zeroed base table and `kalloc` of its reference array: an empty space.
      None is a panic. */
  method NewSpace(u: UserMemory, ghost id: nat) returns (r: Option<Space>)
    requires u.Valid() && !Alive(u.spaces, id)
    modifies u`m, u`own, u`kown, u`spaces, u.alloc`use, u.alloc`kframe, u.alloc.space, u.alloc.dma, u.alloc.kva
    ensures r.None? ==> u.alloc.space.Exhausted()
    ensures r.Some? ==>
      && u.Valid() && u.spaces == old(u.spaces)[id := r.value] && u.m.bytes == old(u.m.bytes)
      && Progress(Now(u), old(Now(u)), id)
      && (forall i: nat :: MidRef(u.m, r.value, i).table == 0)
  {
    hide PageAllocator.Valid, Region.Valid, AllTrees, Backed, Contents, OnlySpace, Extended, Gained, FreshPage;
    var t := u.NewTable(2);
    if t.None? { return None; }
    var (v, pfn, a) := t.value;
    ghost var frame := u.Frames();
    GrowBase(u, id, v, pfn, a);
    GainedOne(u.own, old(u.alloc.dma.live), v, Owner(id, Base), Run(pfn, 1))
      by { assert v !in u.own by { SpareFresh(u, v, pfn, a); } }
    GainedOne(u.kown, old(u.alloc.kva.live), a, Owner(id, Base), u.alloc.kva.live[a]);
    var s := Space(pfn, v, a);
    u.m := AddBase(u.m, pfn, a);
    u.own, u.kown := u.own[v := Owner(id, Base)], u.kown[a := Owner(id, Base)];
    u.spaces := u.spaces[id := s];
    OnlySpaceFrames(u.m, old(u.m), u.Frames(), old(u.Frames()), u.own, old(u.own), u.kown, old(u.kown), id);
    r := Some(s);
  }

  lemma SpareFresh(u: UserMemory, v: nat, pfn: nat, a: nat)
    requires u.alloc.dma.Valid() && u.Spare(v, pfn, a, 2)
    ensures v !in u.own
  {
  }

  /** A kernel stack with its guard page taken out of the page table: first page and the
      frame of the guard page. None is a panic. */
  method NewStack(u: UserMemory) returns (r: Option<(nat, nat)>)
    requires u.Valid()
    modifies u.alloc`use, u.alloc`kframe, u.alloc`guards, u.alloc.space, u.alloc.kva
    ensures r.None? ==> u.alloc.space.Exhausted()
    ensures r.Some? ==>
      && u.Valid() && r.value.0 !in old(u.alloc.kva.live) && r.value.0 in u.alloc.kva.live
      && u.alloc.kva.live[r.value.0].size == STACK_PAGES
      && u.alloc.kva.live == old(u.alloc.kva.live)[r.value.0 := u.alloc.kva.live[r.value.0]]
      && u.alloc.guards == old(u.alloc.guards)[r.value.0 := r.value.1]
  {
    hide PageAllocator.Valid, Region.Valid, AllTrees, Contents, Unmapped;
    var a := u.NewArray(KERNEL_STACK_SIZE + PAGESIZE);
    if a.None? { return None; }
    var pfn := u.alloc.Unmap(a.value);
    r := Some((a.value, pfn.value));
  }

  lemma FramedNow(u: UserMemory)
    requires u.alloc.Valid() && u.alloc.dma.Valid()
    ensures Framed(u.alloc.use, u.Frames(), true)
  {
  }

  /** The end of `free_process_space`: the guard page is mapped back, because the free node is
      written there, and the stack is freed. */
  method FreeStack(u: UserMemory, vpn: nat, pfn: nat)
    requires u.Valid() && vpn in u.alloc.kva.live && u.alloc.kva.live[vpn].size == STACK_PAGES
    requires vpn in u.alloc.guards && u.alloc.guards[vpn] == pfn
    modifies u.alloc`use, u.alloc`guards, u.alloc.space, u.alloc.kva
    ensures u.Valid() && u.alloc.kva.live == old(u.alloc.kva.live) - {vpn}
    ensures u.alloc.guards == old(u.alloc.guards) - {vpn} && u.alloc.space.pfnStart == old(u.alloc.space.pfnStart)
  {
    hide PageAllocator.Valid, Region.Valid, AllTrees, Contents, Mapped, Framed;
    FramedNow(u);
    u.alloc.Remap(vpn, pfn);
    FramedNow(u);
    ContentsKept(u.m, old(u.alloc.use), u.alloc.use, u.Frames(), u.Frames(), u.own, u.kown);
    u.alloc.Kfree(vpn, KERNEL_STACK_SIZE + PAGESIZE);
  }
}
