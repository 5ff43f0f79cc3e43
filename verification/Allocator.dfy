/** The kernel's page allocator (kernel/pagetable.c): `dmalloc`/`dmafree` for physically
    contiguous pages, `kalloc`/`kfree` for kernel memory, both over the one frame counter
    that `ptmap` also takes its table frames from. */
module Allocator {
  import opened Paging
  import opened KernelTable
  import opened PageRuns

  /** Page number of `ptbrk` at boot, 0x100000000. */
  const DMA_BASE := 0x10_0000
  /** Low 27 bits of the page number of `kbrk` at boot, 0xffffffe000000000. */
  const KVA_BASE := 0x600_0000
  /** Pages between `KVA_BASE` and the trampoline: memory below 128 GiB. */
  const MAX_FRAMES := 0x1ff_ffff

  /** Who has a frame. */
  datatype Use = TableFrame | DmaFrame(vpn: nat) | KernelFrame(vpn: nat)

  /** Every frame from the root up to the counter has one user, and the table frames are
      exactly the frames of the kernel's page table. */
  ghost predicate Accounted(use: map<nat, Use>, role: map<nat, Role>, root: nat, next: nat)
  {
    && (forall p :: p in use <==> root <= p < next)
    && (forall p :: p in role ==> root <= p)
    && (forall p :: p in use ==> (use[p].TableFrame? <==> p in role))
  }

  predicate UsedBy(use: map<nat, Use>, p: nat, u: Use) { p in use && use[p] == u }

  /** `use` keeps what it had; the frames [next, next') are new table frames. */
  ghost predicate OnlyTables(use': map<nat, Use>, use: map<nat, Use>, next: nat, next': nat)
  {
    && (forall p: nat, u :: UsedBy(use, p, u) ==> UsedBy(use', p, u))
    && (forall p: nat, u :: UsedBy(use', p, u) ==> UsedBy(use, p, u) || (u.TableFrame? && next <= p < next'))
  }

  function UserOf(v: nat, dma: bool): Use { if dma then DmaFrame(v) else KernelFrame(v) }

  /** Each page in `frame` has its own frame, and each frame so used is one of them. */
  ghost predicate Framed(use: map<nat, Use>, frame: map<nat, nat>, dma: bool)
  {
    && (forall v :: v in frame ==> UsedBy(use, frame[v], UserOf(v, dma)))
    && (forall p, v :: UsedBy(use, p, UserOf(v, dma)) ==> v in frame && frame[v] == p)
  }

  /** The page table maps each page in `frame` to its frame. */
  ghost predicate Reached(mem: Memory, root: nat, frame: map<nat, nat>)
  {
    forall v :: v in frame ==> MapsTo(mem, root, v, frame[v])
  }

  predicate MapsTo(mem: Memory, root: nat, v: nat, p: nat)
  {
    Walk(mem, root, v) == Some(Leaf(p, RW))
  }

  /** `mem'` maps the pages from `vpn` to the frames from `pfn` and the others as `mem`. */
  ghost predicate RunReached(mem': Memory, mem: Memory, root: nat, vpn: nat, pfn: nat, pages: nat)
  {
    forall v: nat :: Managed(v) ==>
      Walk(mem', root, v) == if vpn <= v < vpn + pages then Some(Leaf(pfn + v - vpn, RW)) else Walk(mem, root, v)
  }

  lemma TablesBound(mem: Memory, root: nat, next: nat, vpn: nat)
    ensures next <= EnsurePath(mem, root, next, vpn).next <= next + 2
  {
  }

  /** Memory and the frame counter after `ptmap` of the pages from `vpn` to the frames from
      `pfn`, one after the other: a page may need up to two tables of its own. */
  ghost function RunMapped(mem: Memory, root: nat, next: nat, vpn: nat, pfn: nat, pages: nat): (r: (Memory, nat))
    ensures next <= r.1 <= next + 2 * pages
  {
    if pages == 0 then (mem, next) else
    var (m, n) := RunMapped(mem, root, next, vpn, pfn, pages - 1);
    (Mapped(m, root, n, vpn + pages - 1, pfn + pages - 1, RW), EnsurePath(m, root, n, vpn + pages - 1).next)
  }

  lemma RunMappedGrows(mem: Memory, root: nat, next: nat, vpn: nat, pfn: nat, i: nat, pages: nat)
    requires i <= pages
    ensures RunMapped(mem, root, next, vpn, pfn, i).1 <= RunMapped(mem, root, next, vpn, pfn, pages).1
  {
    if i < pages { RunMappedGrows(mem, root, next, vpn, pfn, i, pages - 1); }
  }

  /** Memory and the frame counter after `palloc_ptr` of the pages from `vpn`: each takes the
      next frame for itself and then the frames its tables need. */
  ghost function PagesBacked(mem: Memory, root: nat, next: nat, vpn: nat, pages: nat): (r: (Memory, nat))
    ensures next + pages <= r.1 <= next + 3 * pages
  {
    if pages == 0 then (mem, next) else
    var (m, n) := PagesBacked(mem, root, next, vpn, pages - 1);
    (Mapped(m, root, n + 1, vpn + pages - 1, n, RW), EnsurePath(m, root, n + 1, vpn + pages - 1).next)
  }

  lemma PagesBackedGrows(mem: Memory, root: nat, next: nat, vpn: nat, i: nat, pages: nat)
    requires i <= pages
    ensures PagesBacked(mem, root, next, vpn, i).1 <= PagesBacked(mem, root, next, vpn, pages).1
  {
    if i < pages { PagesBackedGrows(mem, root, next, vpn, i, pages - 1); }
  }

  lemma TablesKeepFramed(use: map<nat, Use>, use': map<nat, Use>, next: nat, next': nat, frame: map<nat, nat>,
                         dma: bool)
    requires Framed(use, frame, dma) && OnlyTables(use', use, next, next')
    ensures Framed(use', frame, dma)
  {
  }

  /** `use` with every frame up to `next` that has no user counted as a table. */
  ghost function AddTables(use: map<nat, Use>, root: nat, next: nat): map<nat, Use>
  {
    map p | root <= p < next :: if p in use then use[p] else TableFrame
  }

  lemma TablesAccounted(use: map<nat, Use>, role: map<nat, Role>, role': map<nat, Role>, root: nat, next: nat,
                        next': nat)
    requires Accounted(use, role, root, next) && Extends(role', role, next, next') && root <= next
    ensures Accounted(AddTables(use, root, next'), role', root, next')
    ensures OnlyTables(AddTables(use, root, next'), use, next, next')
  {
  }

  /** A kernel frame for a new page keeps both kinds of frames apart. */
  lemma KernelFramed(use: map<nat, Use>, p: nat, v: nat, frame: map<nat, nat>, kframe: map<nat, nat>)
    requires Framed(use, frame, true) && Framed(use, kframe, false) && p !in use && v !in kframe
    ensures Framed(use[p := KernelFrame(v)], frame, true)
    ensures Framed(use[p := KernelFrame(v)], kframe[v := p], false)
  {
    var use', kframe' := use[p := KernelFrame(v)], kframe[v := p];
    assert forall q, u :: UsedBy(use, q, u) ==> UsedBy(use', q, u);
    forall q, w | UsedBy(use', q, UserOf(w, true)) ensures w in frame && frame[w] == q {
      assert UsedBy(use, q, UserOf(w, true));
    }
    forall q, w | UsedBy(use', q, UserOf(w, false)) ensures w in kframe' && kframe'[w] == q {
      if q != p { assert UsedBy(use, q, UserOf(w, false)); }
    }
  }

  /** Mapping a page outside `frame` keeps the pages in `frame` reached. */
  lemma ReachedBeside(mem: Memory, mem': Memory, root: nat, frame: map<nat, nat>, vpn: nat)
    requires Reached(mem, root, frame) && OthersKept(mem', mem, root, vpn) && vpn !in frame
    requires forall v :: v in frame ==> DMA_BASE <= v < PAGES
    ensures Reached(mem', root, frame)
  {
    forall v | v in frame ensures MapsTo(mem', root, v, frame[v]) {
      assert MapsTo(mem, root, v, frame[v]);
    }
  }

  /** Mapping a new run keeps the old pages reached and reaches the new ones. */
  lemma ReachedRun(mem: Memory, mem': Memory, root: nat, frame: map<nat, nat>, frame': map<nat, nat>,
                   vpn: nat, pfn: nat, pages: nat)
    requires Reached(mem, root, frame)
    requires forall v :: v in frame ==> DMA_BASE <= v < PAGES && v < vpn
    requires forall v :: v in frame' <==> v in frame || vpn <= v < vpn + pages
    requires forall v :: v in frame' ==> frame'[v] == (if v < vpn then frame[v] else pfn + v - vpn)
    requires RunReached(mem', mem, root, vpn, pfn, pages) && DMA_BASE <= vpn && vpn + pages <= PAGES
    ensures Reached(mem', root, frame')
  {
    forall v | v in frame' ensures MapsTo(mem', root, v, frame'[v]) {
      if v < vpn { assert MapsTo(mem, root, v, frame[v]); }
    }
  }

  /** Mapping a run away from the pages in `frame` keeps them reached. */
  lemma ReachedAside(mem: Memory, mem': Memory, root: nat, frame: map<nat, nat>, vpn: nat, pfn: nat, pages: nat)
    requires Reached(mem, root, frame) && RunReached(mem', mem, root, vpn, pfn, pages)
    requires forall v :: v in frame ==> KVA_BASE <= v < PAGES
    requires vpn + pages <= KVA_BASE
    ensures Reached(mem', root, frame)
  {
    forall v | v in frame ensures MapsTo(mem', root, v, frame[v]) {
      assert MapsTo(mem, root, v, frame[v]);
    }
  }

  /** Mapping a new page keeps the other pages reached and reaches the new one. */
  lemma ReachedNew(mem: Memory, mem': Memory, root: nat, frame: map<nat, nat>, guards: set<nat>, vpn: nat, pfn: nat)
    requires Reached(mem, root, frame - guards) && OthersKept(mem', mem, root, vpn) && MapsTo(mem', root, vpn, pfn)
    requires forall v :: v in frame - guards ==> DMA_BASE <= v < PAGES
    ensures Reached(mem', root, frame[vpn := pfn] - guards)
    ensures Reached(mem', root, frame[vpn := pfn] - (guards - {vpn}))
  {
    forall v | v in frame - guards && v != vpn ensures MapsTo(mem', root, v, frame[v]) {
      assert MapsTo(mem, root, v, (frame - guards)[v]);
    }
  }

  /** Unmapping a page keeps the other pages reached. */
  lemma ReachedGone(mem: Memory, mem': Memory, root: nat, frame: map<nat, nat>, guards: set<nat>, vpn: nat)
    requires Reached(mem, root, frame - guards) && OthersKept(mem', mem, root, vpn)
    requires forall v :: v in frame - guards ==> DMA_BASE <= v < PAGES
    ensures Reached(mem', root, frame - (guards + {vpn}))
  {
    forall v | v in frame - guards && v != vpn ensures MapsTo(mem', root, v, frame[v]) {
      assert MapsTo(mem, root, v, (frame - guards)[v]);
    }
  }

  /** `use` over [root, pfn + pages), the frames from `pfn` given to the pages from `vpn`. */
  ghost function Claim(use: map<nat, Use>, root: nat, vpn: nat, pfn: nat, pages: nat): map<nat, Use>
    requires forall p :: root <= p < pfn ==> p in use
  {
    map p | root <= p < pfn + pages :: if p in use || p < pfn then use[p] else DmaFrame(vpn + p - pfn)
  }

  /** Claiming a run for new pages keeps both kinds of frames apart. */
  lemma ClaimFramed(use: map<nat, Use>, root: nat, vpn: nat, pfn: nat, pages: nat,
                    frame: map<nat, nat>, frame': map<nat, nat>, kframe: map<nat, nat>)
    requires forall p :: p in use <==> root <= p < pfn
    requires root <= pfn && Framed(use, frame, true) && Framed(use, kframe, false)
    requires forall v :: v in frame ==> v < vpn
    requires forall v :: v in frame' <==> v in frame || vpn <= v < vpn + pages
    requires forall v :: v in frame' ==> frame'[v] == (if v < vpn then frame[v] else pfn + v - vpn)
    ensures Framed(Claim(use, root, vpn, pfn, pages), frame', true)
    ensures Framed(Claim(use, root, vpn, pfn, pages), kframe, false)
  {
    var use' := Claim(use, root, vpn, pfn, pages);
    assert forall p: nat, u :: UsedBy(use, p, u) ==> UsedBy(use', p, u);
    forall v | v in frame' ensures UsedBy(use', frame'[v], DmaFrame(v)) {
      if v < vpn { assert UsedBy(use, frame[v], UserOf(v, true)); }
    }
    forall p: nat, v: nat | UsedBy(use', p, DmaFrame(v)) ensures v in frame' && frame'[v] == p {
      if p < pfn { assert UsedBy(use, p, UserOf(v, true)); }
    }
    forall p, v | UsedBy(use', p, KernelFrame(v)) ensures v in kframe && kframe[v] == p {
      assert UsedBy(use, p, UserOf(v, false));
    }
  }

  /** No page loses or changes its frame. */
  ghost predicate FramesKept(frame': map<nat, nat>, frame: map<nat, nat>)
  {
    forall v :: v in frame ==> v in frame' && frame'[v] == frame[v]
  }

  /** The page table has the last-level table of each page. */
  ghost predicate Rooted(mem: Memory, root: nat, pages: set<nat>)
  {
    forall v: nat :: v in pages ==> Managed(v) && LastTable(mem, root, v).Some?
  }

  lemma StillRooted(mem: Memory, mem': Memory, root: nat, pages: set<nat>)
    requires Rooted(mem, root, pages) && TablesKept(mem', mem, root)
    ensures Rooted(mem', root, pages)
  {
  }

  lemma RootBelow(mem: Memory, root: nat, role: map<nat, Role>, next: nat)
    requires WellFormed(mem, root, role) && Below(role, next)
    ensures root < next
  {
  }

  class PageAllocator {
    const space: KernelSpace
    const dma: Region
    const kva: Region
    ghost var use: map<nat, Use>
    /** Frame behind each page of the `kalloc` range. */
    ghost var kframe: map<nat, nat>
    /** First pages of `kalloc` runs taken out of the page table, with their frames: guard
        pages of kernel stacks. */
    ghost var guards: map<nat, nat>

    /** The frame counter agrees with `use`. */
    ghost predicate Counted()
      reads this, space
    {
      space.Valid() && Accounted(use, space.role, space.root, space.pfnStart)
    }

    ghost predicate Ranges()
      reads this, space, dma, kva
    {
      && dma.Valid() && kva.Valid()
      && dma != kva && dma.physical && !kva.physical
      && dma.base == DMA_BASE && kva.base == KVA_BASE
      && space.maxPfn <= space.root + MAX_FRAMES
      && dma.brk - dma.base <= space.pfnStart - space.root
      && kva.brk - kva.base <= space.pfnStart - space.root
    }

    ghost predicate Valid()
      reads this, space, dma, kva
    {
      && Counted() && Ranges()
      && Framed(use, dma.Frames(), true)
      && Reached(space.mem, space.root, dma.Frames())
      && kframe.Keys == kva.tag.Keys && Framed(use, kframe, false)
      && guards.Keys <= kva.live.Keys && FramesKept(kframe, guards)
      && Reached(space.mem, space.root, kframe - guards.Keys)
      && Rooted(space.mem, space.root, guards.Keys)
    }

    /** The allocator after `init_pagetable`: every frame taken so far is a table frame. */
    constructor (space: KernelSpace)
      requires space.Valid()
      requires forall p :: p in space.role <==> space.root <= p < space.pfnStart
      requires space.maxPfn <= space.root + MAX_FRAMES
      ensures Valid() && fresh(dma) && fresh(kva) && this.space == space
      ensures dma.live == map[] && kva.live == map[] && guards == map[]
    {
      hide Region.Valid, Region.Frames, WellFormed, Below, Walk;
      RootBelow(space.mem, space.root, space.role, space.pfnStart);
      this.space := space;
      dma := new Region(DMA_BASE, true);
      kva := new Region(KVA_BASE, false);
      new;
      use := map p: nat | p in space.role :: TableFrame;
      kframe, guards := map[], map[];
    }

    /** Page `v` of either range has frame `p`. */
    ghost predicate HasFrame(v: nat, p: nat)
      requires dma.Valid()
      reads this, dma
    {
      (v in dma.Frames() && dma.Frames()[v] == p) || (v in kframe && kframe[v] == p)
    }

    /** No frame is behind two pages, and none that the page table uses is behind any. */
    lemma NoFrameTwice(v: nat, w: nat, p: nat)
      requires Valid() && HasFrame(v, p) && HasFrame(w, p)
      ensures v == w && p !in space.role && space.root <= p < space.pfnStart
    {
      hide Region.Valid, Region.Frames, KernelSpace.Valid, Reached;
      assert exists dma: bool :: UsedBy(use, p, UserOf(v, dma));
      assert exists dma: bool :: UsedBy(use, p, UserOf(w, dma));
    }

    /** `ptmap` of a page with read and write permission; false is a panic. */
    method MapPage(vpn: nat, pfn: nat) returns (ok: bool)
      requires Counted() && DMA_BASE <= vpn < PAGES
      modifies this`use, space`mem, space`pfnStart, space`role
      ensures ok <==> old(EnsurePath(space.mem, space.root, space.pfnStart, vpn).next) <= space.maxPfn
      ensures !ok ==> space.Exhausted() && old(space.pfnStart) + 2 > space.maxPfn
      ensures ok ==>
        && Counted()
        && old(space.pfnStart) <= space.pfnStart <= old(space.pfnStart) + 2
        && space.pfnStart == old(EnsurePath(space.mem, space.root, space.pfnStart, vpn).next)
        && OnlyTables(use, old(use), old(space.pfnStart), space.pfnStart)
        && space.mem == old(Mapped(space.mem, space.root, space.pfnStart, vpn, pfn, RW))
        && Walk(space.mem, space.root, vpn) == Some(Leaf(pfn, RW))
        && OthersKept(space.mem, old(space.mem), space.root, vpn)
        && TablesKept(space.mem, old(space.mem), space.root)
    {
      MappedKeepsTables(space.mem, space.root, space.role, space.pfnStart, vpn, pfn, RW);
      ok := space.Ptmap(vpn, pfn, RW);
      if ok {
        TablesAccounted(use, old(space.role), space.role, space.root, old(space.pfnStart), space.pfnStart);
        use := AddTables(use, space.root, space.pfnStart);
      }
    }

    /** `palloc_ptr`: one frame for page `vpn`; None is a panic. */
    method PallocPtr(vpn: nat, ghost u: Use) returns (r: Option<nat>)
      requires Counted() && DMA_BASE <= vpn < PAGES && !u.TableFrame?
      modifies this`use, space`mem, space`pfnStart, space`role
      ensures r.None? <==> old(EnsurePath(space.mem, space.root, space.pfnStart + 1, vpn).next) > space.maxPfn
      ensures r.None? ==> space.Exhausted() && old(space.pfnStart) + 3 > space.maxPfn
      ensures r.Some? ==>
        && Counted() && space.pfnStart <= space.maxPfn
        && space.mem == old(Mapped(space.mem, space.root, space.pfnStart + 1, vpn, space.pfnStart, RW))
        && space.pfnStart == old(EnsurePath(space.mem, space.root, space.pfnStart + 1, vpn).next)
        && r.value == old(space.pfnStart) < space.pfnStart <= r.value + 3
        && OnlyTables(use, old(use)[r.value := u], r.value + 1, space.pfnStart)
        && Walk(space.mem, space.root, vpn) == Some(Leaf(r.value, RW))
        && OthersKept(space.mem, old(space.mem), space.root, vpn)
        && TablesKept(space.mem, old(space.mem), space.root)
    {
      hide Walk, Mapped, EnsurePath;
      TablesBound(space.mem, space.root, space.pfnStart + 1, vpn);
      var t := space.Palloc();
      if t.None? { return None; }
      use := use[t.value := u];
      var ok := MapPage(vpn, t.value);
      r := if ok then t else None;
    }

    /** The pages from `vpn` are mapped to the frames from `pfn`, claimed before so that
        `ptmap` takes its tables elsewhere. */
    method MapRun(vpn: nat, pfn: nat, pages: nat) returns (ok: bool)
      requires Counted() && DMA_BASE <= vpn && vpn + pages <= PAGES && space.pfnStart <= space.maxPfn
      modifies this`use, space`mem, space`pfnStart, space`role
      ensures ok <==> old(RunMapped(space.mem, space.root, space.pfnStart, vpn, pfn, pages).1) <= space.maxPfn
      ensures !ok ==> space.Exhausted() && old(space.pfnStart) + 2 * pages > space.maxPfn
      ensures ok ==>
        && Counted()
        && (space.mem, space.pfnStart) == old(RunMapped(space.mem, space.root, space.pfnStart, vpn, pfn, pages))
        && old(space.pfnStart) <= space.pfnStart
        && OnlyTables(use, old(use), old(space.pfnStart), space.pfnStart)
        && RunReached(space.mem, old(space.mem), space.root, vpn, pfn, pages)
        && TablesKept(space.mem, old(space.mem), space.root)
    {
      hide KernelSpace.Valid, Accounted, Walk, Mapped, EnsurePath;
      var i := 0;
      while i < pages
        invariant 0 <= i <= pages && Counted() && space.pfnStart <= space.maxPfn
        invariant (space.mem, space.pfnStart) == old(RunMapped(space.mem, space.root, space.pfnStart, vpn, pfn, i))
        invariant OnlyTables(use, old(use), old(space.pfnStart), space.pfnStart)
        invariant RunReached(space.mem, old(space.mem), space.root, vpn, pfn, i)
        invariant TablesKept(space.mem, old(space.mem), space.root)
      {
        RunMappedGrows(old(space.mem), space.root, old(space.pfnStart), vpn, pfn, i + 1, pages);
        ok := MapPage(vpn + i, pfn + i);
        if !ok { return; }
        i := i + 1;
      }
      ok := true;
    }

    /** Frames for the new pages from `vpn`: `palloc_ptr` for one page, else a claimed run. */
    method BackRun(vpn: nat, pages: nat) returns (ok: bool)
      requires Counted() && pages >= 1 && DMA_BASE <= vpn && vpn + pages <= PAGES
      requires space.pfnStart + pages <= space.maxPfn
      modifies this`use, space`mem, space`pfnStart, space`role
      ensures ok <==> RunMapped(old(space.mem), space.root, old(space.pfnStart) + pages, vpn, old(space.pfnStart),
                                pages).1 <= space.maxPfn
      ensures !ok ==> space.Exhausted() && old(space.pfnStart) + 3 * pages > space.maxPfn
      ensures ok ==> var pfn := old(space.pfnStart);
        && (space.mem, space.pfnStart) == RunMapped(old(space.mem), space.root, pfn + pages, vpn, pfn, pages)
        && Counted() && pfn + pages <= space.pfnStart
        && OnlyTables(use, Claim(old(use), space.root, vpn, pfn, pages), pfn + pages, space.pfnStart)
        && RunReached(space.mem, old(space.mem), space.root, vpn, pfn, pages)
        && TablesKept(space.mem, old(space.mem), space.root)
    {
      hide Walk, Mapped, EnsurePath, WellFormed;
      PfnBound();
      var pfn := space.pfnStart;
      if pages == 1 {
        assert Claim(use, space.root, vpn, pfn, pages) == use[pfn := DmaFrame(vpn)];
        assert RunMapped(space.mem, space.root, pfn + 1, vpn, pfn, 0) == (space.mem, pfn + 1);
        var t := PallocPtr(vpn, DmaFrame(vpn));
        ok := t.Some?;
      } else {
        space.pfnStart := pfn + pages;
        use := Claim(use, space.root, vpn, pfn, pages);
        ok := MapRun(vpn, pfn, pages);
      }
    }

    /** Memory and the frame counter once `dmalloc` has grown by `pages` pages: their frames
        come first, then the frames of their tables. */
    ghost function DmaGrowth(pages: nat): (Memory, nat)
      reads this, space, dma
    {
      RunMapped(space.mem, space.root, space.pfnStart + pages, dma.brk, space.pfnStart, pages)
    }

    /** The break of `dmalloc` grows; None is a panic. */
    method DmallocGrow(pages: nat) returns (r: Option<(nat, nat)>)
      requires Valid() && pages >= 1
      modifies this`use, space`mem, space`pfnStart, space`role, dma`brk, dma`live, dma`tag
      ensures r.None? <==> old(DmaGrowth(pages).1) > space.maxPfn
      ensures r.None? ==> space.pfnStart + pages > space.maxPfn && old(space.pfnStart) + 3 * pages > space.maxPfn
      ensures r.Some? ==>
        && Valid() && r.value == (old(dma.brk), old(space.pfnStart))
        && (space.mem, space.pfnStart) == old(DmaGrowth(pages)) && dma.brk == old(dma.brk) + pages
        && r.value.0 !in old(dma.live)
        && dma.live == old(dma.live)[r.value.0 := Run(r.value.1, pages)]
        && FramesKept(dma.Frames(), old(dma.Frames()))
    {
      hide Framed, Reached, RunReached, OnlyTables, Rooted, TablesKept, Region.Valid, Region.Frames, KernelSpace.Valid;
      hide RunMapped, Mapped, EnsurePath;
      PfnBound();
      dma.Domain();
      kva.Domain();
      if space.pfnStart + pages > space.maxPfn { return None; }
      var pfn := space.pfnStart;
      ghost var frame := dma.Frames();
      var vpn := dma.Extend(pages, pfn);
      ghost var frame' := dma.Frames();
      ghost var claimed := Claim(use, space.root, vpn, pfn, pages);
      ClaimFramed(use, space.root, vpn, pfn, pages, frame, frame', kframe);
      var ok := BackRun(vpn, pages);
      if !ok { return None; }
      ReachedRun(old(space.mem), space.mem, space.root, frame, frame', vpn, pfn, pages);
      ReachedAside(old(space.mem), space.mem, space.root, kframe - guards.Keys, vpn, pfn, pages);
      TablesKeepFramed(claimed, use, pfn + pages, space.pfnStart, frame', true);
      TablesKeepFramed(claimed, use, pfn + pages, space.pfnStart, kframe, false);
      StillRooted(old(space.mem), space.mem, space.root, guards.Keys);
      r := Some((vpn, pfn));
    }

    /** `dmalloc`; None is a panic. */
    method Dmalloc(pages: nat) returns (r: Option<(nat, nat)>)
      requires Valid() && pages >= 1
      modifies this`use, space`mem, space`pfnStart, space`role
      modifies dma`brk, dma`nodes, dma`head, dma`order, dma`live, dma`tag
      ensures r.None? <==> old(dma.First(pages)) == old(|dma.List()|) && old(DmaGrowth(pages).1) > space.maxPfn
      ensures r.None? ==> space.pfnStart + pages > space.maxPfn && old(space.pfnStart) + 3 * pages > space.maxPfn
      ensures old(dma.First(pages)) < old(|dma.List()|) ==>
        var (s, run) := old(dma.List()[dma.First(pages)]);
        && r == Some((s, run.pfn))
        && dma.Valid() && dma.List() == TakenFrom(old(dma.List()), old(dma.First(pages)), pages, true)
        && unchanged(space) && unchanged(`use) && unchanged(dma`brk)
      ensures old(dma.First(pages)) == old(|dma.List()|) && r.Some? ==>
        && r.value == (old(dma.brk), old(space.pfnStart)) && dma.brk == old(dma.brk) + pages
        && (space.mem, space.pfnStart) == old(DmaGrowth(pages))
        && dma.Valid() && dma.List() == old(dma.List())
      ensures r.Some? ==>
        && Valid()
        && r.value.0 !in old(dma.live) && r.value.0 >= DMA_BASE
        && dma.live == old(dma.live)[r.value.0 := Run(r.value.1, pages)]
        && FramesKept(dma.Frames(), old(dma.Frames()))
        && RunFrames(dma.Frames(), r.value.0, r.value.1, pages)
    {
      hide Framed, Reached, Rooted, Linked, Partition, FramesOf, FreeList, RunMapped, PageAllocator.Counted;
      r := dma.Take(pages);
      if r.None? { r := DmallocGrow(pages); }
      if r.Some? { LiveFrames(dma.base, dma.brk, dma.tag, dma.live, dma.Free(), r.value.0); }
    }

    /** `dmafree` of a run that `dmalloc` gave out. */
    method Dmafree(pfn: nat, vpn: nat, pages: nat)
      requires Valid() && vpn in dma.live && dma.live[vpn] == Run(pfn, pages)
      modifies dma`nodes, dma`head, dma`order, dma`live
      ensures Valid() && dma.Valid()
      ensures dma.List() == [(vpn, Run(pfn, pages))] + old(dma.List())
      ensures dma.live == old(dma.live) - {vpn}
      ensures dma.Frames() == old(dma.Frames())
    {
      dma.Give(vpn, pfn, pages);
    }

    /** A freed run is the next one given out: `dmafree` and then `dmalloc` of as many pages
        gives the same pages and frames back, takes no frame and cannot panic. */
    method FreeThenAlloc(pfn: nat, vpn: nat, pages: nat) returns (r: Option<(nat, nat)>)
      requires Valid() && vpn in dma.live && dma.live[vpn] == Run(pfn, pages)
      modifies this`use, space`mem, space`pfnStart, space`role
      modifies dma`brk, dma`nodes, dma`head, dma`order, dma`live, dma`tag
      ensures r == Some((vpn, pfn)) && Valid()
      ensures unchanged(space) && dma.brk == old(dma.brk) && dma.live == old(dma.live)
      ensures dma.Valid() && dma.List() == old(dma.List())
    {
      hide PageAllocator.Counted, Framed, Reached, Rooted, Region.Valid, Region.Frames, Region.List, RunMapped;
      dma.LiveSize(vpn);
      Dmafree(pfn, vpn, pages);
      assert dma.List()[0] == (vpn, Run(pfn, pages)) && dma.First(pages) == 0;
      r := Dmalloc(pages);
    }

    /** Every page with a frame is backed: each `dmalloc` page by its own frame, each `kalloc`
        page by its own frame and, guard pages aside, mapped to it. */
    ghost predicate Backing(frame: map<nat, nat>)
      reads this, space
    {
      && Counted() && space.pfnStart <= space.maxPfn
      && Framed(use, frame, true) && Reached(space.mem, space.root, frame)
      && Framed(use, kframe, false) && Reached(space.mem, space.root, kframe - guards.Keys)
      && Rooted(space.mem, space.root, guards.Keys)
    }

    /** A frame for the new `kalloc` page `vpn`; false is a panic. */
    method BackPage(vpn: nat, ghost frame: map<nat, nat>) returns (ok: bool)
      requires Backing(frame) && KVA_BASE <= vpn < PAGES && vpn !in kframe
      requires forall v :: v in frame ==> DMA_BASE <= v < KVA_BASE
      requires forall v :: v in kframe ==> KVA_BASE <= v < PAGES
      modifies this`use, this`kframe, space`mem, space`pfnStart, space`role
      ensures ok <==> old(EnsurePath(space.mem, space.root, space.pfnStart + 1, vpn).next) <= space.maxPfn
      ensures !ok ==> space.Exhausted() && old(space.pfnStart) + 3 > space.maxPfn
      ensures ok ==>
        && space.mem == old(Mapped(space.mem, space.root, space.pfnStart + 1, vpn, space.pfnStart, RW))
        && space.pfnStart == old(EnsurePath(space.mem, space.root, space.pfnStart + 1, vpn).next)
        && Backing(frame) && old(space.pfnStart) < space.pfnStart <= old(space.pfnStart) + 3
        && kframe == old(kframe)[vpn := old(space.pfnStart)]
    {
      hide KernelSpace.Valid, Walk, Mapped, Framed, Reached, OnlyTables, OthersKept, Rooted, TablesKept;
      ghost var pfn, claimed := space.pfnStart, use[space.pfnStart := KernelFrame(vpn)];
      KernelFramed(use, pfn, vpn, frame, kframe);
      var p := PallocPtr(vpn, KernelFrame(vpn));
      if p.None? { return false; }
      ReachedBeside(old(space.mem), space.mem, space.root, frame, vpn);
      ReachedNew(old(space.mem), space.mem, space.root, kframe, guards.Keys, vpn, pfn);
      StillRooted(old(space.mem), space.mem, space.root, guards.Keys);
      kframe := kframe[vpn := pfn];
      TablesKeepFramed(claimed, use, pfn + 1, space.pfnStart, frame, true);
      TablesKeepFramed(claimed, use, pfn + 1, space.pfnStart, kframe, false);
      ok := true;
    }

    /** Frames for the new `kalloc` pages from `vpn`, one `palloc_ptr` each; false is a panic. */
    method BackPages(vpn: nat, pages: nat, ghost frame: map<nat, nat>) returns (ok: bool)
      requires Backing(frame) && 0 <= vpn - KVA_BASE <= space.pfnStart - space.root
      requires space.maxPfn <= space.root + MAX_FRAMES
      requires forall v :: v in frame ==> DMA_BASE <= v < KVA_BASE
      requires forall v :: v in kframe ==> KVA_BASE <= v < vpn
      modifies this`use, this`kframe, space`mem, space`pfnStart, space`role
      ensures ok <==> old(PagesBacked(space.mem, space.root, space.pfnStart, vpn, pages).1) <= space.maxPfn
      ensures !ok ==> space.Exhausted() && old(space.pfnStart) + 3 * pages > space.maxPfn
      ensures ok ==>
        && (space.mem, space.pfnStart) == old(PagesBacked(space.mem, space.root, space.pfnStart, vpn, pages))
        && Backing(frame) && old(space.pfnStart) + pages <= space.pfnStart
        && (forall v :: v in kframe <==> v in old(kframe) || vpn <= v < vpn + pages)
        && FramesKept(kframe, old(kframe))
    {
      hide Counted, Framed, Reached, Rooted, Mapped, EnsurePath;
      var i := 0;
      while i < pages
        invariant 0 <= i <= pages && Backing(frame)
        invariant (space.mem, space.pfnStart) == old(PagesBacked(space.mem, space.root, space.pfnStart, vpn, i))
        invariant forall v :: v in kframe <==> v in old(kframe) || vpn <= v < vpn + i
        invariant FramesKept(kframe, old(kframe))
      {
        PagesBackedGrows(old(space.mem), space.root, old(space.pfnStart), vpn, i + 1, pages);
        ok := BackPage(vpn + i, frame);
        if !ok { return; }
        i := i + 1;
      }
      ok := true;
    }

    lemma PfnBound()
      requires space.Valid()
      ensures space.root < space.pfnStart <= space.maxPfn
    {
    }

    /** Memory and the frame counter once `kalloc` has grown by `pages` pages. */
    ghost function KernelGrowth(pages: nat): (Memory, nat)
      reads this, space, kva
    {
      PagesBacked(space.mem, space.root, space.pfnStart, kva.brk, pages)
    }

    /** The break of `kalloc` grows; None is a panic. */
    method KallocGrow(pages: nat) returns (r: Option<nat>)
      requires Valid() && pages >= 1
      modifies this`use, this`kframe, space`mem, space`pfnStart, space`role
      modifies kva`brk, kva`live, kva`tag
      ensures r.None? <==> old(KernelGrowth(pages).1) > space.maxPfn
      ensures r.None? ==> space.Exhausted() && old(space.pfnStart) + 3 * pages > space.maxPfn
      ensures r.Some? ==>
        && Valid() && r.value == old(kva.brk) && kva.brk == old(kva.brk) + pages
        && (space.mem, space.pfnStart) == old(KernelGrowth(pages))
        && r.value !in old(kva.live) && kva.live == old(kva.live)[r.value := Run(0, pages)]
    {
      hide Accounted, Framed, Reached, Rooted, Linked, Holds, Covers, KernelSpace.Valid, PagesBacked;
      assert space.pfnStart <= space.maxPfn by { PfnBound(); }
      ghost var frame := dma.Frames();
      assert forall v :: v in frame ==> DMA_BASE <= v < KVA_BASE;
      var vpn := kva.Extend(pages, 0);
      hide Partition, FramesOf;
      assert dma.Frames() == frame;
      var ok := BackPages(vpn, pages, frame);
      if !ok { return None; }
      r := Some(vpn);
    }

    /** `kalloc` of `size` bytes: the first page of the run, 0 for no bytes; None is a panic. */
    method Kalloc(size: nat) returns (r: Option<nat>)
      requires Valid()
      modifies this`use, this`kframe, space`mem, space`pfnStart, space`role
      modifies kva`brk, kva`nodes, kva`head, kva`order, kva`live, kva`tag
      ensures var pages := PageUp(size);
        r.None? <==>
          size > 0 && old(kva.First(pages)) == old(|kva.List()|) && old(KernelGrowth(pages).1) > space.maxPfn
      ensures r.None? ==> space.Exhausted() && old(space.pfnStart) + 3 * PageUp(size) > space.maxPfn
      ensures var pages := PageUp(size);
        size > 0 && old(kva.First(pages)) < old(|kva.List()|) ==>
          && r == Some(old(kva.List()[kva.First(pages)].0))
          && kva.Valid() && kva.List() == TakenFrom(old(kva.List()), old(kva.First(pages)), pages, false)
          && unchanged(space) && unchanged(`use) && unchanged(`kframe) && unchanged(kva`brk)
      ensures var pages := PageUp(size);
        size > 0 && old(kva.First(pages)) == old(|kva.List()|) && r.Some? ==>
          && r.value == old(kva.brk) && kva.brk == old(kva.brk) + pages
          && (space.mem, space.pfnStart) == old(KernelGrowth(pages))
          && kva.Valid() && kva.List() == old(kva.List())
      ensures r.Some? ==> Valid()
      ensures size == 0 ==> r == Some(0) && unchanged(this, space, kva)
      ensures r.Some? && size > 0 ==>
        && r.value !in old(kva.live) && r.value in kva.live && r.value >= KVA_BASE
        && kva.live[r.value].size == PageUp(size)
        && kva.live == old(kva.live)[r.value := kva.live[r.value]]
    {
      hide Framed, Reached, Rooted, Linked, Partition, FramesOf, FreeList, PagesBacked, PageAllocator.Counted;
      if size == 0 { return Some(0); }
      var pages := PageUp(size);
      var t := kva.Take(pages);
      if t.Some? {
        LiveFrames(kva.base, kva.brk, kva.tag, kva.live, kva.Free(), t.value.0);
        return Some(t.value.0);
      }
      r := KallocGrow(pages);
    }

    /** `kfree` of a run that `kalloc` gave out. */
    method Kfree(vpn: nat, size: nat)
      requires Valid()
      requires size > 0 ==> vpn in kva.live && kva.live[vpn].size == PageUp(size) && vpn !in guards
      modifies kva`nodes, kva`head, kva`order, kva`live
      ensures Valid() && kva.Valid()
      ensures kva.live == if size == 0 then old(kva.live) else old(kva.live) - {vpn}
      ensures kva.List() == (if size == 0 then [] else [(vpn, Run(0, PageUp(size)))]) + old(kva.List())
    {
      hide Framed, Reached, Rooted, Linked, FramesOf, FreeList, PageAllocator.Counted;
      if size == 0 { return; }
      kva.Give(vpn, 0, PageUp(size));
    }

    /** Pages of the `kalloc` range lie between its base and the trampoline. */
    lemma KernelPages()
      requires Valid()
      ensures forall v :: v in kframe ==> KVA_BASE <= v < PAGES
      ensures forall v :: v in kva.live ==> v in kframe
      ensures forall v :: v in dma.Frames() ==> DMA_BASE <= v < KVA_BASE
      ensures WellFormed(space.mem, space.root, space.role)
    {
      forall v | v in kva.live ensures v in kframe {
        LiveFrames(kva.base, kva.brk, kva.tag, kva.live, kva.Free(), v);
      }
    }

    /** `ptunmap` of the first page of a run, which becomes its guard page. */
    method Unmap(vpn: nat) returns (r: Option<nat>)
      requires Valid() && vpn in kva.live && vpn !in guards
      modifies space`mem, this`guards
      ensures r.Some? && Valid() && dma.Valid() && guards == old(guards)[vpn := r.value]
      ensures space.mem == old(Unmapped(space.mem, space.root, vpn))
    {
      hide Framed, Accounted, WellFormed, Region.Valid, FramesOf, Walk, LastTable, Unmapped;
      KernelPages();
      WalkIsLast(space.mem, space.root, space.role, vpn);
      UnmappedKeepsTables(space.mem, space.root, space.role, vpn);
      assert MapsTo(space.mem, space.root, vpn, (kframe - guards.Keys)[vpn]);
      r := space.Ptunmap(vpn);
      ReachedBeside(old(space.mem), space.mem, space.root, dma.Frames(), vpn);
      ReachedGone(old(space.mem), space.mem, space.root, kframe, guards.Keys, vpn);
      guards := guards[vpn := r.value];
      assert guards.Keys == old(guards.Keys) + {vpn};
    }

    /** `ptmap` of a guard page back to its frame. Its tables are still there, so no frame is
        taken and there is no panic. */
    method Remap(vpn: nat, pfn: nat)
      requires Valid() && vpn in guards && pfn == guards[vpn]
      modifies this`use, this`guards, space`mem, space`pfnStart, space`role
      ensures Valid() && dma.Valid() && guards == old(guards) - {vpn} && space.pfnStart == old(space.pfnStart)
      ensures space.mem == old(Mapped(space.mem, space.root, space.pfnStart, vpn, pfn, RW))
    {
      hide Framed, Accounted, WellFormed, Region.Valid, FramesOf, Walk, Mapped, OnlyTables, LastTable;
      KernelPages();
      PfnBound();
      PathThere(space.mem, space.root, space.pfnStart, vpn);
      var ok := MapPage(vpn, pfn);
      ReachedBeside(old(space.mem), space.mem, space.root, dma.Frames(), vpn);
      assert kframe[vpn := pfn] == kframe;
      ReachedNew(old(space.mem), space.mem, space.root, kframe, guards.Keys, vpn, pfn);
      TablesKeepFramed(old(use), use, old(space.pfnStart), space.pfnStart, dma.Frames(), true);
      TablesKeepFramed(old(use), use, old(space.pfnStart), space.pfnStart, kframe, false);
      guards := guards - {vpn};
      assert guards.Keys == old(guards.Keys) - {vpn};
    }
  }
}
