/** `ptref_copy` (kernel/pagetable.c): the deep copy of an address space that `fork` makes. */
module SpaceCopy {
  import opened Paging
  import opened PageRuns
  import opened Allocator
  import opened UserTable
  import opened AddressSpaces

  /** Everything user memory is made of, at one moment. */
  datatype Snap = Snap(m: UserMem, frame: map<nat, nat>, own: map<nat, Owner>, kown: map<nat, Owner>,
                       live: map<nat, Run>, klive: map<nat, Run>)

  ghost function Now(u: UserMemory): Snap
    requires u.alloc.dma.Valid()
    reads u, u.alloc, u.alloc.dma, u.alloc.kva
  {
    Snap(u.m, u.Frames(), u.own, u.kown, u.alloc.dma.live, u.alloc.kva.live)
  }

  /** The bytes of live pages stay. */
  ghost predicate BytesKept(m': UserMem, m: UserMem, frame: map<nat, nat>, live: map<nat, Run>)
  {
    forall v :: v in live && v in frame ==> Bytes(m', frame, v) == Bytes(m, frame, v)
  }

  /** From `t` to `t'` space `id` grew, by newly allocated pages, and nothing else changed. */
  ghost predicate Progress(t': Snap, t: Snap, id: nat)
  {
    && OnlySpace(t'.m, t.m, t.frame, t'.own, t.own, t'.kown, t.kown, id)
    && Extended(t'.frame, t.frame)
    && Gained(t'.own, t.own, t'.live, t.live, id)
    && Gained(t'.kown, t.kown, t'.klive, t.klive, id)
    && BytesKept(t'.m, t.m, t.frame, t.live)
  }

  lemma ProgressRefl(t: Snap, id: nat)
    ensures Progress(t, t, id)
  {
    OnlySpaceRefl(t.m, t.frame, t.own, t.kown, id);
  }

  lemma ProgressTrans(t0: Snap, t1: Snap, t2: Snap, id: nat)
    requires Progress(t1, t0, id) && Progress(t2, t1, id)
    ensures Progress(t2, t0, id)
  {
    OnlySpaceTrans(t0.m, t1.m, t2.m, t0.frame, t1.frame, t0.own, t1.own, t2.own, t0.kown, t1.kown, t2.kown, id);
    GainedTrans(t0.own, t1.own, t2.own, t0.live, t1.live, t2.live, id);
    GainedTrans(t0.kown, t1.kown, t2.kown, t0.klive, t1.klive, t2.klive, id);
  }

  /** Everything `Valid` says about a moment, the allocator aside. */
  ghost predicate Sound(t: Snap, spaces: map<nat, Space>)
  {
    && AllTrees(t.m, t.frame, t.own, t.kown, spaces) && Backed(t.live, t.klive, t.own, t.kown)
    && Injective(t.frame) && AllFramed(t.own, t.frame) && 0 !in t.own
  }

  lemma SoundNow(u: UserMemory)
    requires u.Valid()
    ensures Sound(Now(u), u.spaces)
  {
    u.FrameFacts();
  }

  /** The bytes of a kernel page. */
  function Bytes(m: UserMem, frame: map<nat, nat>, v: nat): Block
  {
    if FrameNat(frame, v) in m.bytes then m.bytes[FrameNat(frame, v)] else []
  }

  ghost predicate Empty(m: UserMem, s: Space, vpn: nat)
  {
    Walkupt(m, s, vpn) == 0 && Walk(m.tables, s.pfn, vpn) == None
  }

  /** Page `vpn` of `dst` is a copy of that page of `src`, on a page not in `live`; and it
      is unmapped where the kernel has no page for it in `src`. */
  ghost predicate Copied(m: UserMem, frame: map<nat, nat>, live: map<nat, Run>, src: Space, dst: Space, vpn: nat)
  {
    var from, to := Walkupt(m, src, vpn), Walkupt(m, dst, vpn);
    if from == 0 then Empty(m, dst, vpn)
    else
      && to != 0 && to !in live
      && Walk(m.tables, src.pfn, vpn).Some?
      && Walk(m.tables, dst.pfn, vpn) == Some(Leaf(FrameNat(frame, to), Walk(m.tables, src.pfn, vpn).value.flags))
      && Bytes(m, frame, to) == Bytes(m, frame, from)
  }

  ghost predicate AllCopied(m: UserMem, frame: map<nat, nat>, live: map<nat, Run>, src: Space, dst: Space, lo: nat,
                            hi: nat)
  {
    forall vpn: nat :: lo <= vpn < hi ==> Copied(m, frame, live, src, dst, vpn)
  }

  ghost predicate AllEmpty(m: UserMem, s: Space, lo: nat, hi: nat)
  {
    forall vpn: nat :: lo <= vpn < hi ==> Empty(m, s, vpn)
  }

  /** Both walks of `s` give the same outside [lo, hi). */
  ghost predicate KeptOutside(m': UserMem, m: UserMem, s: Space, lo: nat, hi: nat)
  {
    forall vpn: nat :: vpn < PAGES && !(lo <= vpn < hi) ==>
      Walk(m'.tables, s.pfn, vpn) == Walk(m.tables, s.pfn, vpn) && Walkupt(m', s, vpn) == Walkupt(m, s, vpn)
  }

  /** A space that the changes do not concern looks the same to both walks. */
  lemma OtherKept(t: Snap, t': Snap, s: Space, id: nat, x: nat, vpn: nat)
    requires OnlySpace(t'.m, t.m, t.frame, t'.own, t.own, t'.kown, t.kown, id) && Extended(t'.frame, t.frame)
    requires Tree(t.m, t.frame, t.own, t.kown, s, x) && x != id
    ensures Walkupt(t'.m, s, vpn) == Walkupt(t.m, s, vpn)
    ensures Walk(t'.m.tables, s.pfn, vpn) == Walk(t.m.tables, s.pfn, vpn)
  {
    var i, j, k := Vpn(2, vpn), Vpn(1, vpn), Vpn(0, vpn);
    assert SameFor(t'.m, t.m, t.frame, t.own, t.kown, x) && SameOwner(t'.own, t.own, x) &&
      SameOwner(t'.kown, t.kown, x);
    TreeKept(t.m, t'.m, t.frame, t'.frame, t.own, t'.own, t.kown, t'.kown, s, x);
    WalksAgree(t.m, t.frame, t.own, t.kown, s, x, vpn);
    WalksAgree(t'.m, t'.frame, t'.own, t'.kown, s, x, vpn);
    assert PageAt(t'.m, s, Page(i, j, k)) == PageAt(t.m, s, Page(i, j, k));
    assert PageAt(t'.m, s, Low(i, j)) == PageAt(t.m, s, Low(i, j));
    if PageAt(t.m, s, Low(i, j)) != 0 {
      assert TableAt(t.m, t.frame, t.own, t.kown, s, x, Low(i, j));
      assert OwnedBy(t.own, PageAt(t.m, s, Low(i, j)), x);
    }
  }

  /** A space that did not grow looks the same to both walks. */
  lemma SourceKept(t: Snap, t': Snap, spaces: map<nat, Space>, id: nat, src: nat, vpn: nat)
    requires Progress(t', t, id) && Sound(t, spaces) && Alive(spaces, src) && src != id
    ensures Walkupt(t'.m, spaces[src], vpn) == Walkupt(t.m, spaces[src], vpn)
    ensures Walk(t'.m.tables, spaces[src].pfn, vpn) == Walk(t.m.tables, spaces[src].pfn, vpn)
  {
    hide Walk, Walkupt, Tree, OnlySpace;
    OtherKept(t, t', spaces[src], id, src, vpn);
  }

  /** The kernel page behind a user page is live and framed. */
  lemma PageLive(t: Snap, spaces: map<nat, Space>, id: nat, vpn: nat)
    requires Sound(t, spaces) && Alive(spaces, id) && Walkupt(t.m, spaces[id], vpn) != 0
    ensures var v := Walkupt(t.m, spaces[id], vpn); v in t.own && v in t.live && v in t.frame
  {
    assert PageAt(t.m, spaces[id], Page(Vpn(2, vpn), Vpn(1, vpn), Vpn(0, vpn))) == Walkupt(t.m, spaces[id], vpn);
  }

  /** A copied page stays a copy while the rest of the copy is made. */
  lemma CopiedKept(t: Snap, t': Snap, spaces: map<nat, Space>, live: map<nat, Run>, dst: nat, src: nat, vpn: nat)
    requires Progress(t', t, dst) && Sound(t, spaces) && Sound(t', spaces)
    requires Alive(spaces, src) && Alive(spaces, dst) && src != dst
    requires Walkupt(t'.m, spaces[dst], vpn) == Walkupt(t.m, spaces[dst], vpn)
    requires Walk(t'.m.tables, spaces[dst].pfn, vpn) == Walk(t.m.tables, spaces[dst].pfn, vpn)
    requires Copied(t.m, t.frame, live, spaces[src], spaces[dst], vpn)
    ensures Copied(t'.m, t'.frame, live, spaces[src], spaces[dst], vpn)
  {
    hide Walk, Walkupt, Sound, OnlySpace;
    SourceKept(t, t', spaces, dst, src, vpn);
    if Walkupt(t.m, spaces[src], vpn) != 0 {
      PageLive(t, spaces, src, vpn);
      PageLive(t, spaces, dst, vpn);
    }
  }

  /** The leaf entry the kernel reads for a page it has is the one the hardware finds. */
  lemma SourceEntry(u: UserMemory, id: nat, vpn: nat)
    requires u.Valid() && Alive(u.spaces, id) && Walkupt(u.m, u.spaces[id], vpn) != 0
    ensures var s := u.spaces[id];
            var e := Load(u.m.tables, u.Phys(LowRef(u.m, s, Vpn(2, vpn), Vpn(1, vpn)).table), Vpn(0, vpn));
            && IsLeaf(e.flags) && Walk(u.m.tables, s.pfn, vpn) == Some(Leaf(e.pfn, e.flags))
            && Walkupt(u.m, s, vpn) in u.Frames() && Walkupt(u.m, s, vpn) in u.own
  {
    hide PageAllocator.Valid, Region.Valid, Walk, AllTrees;
    var s := u.spaces[id];
    SoundNow(u);
    PageLive(Now(u), u.spaces, id, vpn);
    u.LowPhys(id, Vpn(2, vpn), Vpn(1, vpn));
    LeafEntry(u.m, u.Frames(), u.own, u.kown, u.spaces, id, vpn);
  }

  lemma LeafEntry(m: UserMem, frame: map<nat, nat>, own: map<nat, Owner>, kown: map<nat, Owner>,
                  spaces: map<nat, Space>, id: nat, vpn: nat)
    requires AllTrees(m, frame, own, kown, spaces) && Alive(spaces, id) && Walkupt(m, spaces[id], vpn) != 0
    ensures var low := LowRef(m, spaces[id], Vpn(2, vpn), Vpn(1, vpn)).table;
            var e := Entry(m, frame, low, Vpn(0, vpn));
            IsLeaf(e.flags) && Walk(m.tables, spaces[id].pfn, vpn) == Some(Leaf(e.pfn, e.flags))
  {
    WalksAgree(m, frame, own, kown, spaces[id], id, vpn);
  }

  /** A fresh page put at `vpn` and filled is progress of its space. */
  lemma PageProgress(t: Snap, t': Snap, spaces: map<nat, Space>, id: nat, v: nat, pfn: nat, o: Owner)
    requires Sound(t, spaces) && Injective(t'.frame)
    requires v !in t.own && v !in t.live && v != 0 && o.id == id
    requires Extended(t'.frame, t.frame) && v in t'.frame && t'.frame[v] == pfn
    requires t'.own == t.own[v := o] && t'.kown == t.kown && t'.live == t.live[v := Run(pfn, 1)] && t'.klive == t.klive
    requires OnlySpace(t'.m, t.m, t.frame, t'.own, t.own, t'.kown, t.kown, id)
    requires forall p :: p != pfn ==>
      (p in t'.m.bytes <==> p in t.m.bytes) && (p in t.m.bytes ==> t'.m.bytes[p] == t.m.bytes[p])
    ensures Progress(t', t, id)
  {
    GainedOne(t.own, t.live, v, o, Run(pfn, 1));
    forall w | w in t.live && w in t.frame ensures Bytes(t'.m, t.frame, w) == Bytes(t.m, t.frame, w) {
      assert w in t'.frame && t'.frame[w] == t.frame[w];
      assert t.frame[w] != pfn;
    }
  }

  /** The same for a page that was mapped, giving `m2`, and then filled. */
  lemma NewPageProgress(t: Snap, t': Snap, m2: UserMem, spaces: map<nat, Space>, id: nat, v: nat, pfn: nat, o: Owner,
                        b: Block)
    requires Sound(t, spaces) && Injective(t'.frame)
    requires v !in t.own && v !in t.live && v != 0 && o.id == id
    requires Extended(t'.frame, t.frame) && v in t'.frame && t'.frame[v] == pfn
    requires t'.own == t.own[v := o] && t'.kown == t.kown && t'.live == t.live[v := Run(pfn, 1)] && t'.klive == t.klive
    requires OnlySpace(m2, t.m, t'.frame, t'.own, t.own, t'.kown, t.kown, id)
    requires m2.bytes == t.m.bytes && t'.m == m2.(bytes := m2.bytes[pfn := b])
    ensures Progress(t', t, id)
  {
    hide Sound, Injective, OnlySpace, Extended;
    OnlySpaceBytes(m2, t.m, t'.m.bytes, t'.frame, t'.own, t.own, t'.kown, t.kown, id);
    OnlySpaceFrames(t'.m, t.m, t'.frame, t.frame, t'.own, t.own, t'.kown, t.kown, id);
    PageProgress(t, t', spaces, id, v, pfn, o);
  }

  lemma ViewThen(m0: UserMem, m1: UserMem, m2: UserMem, s: Space, vpn: nat)
    requires ViewKeptExcept(m1, m0, s, vpn) && ViewKept(m2, m1, s)
    ensures KeptOutside(m2, m0, s, vpn, vpn + 1)
    ensures Walkupt(m2, s, vpn) == Walkupt(m1, s, vpn) && Walk(m2.tables, s.pfn, vpn) == Walk(m1.tables, s.pfn, vpn)
  {
  }

  /** One iteration of the innermost loop of `ptref_copy`: a new page for `vpn` of `dst`
      with the flags and the bytes of that page of `src`. False is a panic. */
  method CopyPage(u: UserMemory, ghost srcId: nat, src: Space, ghost dstId: nat, dst: Space, vpn: nat,
                  ghost live: map<nat, Run>) returns (ok: bool)
    requires u.Valid() && Alive(u.spaces, srcId) && Alive(u.spaces, dstId) && srcId != dstId
    requires u.spaces[srcId] == src && u.spaces[dstId] == dst && vpn < PAGES
    requires Walkupt(u.m, src, vpn) != 0 && Walkupt(u.m, dst, vpn) == 0
    requires LowRef(u.m, dst, Vpn(2, vpn), Vpn(1, vpn)).table != 0
    requires forall v :: v in live ==> v in u.alloc.dma.live
    modifies u`m, u`own, u.alloc`use, u.alloc`kframe, u.alloc.space, u.alloc.dma
    ensures !ok ==> u.alloc.space.Exhausted()
    ensures ok ==>
      && u.Valid() && Progress(Now(u), old(Now(u)), dstId) && u.m.refs == old(u.m.refs)
      && (forall v :: v in live ==> v in u.alloc.dma.live)
      && KeptOutside(u.m, old(u.m), dst, vpn, vpn + 1)
      && AllCopied(u.m, u.Frames(), live, src, dst, vpn, vpn + 1)
  {
    hide PageAllocator.Valid, Region.Valid, Region.Frames, AllTrees, Backed, Contents, OnlySpace, Walk, Walkupt, LowRef;
    hide Progress, Injective;
    hide ViewKept, ViewKeptExcept, AllPathsKept, KeptOutside, Sound;
    SoundNow(u);
    ghost var t0 := Now(u);
    var t := u.NewPage();
    if t.None? { return false; }
    var (v, pfn) := t.value;
    var from := Walkupt(u.m, src, vpn);
    var low := LowRef(u.m, src, Vpn(2, vpn), Vpn(1, vpn));
    var e := Load(u.m.tables, u.Phys(low.table), Vpn(0, vpn));
    SourceEntry(u, srcId, vpn);
    u.PutLeaf(dstId, dst, vpn, Pte(pfn, e.flags), v);
    ghost var m2 := u.m;
    u.CopyBytes(v, from);
    SoundNow(u);
    ViewThen(t0.m, m2, u.m, dst, vpn);
    NewPageProgress(t0, Now(u), m2, u.spaces, dstId, v, pfn, UserMemory.OwnerOf(dstId, vpn), u.m.bytes[pfn]);
    SourceKept(t0, Now(u), u.spaces, dstId, srcId, vpn);
    assert Copied(u.m, u.Frames(), live, src, dst, vpn);
    ok := true;
  }

  /** Pages copied before stay copies while a later part is copied. */
  lemma AllCopiedKept(t: Snap, t': Snap, spaces: map<nat, Space>, live: map<nat, Run>, dst: nat, src: nat,
                      lo: nat, mid: nat, hi: nat)
    requires Progress(t', t, dst) && Sound(t, spaces) && Sound(t', spaces)
    requires Alive(spaces, src) && Alive(spaces, dst) && src != dst && lo <= mid <= hi <= PAGES
    requires AllCopied(t.m, t.frame, live, spaces[src], spaces[dst], lo, mid)
    requires KeptOutside(t'.m, t.m, spaces[dst], mid, hi)
    ensures AllCopied(t'.m, t'.frame, live, spaces[src], spaces[dst], lo, mid)
  {
    forall vpn: nat | lo <= vpn < mid ensures Copied(t'.m, t'.frame, live, spaces[src], spaces[dst], vpn) {
      CopiedKept(t, t', spaces, live, dst, src, vpn);
    }
  }

  /** Of the pages [lo, hi) of `dst`, those below `cur` are copied since `t0` and the others
      are still empty; pages outside are as at `t0`. */
  ghost predicate Part(t: Snap, t0: Snap, spaces: map<nat, Space>, live: map<nat, Run>, src: nat, dst: nat,
                       lo: nat, cur: nat, hi: nat)
  {
    && Alive(spaces, src) && Alive(spaces, dst)
    && Progress(t, t0, dst) && lo <= cur <= hi <= PAGES
    && AllCopied(t.m, t.frame, live, spaces[src], spaces[dst], lo, cur)
    && AllEmpty(t.m, spaces[dst], cur, hi)
    && KeptOutside(t.m, t0.m, spaces[dst], lo, hi)
  }

  lemma PartStep(t0: Snap, t: Snap, t': Snap, spaces: map<nat, Space>, live: map<nat, Run>, src: nat, dst: nat,
                 lo: nat, cur: nat, next: nat, hi: nat)
    requires Alive(spaces, src) && Alive(spaces, dst) && src != dst && Sound(t, spaces) && Sound(t', spaces)
    requires Part(t, t0, spaces, live, src, dst, lo, cur, hi) && cur <= next <= hi
    requires Progress(t', t, dst)
    requires AllCopied(t'.m, t'.frame, live, spaces[src], spaces[dst], cur, next)
    requires KeptOutside(t'.m, t.m, spaces[dst], cur, next)
    ensures Part(t', t0, spaces, live, src, dst, lo, next, hi)
  {
    hide Walk, Walkupt;
    ProgressTrans(t0, t, t', dst);
    AllCopiedKept(t, t', spaces, live, dst, src, lo, cur, next);
    forall vpn: nat | next <= vpn < hi ensures Empty(t'.m, spaces[dst], vpn) { assert Empty(t.m, spaces[dst], vpn); }
  }

  lemma PartSkip(t0: Snap, t: Snap, spaces: map<nat, Space>, live: map<nat, Run>, src: nat, dst: nat,
                 lo: nat, cur: nat, next: nat, hi: nat)
    requires Alive(spaces, src) && Alive(spaces, dst)
    requires Part(t, t0, spaces, live, src, dst, lo, cur, hi) && cur <= next <= hi
    requires forall vpn: nat :: cur <= vpn < next ==> Walkupt(t.m, spaces[src], vpn) == 0
    ensures Part(t, t0, spaces, live, src, dst, lo, next, hi)
  {
    hide Walk, Walkupt;
    forall vpn: nat | lo <= vpn < next ensures Copied(t.m, t.frame, live, spaces[src], spaces[dst], vpn) {
      if cur <= vpn { assert Empty(t.m, spaces[dst], vpn); }
    }
  }

  lemma PartStart(t: Snap, spaces: map<nat, Space>, live: map<nat, Run>, src: nat, dst: nat, lo: nat, hi: nat)
    requires Alive(spaces, src) && Alive(spaces, dst) && lo <= hi <= PAGES && AllEmpty(t.m, spaces[dst], lo, hi)
    ensures Part(t, t, spaces, live, src, dst, lo, lo, hi)
  {
    ProgressRefl(t, dst);
  }

  lemma JoinLow(i: nat, j: nat, k: nat)
    requires i < ENTRIES && j < ENTRIES && k <= ENTRIES
    ensures Join(i, j, k) == Join(i, j, 0) + k <= PAGES
  {
  }

  lemma JoinMid(i: nat, j: nat)
    requires i < ENTRIES && j < ENTRIES
    ensures Join(i, j, ENTRIES) == Join(i, j + 1, 0)
    ensures Join(i, 0, 0) <= Join(i, j, 0) <= Join(i, j, ENTRIES) <= Join(i, ENTRIES, 0) <= PAGES
  {
  }

  /** The innermost loop of `ptref_copy`: one last-level table. */
  method CopyLow(u: UserMemory, ghost srcId: nat, src: Space, ghost dstId: nat, dst: Space, i: nat, j: nat,
                 ghost live: map<nat, Run>) returns (ok: bool)
    requires u.Valid() && Alive(u.spaces, srcId) && Alive(u.spaces, dstId) && srcId != dstId
    requires u.spaces[srcId] == src && u.spaces[dstId] == dst && i < ENTRIES && j < ENTRIES
    requires LowRef(u.m, dst, i, j).table != 0
    requires forall v :: v in live ==> v in u.alloc.dma.live
    requires AllEmpty(u.m, dst, Join(i, j, 0), Join(i, j, ENTRIES))
    modifies u`m, u`own, u.alloc`use, u.alloc`kframe, u.alloc.space, u.alloc.dma
    ensures !ok ==> u.alloc.space.Exhausted()
    ensures ok ==>
      && u.Valid() && u.m.refs == old(u.m.refs)
      && Part(Now(u), old(Now(u)), u.spaces, live, srcId, dstId, Join(i, j, 0), Join(i, j, ENTRIES),
        Join(i, j, ENTRIES))
  {
    hide PageAllocator.Valid, Region.Valid, Region.Frames, AllTrees, Backed, Contents, Walk, Walkupt, Part, Sound;
    hide Progress;
    hide AllCopied, AllEmpty, KeptOutside, LowRef, Join, Vpn;
    ghost var t0, b := Now(u), Join(i, j, 0);
    JoinLow(i, j, ENTRIES);
    PartStart(t0, u.spaces, live, srcId, dstId, b, b + ENTRIES);
    var k := 0;
    while k < ENTRIES
      invariant 0 <= k <= ENTRIES && u.Valid() && u.m.refs == old(u.m.refs)
      invariant forall v :: v in live ==> v in u.alloc.dma.live
      invariant Part(Now(u), t0, u.spaces, live, srcId, dstId, b, b + k, b + ENTRIES)
    {
      IndicesOfJoin(i, j, k);
      JoinLow(i, j, k);
      RefsKept(u.m, t0.m, dst);
      var vpn := Join(i, j, k);
      ghost var t := Now(u);
      if Walkupt(u.m, src, vpn) != 0 {
        SoundNow(u);
        PartHere(t, t0, u.spaces, live, srcId, dstId, b, vpn, b + ENTRIES);
        ok := CopyPage(u, srcId, src, dstId, dst, vpn, live);
        if !ok { return; }
        SoundNow(u);
        PartStep(t0, t, Now(u), u.spaces, live, srcId, dstId, b, vpn, vpn + 1, b + ENTRIES);
      } else {
        PartSkip(t0, t, u.spaces, live, srcId, dstId, b, vpn, vpn + 1, b + ENTRIES);
      }
      k := k + 1;
    }
    ok := true;
  }

  lemma PartHere(t: Snap, t0: Snap, spaces: map<nat, Space>, live: map<nat, Run>, src: nat, dst: nat,
                 lo: nat, cur: nat, hi: nat)
    requires Alive(spaces, src) && Alive(spaces, dst)
    requires Part(t, t0, spaces, live, src, dst, lo, cur, hi) && cur < hi
    ensures Walkupt(t.m, spaces[dst], cur) == 0
  {
    assert Empty(t.m, spaces[dst], cur);
  }

  /** A new interior table is progress of its space, and changes no page. */
  lemma TablePart(t0: Snap, t: Snap, t': Snap, spaces: map<nat, Space>, live: map<nat, Run>, src: nat, dst: nat,
                  lo: nat, cur: nat, hi: nat)
    requires Alive(spaces, src) && Alive(spaces, dst) && src != dst && Sound(t, spaces) && Sound(t', spaces)
    requires Part(t, t0, spaces, live, src, dst, lo, cur, hi)
    requires OnlySpace(t'.m, t.m, t.frame, t'.own, t.own, t'.kown, t.kown, dst) && Extended(t'.frame, t.frame)
    requires Gained(t'.own, t.own, t'.live, t.live, dst) && Gained(t'.kown, t.kown, t'.klive, t.klive, dst)
    requires t'.m.bytes == t.m.bytes && ViewKept(t'.m, t.m, spaces[dst])
    ensures Part(t', t0, spaces, live, src, dst, lo, cur, hi)
    ensures forall v :: v in t.live ==> v in t'.live
  {
    hide Walk, Walkupt;
    PartStep(t0, t, t', spaces, live, src, dst, lo, cur, cur, hi);
  }

  /** A copied part is one step of the part around it. */
  lemma PartNest(t0: Snap, t: Snap, t': Snap, spaces: map<nat, Space>, live: map<nat, Run>, src: nat, dst: nat,
                 lo: nat, cur: nat, next: nat, hi: nat)
    requires Alive(spaces, src) && Alive(spaces, dst) && src != dst && Sound(t, spaces) && Sound(t', spaces)
    requires Part(t, t0, spaces, live, src, dst, lo, cur, hi) && cur <= next <= hi
    requires Part(t', t, spaces, live, src, dst, cur, next, next)
    ensures Part(t', t0, spaces, live, src, dst, lo, next, hi)
    ensures forall v :: v in t.live ==> v in t'.live
  {
    hide Walk, Walkupt;
    PartStep(t0, t, t', spaces, live, src, dst, lo, cur, next, hi);
  }

  lemma PartEmpty(t: Snap, t0: Snap, spaces: map<nat, Space>, live: map<nat, Run>, src: nat, dst: nat,
                  lo: nat, cur: nat, next: nat, hi: nat)
    requires Alive(spaces, src) && Alive(spaces, dst)
    requires Part(t, t0, spaces, live, src, dst, lo, cur, hi) && next <= hi
    ensures AllEmpty(t.m, spaces[dst], cur, next)
  {
    forall vpn: nat | cur <= vpn < next ensures Empty(t.m, spaces[dst], vpn) { }
  }

  /** Where `src` has no table, it has no page. */
  lemma NoLowNoPage(m: UserMem, s: Space, i: nat, j: nat)
    requires i < ENTRIES && j < ENTRIES && LowRef(m, s, i, j).table == 0
    ensures forall vpn: nat :: Join(i, j, 0) <= vpn < Join(i, j, ENTRIES) ==> Walkupt(m, s, vpn) == 0
  {
    forall vpn: nat | Join(i, j, 0) <= vpn < Join(i, j, ENTRIES) ensures Walkupt(m, s, vpn) == 0 {
      IndicesOfJoin(i, j, vpn - Join(i, j, 0));
    }
  }

  lemma NoMidNoPage(m: UserMem, s: Space, i: nat)
    requires i < ENTRIES && MidRef(m, s, i).table == 0
    ensures forall vpn: nat :: Join(i, 0, 0) <= vpn < Join(i, ENTRIES, 0) ==> Walkupt(m, s, vpn) == 0
  {
    forall vpn: nat | Join(i, 0, 0) <= vpn < Join(i, ENTRIES, 0) ensures Walkupt(m, s, vpn) == 0 {
      var d := vpn - Join(i, 0, 0);
      IndicesOfJoin(i, d / 512, d % 512);
    }
  }

  /** The middle loop of `ptref_copy`: one middle table. */
  method CopyMid(u: UserMemory, ghost srcId: nat, src: Space, ghost dstId: nat, dst: Space, i: nat,
                 ghost live: map<nat, Run>) returns (ok: bool)
    requires u.Valid() && Alive(u.spaces, srcId) && Alive(u.spaces, dstId) && srcId != dstId
    requires u.spaces[srcId] == src && u.spaces[dstId] == dst && i < ENTRIES
    requires MidRef(u.m, dst, i).table != 0
    requires forall y: nat :: y < ENTRIES ==> LowRef(u.m, dst, i, y).table == 0
    requires forall v :: v in live ==> v in u.alloc.dma.live
    requires AllEmpty(u.m, dst, Join(i, 0, 0), Join(i, ENTRIES, 0))
    modifies u`m, u`own, u`kown, u.alloc`use, u.alloc`kframe, u.alloc.space, u.alloc.dma, u.alloc.kva
    ensures !ok ==> u.alloc.space.Exhausted()
    ensures ok ==>
      && u.Valid()
      && (forall x: nat :: x < ENTRIES ==> MidRef(u.m, dst, x).table == old(MidRef(u.m, dst, x).table))
      && Part(Now(u), old(Now(u)), u.spaces, live, srcId, dstId, Join(i, 0, 0), Join(i, ENTRIES, 0),
        Join(i, ENTRIES, 0))
  {
    hide PageAllocator.Valid, Region.Valid, Region.Frames, AllTrees, Backed, Contents, Walk, Walkupt, Part, Sound;
    hide Progress;
    hide ViewKept, OnlySpace, Gained, Extended, PathsKept, AllCopied, AllEmpty, KeptOutside, LowRef, MidRef, Join;
    ghost var t0, lo, hi := Now(u), Join(i, 0, 0), Join(i, ENTRIES, 0);
    JoinMid(i, 0);
    PartStart(t0, u.spaces, live, srcId, dstId, lo, hi);
    var j := 0;
    while j < ENTRIES
      invariant 0 <= j <= ENTRIES && u.Valid()
      invariant forall v :: v in live ==> v in u.alloc.dma.live
      invariant forall x: nat :: x < ENTRIES ==> MidRef(u.m, dst, x).table == old(MidRef(u.m, dst, x).table)
      invariant forall y: nat :: j <= y < ENTRIES ==> LowRef(u.m, dst, i, y).table == 0
      invariant Part(Now(u), t0, u.spaces, live, srcId, dstId, lo, Join(i, j, 0), hi)
    {
      ghost var t, cur, next := Now(u), Join(i, j, 0), Join(i, j, ENTRIES);
      JoinMid(i, j);
      if LowRef(u.m, src, i, j).table != 0 {
        SoundNow(u);
        ok := u.NewLow(dstId, dst, i, j);
        if !ok { return; }
        SoundNow(u);
        ghost var t1 := Now(u);
        TablePart(t0, t, t1, u.spaces, live, srcId, dstId, lo, cur, hi);
        PartEmpty(t1, t0, u.spaces, live, srcId, dstId, lo, cur, next, hi);
        KeptLow(u.m, t.m, dst, i, j);
        ghost var m1 := u.m;
        ok := CopyLow(u, srcId, src, dstId, dst, i, j, live);
        if !ok { return; }
        RefsKept(u.m, m1, dst);
        SoundNow(u);
        PartNest(t0, t1, Now(u), u.spaces, live, srcId, dstId, lo, cur, next, hi);
      } else {
        NoLowNoPage(u.m, src, i, j);
        PartSkip(t0, t, u.spaces, live, srcId, dstId, lo, cur, next, hi);
      }
      j := j + 1;
    }
    ok := true;
  }

  lemma RefsKept(m': UserMem, m: UserMem, s: Space)
    requires m'.refs == m.refs
    ensures forall x: nat, y: nat :: LowRef(m', s, x, y) == LowRef(m, s, x, y)
    ensures forall x: nat :: MidRef(m', s, x) == MidRef(m, s, x)
  {
  }

  lemma KeptMid(m': UserMem, m: UserMem, s: Space, i: nat)
    requires PathsKept(m', m, s, Mid(i)) && i < ENTRIES && MidRef(m, s, i).table == 0
    ensures forall x: nat :: x < ENTRIES && x != i ==> MidRef(m', s, x).table == MidRef(m, s, x).table
    ensures forall y: nat :: y < ENTRIES ==> LowRef(m', s, i, y).table == 0
  {
    forall x: nat | x < ENTRIES && x != i ensures MidRef(m', s, x).table == MidRef(m, s, x).table {
      assert PageAt(m', s, Mid(x)) == PageAt(m, s, Mid(x));
    }
    forall y: nat | y < ENTRIES ensures LowRef(m', s, i, y).table == 0 {
      assert PageAt(m', s, Low(i, y)) == PageAt(m, s, Low(i, y));
    }
  }

  lemma KeptLow(m': UserMem, m: UserMem, s: Space, i: nat, j: nat)
    requires PathsKept(m', m, s, Low(i, j)) && i < ENTRIES && j < ENTRIES
    ensures forall x: nat :: x < ENTRIES ==> MidRef(m', s, x).table == MidRef(m, s, x).table
    ensures forall y: nat :: y < ENTRIES && y != j ==> LowRef(m', s, i, y).table == LowRef(m, s, i, y).table
  {
    forall x: nat | x < ENTRIES ensures MidRef(m', s, x).table == MidRef(m, s, x).table {
      assert PageAt(m', s, Mid(x)) == PageAt(m, s, Mid(x));
    }
    forall y: nat | y < ENTRIES && y != j ensures LowRef(m', s, i, y).table == LowRef(m, s, i, y).table {
      assert PageAt(m', s, Low(i, y)) == PageAt(m, s, Low(i, y));
    }
  }

  /** `ptref_copy` into an empty space: afterwards `dst` has, for every page, a copy of what
      the kernel sees of `src` on pages that were free before, and nothing else; `src`, every
      other space and every page allocated before are as they were. False is a panic. */
  method PtrefCopy(u: UserMemory, ghost srcId: nat, src: Space, ghost dstId: nat, dst: Space) returns (ok: bool)
    requires u.Valid() && Alive(u.spaces, srcId) && Alive(u.spaces, dstId) && srcId != dstId
    requires u.spaces[srcId] == src && u.spaces[dstId] == dst
    requires forall x: nat :: x < ENTRIES ==> MidRef(u.m, dst, x).table == 0
    modifies u`m, u`own, u`kown, u.alloc`use, u.alloc`kframe, u.alloc.space, u.alloc.dma, u.alloc.kva
    ensures !ok ==> u.alloc.space.Exhausted()
    ensures ok ==>
      && u.Valid() && Progress(Now(u), old(Now(u)), dstId)
      && AllCopied(u.m, u.Frames(), old(u.alloc.dma.live), src, dst, 0, PAGES)
      && ViewKept(u.m, old(u.m), src)
  {
    hide PageAllocator.Valid, Region.Valid, AllTrees, Backed, Contents, Walk, Walkupt, Part, Sound, Progress;
    hide ViewKept, OnlySpace, Gained, Extended, AllCopied, AllEmpty, PathsKept, LowRef;
    ghost var t0, live, lo, hi := Now(u), u.alloc.dma.live, 0, PAGES;
    SoundNow(u);
    BareEmpty(t0, u.spaces, dstId);
    PartStart(t0, u.spaces, live, srcId, dstId, lo, hi);
    var i := 0;
    while i < ENTRIES
      invariant 0 <= i <= ENTRIES && u.Valid()
      invariant forall v :: v in live ==> v in u.alloc.dma.live
      invariant forall x: nat :: i <= x < ENTRIES ==> MidRef(u.m, dst, x).table == 0
      invariant Part(Now(u), t0, u.spaces, live, srcId, dstId, lo, i * 0x40000, hi)
    {
      ghost var t, cur, next := Now(u), Join(i, 0, 0), Join(i, ENTRIES, 0);
      if MidRef(u.m, src, i).table != 0 {
        SoundNow(u);
        ok := u.NewMid(dstId, dst, i);
        if !ok { return; }
        SoundNow(u);
        ghost var t1 := Now(u);
        TablePart(t0, t, t1, u.spaces, live, srcId, dstId, lo, cur, hi);
        PartEmpty(t1, t0, u.spaces, live, srcId, dstId, lo, cur, next, hi);
        KeptMid(u.m, t.m, dst, i);
        ok := CopyMid(u, srcId, src, dstId, dst, i, live);
        if !ok { return; }
        SoundNow(u);
        PartNest(t0, t1, Now(u), u.spaces, live, srcId, dstId, lo, cur, next, hi);
      } else {
        NoMidNoPage(u.m, src, i);
        PartSkip(t0, t, u.spaces, live, srcId, dstId, lo, cur, next, hi);
      }
      i := i + 1;
    }
    SoundNow(u);
    PartDone(Now(u), t0, u.spaces, live, srcId, dstId);
    ok := true;
  }

  /** A space without middle tables is empty. */
  lemma BareEmpty(t: Snap, spaces: map<nat, Space>, id: nat)
    requires Sound(t, spaces) && Alive(spaces, id)
    requires forall x: nat :: x < ENTRIES ==> MidRef(t.m, spaces[id], x).table == 0
    ensures AllEmpty(t.m, spaces[id], 0, PAGES)
  {
    forall vpn: nat | vpn < PAGES ensures Empty(t.m, spaces[id], vpn) {
      WalksAgree(t.m, t.frame, t.own, t.kown, spaces[id], id, vpn);
    }
  }

  lemma PartDone(t: Snap, t0: Snap, spaces: map<nat, Space>, live: map<nat, Run>, src: nat, dst: nat)
    requires Alive(spaces, src) && Alive(spaces, dst) && src != dst && Sound(t, spaces) && Sound(t0, spaces)
    requires Part(t, t0, spaces, live, src, dst, 0, PAGES, PAGES)
    ensures Progress(t, t0, dst) && AllCopied(t.m, t.frame, live, spaces[src], spaces[dst], 0, PAGES)
    ensures ViewKept(t.m, t0.m, spaces[src])
  {
    forall vpn: nat
      ensures Walk(t.m.tables, spaces[src].pfn, vpn) == Walk(t0.m.tables, spaces[src].pfn, vpn)
      ensures Walkupt(t.m, spaces[src], vpn) == Walkupt(t0.m, spaces[src], vpn)
    {
      SourceKept(t0, t, spaces, dst, src, vpn);
    }
  }
}
