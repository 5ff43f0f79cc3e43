/** All user address spaces over the one page allocator: `uptmap`, `ptref_copy` and
    `ptref_free` (kernel/pagetable.c). */
module AddressSpaces {
  import opened Paging
  import opened PageRuns
  import opened Allocator
  import opened UserTable

  predicate Alive(spaces: map<nat, Space>, id: nat) { id in spaces }

  /** Every space is a tree and every owned page belongs to a space. */
  ghost predicate AllTrees(m: UserMem, frame: map<nat, nat>, own: map<nat, Owner>, kown: map<nat, Owner>,
                           spaces: map<nat, Space>)
  {
    && (forall id {:trigger Alive(spaces, id)} :: Alive(spaces, id) ==> Tree(m, frame, own, kown, spaces[id], id))
    && (forall v :: v in own ==> own[v].id in spaces)
    && (forall a :: a in kown ==> kown[a].id in spaces)
  }

  /** Tables and arrays exist only for owned pages. */
  ghost predicate Contents(m: UserMem, use: map<nat, Use>, own: map<nat, Owner>, kown: map<nat, Owner>)
  {
    && (forall t :: t in m.tables ==>
          t in use && use[t].DmaFrame? && use[t].vpn in own && !own[use[t].vpn].place.Page?)
    && (forall a :: a in m.refs ==> a in kown)
    && (forall a :: a in m.leaves ==> a in kown)
  }

  /** Owned pages are live single pages, owned arrays live runs of their size. */
  ghost predicate Backed(live: map<nat, Run>, klive: map<nat, Run>, own: map<nat, Owner>, kown: map<nat, Owner>)
  {
    && (forall v :: v in own ==> v in live && live[v].size == 1)
    && (forall a :: a in kown ==> a in klive && klive[a].size == RefPages(kown[a].place))
  }

  /** Pages of the reference array of a table: 512 pairs of pointers, or 512 page numbers. */
  function RefPages(p: Place): nat { if p.Low? then 1 else 2 }

  /** What changed concerns space `id` only. */
  ghost predicate OnlySpace(m': UserMem, m: UserMem, frame: map<nat, nat>, own': map<nat, Owner>, own: map<nat, Owner>,
                            kown': map<nat, Owner>, kown: map<nat, Owner>, id: nat)
  {
    forall x :: x != id ==> SameFor(m', m, frame, own, kown, x) && SameOwner(own', own, x) && SameOwner(kown', kown, x)
  }

  /** Frames that were added later do not matter to what was there. */
  lemma OnlySpaceFrames(m': UserMem, m: UserMem, frame': map<nat, nat>, frame: map<nat, nat>, own': map<nat, Owner>,
                        own: map<nat, Owner>, kown': map<nat, Owner>, kown: map<nat, Owner>, id: nat)
    requires OnlySpace(m', m, frame', own', own, kown', kown, id) && Extended(frame', frame)
    ensures OnlySpace(m', m, frame, own', own, kown', kown, id)
  {
    forall x | x != id
      ensures SameFor(m', m, frame, own, kown, x) && SameOwner(own', own, x) && SameOwner(kown', kown, x)
    {
      assert SameFor(m', m, frame', own, kown, x);
    }
  }

  lemma OnlySpaceBytes(m': UserMem, m: UserMem, bytes: map<nat, Block>, frame: map<nat, nat>, own': map<nat, Owner>,
                       own: map<nat, Owner>, kown': map<nat, Owner>, kown: map<nat, Owner>, id: nat)
    requires OnlySpace(m', m, frame, own', own, kown', kown, id)
    ensures OnlySpace(m'.(bytes := bytes), m, frame, own', own, kown', kown, id)
  {
    forall x | x != id
      ensures SameFor(m'.(bytes := bytes), m, frame, own, kown, x) && SameOwner(own', own, x) &&
        SameOwner(kown', kown, x)
    {
      assert SameFor(m', m, frame, own, kown, x);
    }
  }

  lemma OnlySpaceRefl(m: UserMem, frame: map<nat, nat>, own: map<nat, Owner>, kown: map<nat, Owner>, id: nat)
    ensures OnlySpace(m, m, frame, own, own, kown, kown, id)
  {
  }

  lemma OnlySpaceTrans(m0: UserMem, m1: UserMem, m2: UserMem, frame0: map<nat, nat>, frame1: map<nat, nat>,
                       own0: map<nat, Owner>, own1: map<nat, Owner>, own2: map<nat, Owner>,
                       kown0: map<nat, Owner>, kown1: map<nat, Owner>, kown2: map<nat, Owner>, id: nat)
    requires OnlySpace(m1, m0, frame0, own1, own0, kown1, kown0, id)
    requires OnlySpace(m2, m1, frame1, own2, own1, kown2, kown1, id)
    requires Extended(frame1, frame0)
    ensures OnlySpace(m2, m0, frame0, own2, own0, kown2, kown0, id)
  {
    forall x | x != id
      ensures SameFor(m2, m0, frame0, own0, kown0, x) && SameOwner(own2, own0, x) && SameOwner(kown2, kown0, x)
    {
      assert SameFor(m1, m0, frame0, own0, kown0, x) && SameFor(m2, m1, frame1, own1, kown1, x);
      assert SameOwner(own1, own0, x) && SameOwner(own2, own1, x);
      assert SameOwner(kown1, kown0, x) && SameOwner(kown2, kown1, x);
    }
  }

  lemma TreesKept(m: UserMem, m': UserMem, frame: map<nat, nat>, frame': map<nat, nat>,
                  own: map<nat, Owner>, own': map<nat, Owner>, kown: map<nat, Owner>, kown': map<nat, Owner>,
                  spaces: map<nat, Space>, id: nat)
    requires AllTrees(m, frame, own, kown, spaces) && Extended(frame', frame)
    requires OnlySpace(m', m, frame, own', own, kown', kown, id)
    requires Alive(spaces, id) && Tree(m', frame', own', kown', spaces[id], id)
    ensures AllTrees(m', frame', own', kown', spaces)
  {
    forall x {:trigger Alive(spaces, x)} | Alive(spaces, x) ensures Tree(m', frame', own', kown', spaces[x], x) {
      if x != id { TreeKept(m, m', frame, frame', own, own', kown, kown', spaces[x], x); }
    }
    forall v | v in own' ensures own'[v].id in spaces {
      if own'[v].id != id { assert SameOwner(own', own, own'[v].id); }
    }
    forall a | a in kown' ensures kown'[a].id in spaces {
      if kown'[a].id != id { assert SameOwner(kown', kown, kown'[a].id); }
    }
  }

  lemma AddMidOthers(m: UserMem, frame: map<nat, nat>, own: map<nat, Owner>, kown: map<nat, Owner>, s: Space, id: nat,
                     i: nat, v: nat, pfn: nat, a: nat)
    requires Tree(m, frame, own, kown, s, id) && Injective(frame) && AllFramed(own, frame)
    requires Unused(m, frame, own, kown, v, pfn, a)
    ensures OnlySpace(AddMid(m, s, i, v, pfn, a), m, frame, own[v := Owner(id, Mid(i))], own,
                      kown[a := Owner(id, Mid(i))], kown, id)
  {
    assert TableAt(m, frame, own, kown, s, id, Base);
  }

  lemma AddLowOthers(m: UserMem, frame: map<nat, nat>, own: map<nat, Owner>, kown: map<nat, Owner>, s: Space, id: nat,
                     i: nat, j: nat, v: nat, pfn: nat, a: nat)
    requires Tree(m, frame, own, kown, s, id) && Injective(frame) && AllFramed(own, frame)
    requires Unused(m, frame, own, kown, v, pfn, a) && i < ENTRIES && MidRef(m, s, i).table != 0
    ensures var r := MidRef(m, s, i);
            OnlySpace(AddLow(m, FrameNat(frame, r.table), r, j, v, pfn, a), m, frame, own[v := Owner(id, Low(i, j))],
              own,
                      kown[a := Owner(id, Low(i, j))], kown, id)
  {
    assert PageAt(m, s, Mid(i)) != 0 && TableAt(m, frame, own, kown, s, id, Mid(i));
  }

  lemma SetLeafOthers(m: UserMem, frame: map<nat, nat>, own: map<nat, Owner>, kown: map<nat, Owner>, s: Space, id: nat,
                      i: nat, j: nat, k: nat, e: Pte, v: nat)
    requires Tree(m, frame, own, kown, s, id) && Injective(frame) && AllFramed(own, frame)
    requires Page(i, j, k).Valid() && LowRef(m, s, i, j).table != 0
    requires v != 0 ==> v in frame && (v in own ==> v == LeafRef(m, s, i, j, k))
    requires 0 !in own
    ensures var r := LowRef(m, s, i, j);
            OnlySpace(SetLeaf(m, FrameNat(frame, r.table), r, k, e, v), m, frame,
                      Reown(own, LeafRef(m, s, i, j, k), v, Owner(id, Page(i, j, k))), own, kown, kown, id)
  {
    hide Walk, Hardware;
    assert PageAt(m, s, Low(i, j)) != 0 && TableAt(m, frame, own, kown, s, id, Low(i, j));
    var was := PageAt(m, s, Page(i, j, k));
    assert was != 0 ==> Has(own, was, id, Page(i, j, k));
  }

  /** Data bytes are no part of any table. */
  lemma BytesTrees(m: UserMem, bytes: map<nat, Block>, frame: map<nat, nat>, own: map<nat, Owner>,
                   kown: map<nat, Owner>, spaces: map<nat, Space>)
    requires AllTrees(m, frame, own, kown, spaces)
    ensures AllTrees(m.(bytes := bytes), frame, own, kown, spaces)
  {
    forall x {:trigger Alive(spaces, x)} | Alive(spaces, x)
      ensures Tree(m.(bytes := bytes), frame, own, kown, spaces[x], x)
    {
      TreeKept(m, m.(bytes := bytes), frame, frame, own, own, kown, kown, spaces[x], x);
    }
  }

  lemma TreesExtended(m: UserMem, frame: map<nat, nat>, frame': map<nat, nat>, own: map<nat, Owner>,
                      kown: map<nat, Owner>, spaces: map<nat, Space>)
    requires AllTrees(m, frame, own, kown, spaces) && Extended(frame', frame)
    ensures AllTrees(m, frame', own, kown, spaces)
  {
    forall x {:trigger Alive(spaces, x)} | Alive(spaces, x) ensures Tree(m, frame', own, kown, spaces[x], x) {
      TreeKept(m, m, frame, frame', own, own, kown, kown, spaces[x], x);
    }
  }

  lemma ContentsKept(m: UserMem, use: map<nat, Use>, use': map<nat, Use>, frame: map<nat, nat>, frame': map<nat, nat>,
                     own: map<nat, Owner>, kown: map<nat, Owner>)
    requires Contents(m, use, own, kown) && Framed(use, frame, true) && Framed(use', frame', true)
    requires Extended(frame', frame)
    ensures Contents(m, use', own, kown)
  {
    forall t | t in m.tables
      ensures t in use' && use'[t].DmaFrame? && use'[t].vpn in own && !own[use'[t].vpn].place.Page?
    {
      var v := use[t].vpn;
      assert UsedBy(use, t, UserOf(v, true));
      assert UsedBy(use', frame'[v], UserOf(v, true));
    }
  }

  /** A page that no space has yet, with its frame. */
  ghost predicate FreshPage(m: UserMem, frame: map<nat, nat>, own: map<nat, Owner>, v: nat, pfn: nat)
  {
    && v != 0 && v !in own && v in frame && frame[v] == pfn && pfn !in m.tables
    && (forall w :: w in own ==> w in frame && frame[w] != pfn)
  }

  lemma FreshFacts(m: UserMem, use: map<nat, Use>, frame: map<nat, nat>, own: map<nat, Owner>, kown: map<nat, Owner>,
                   v: nat, pfn: nat)
    requires Contents(m, use, own, kown) && Framed(use, frame, true) && AllFramed(own, frame)
    requires v != 0 && v !in own && v in frame && frame[v] == pfn
    ensures FreshPage(m, frame, own, v, pfn)
  {
    assert UsedBy(use, pfn, UserOf(v, true));
    forall w | w in own ensures w in frame && frame[w] != pfn { assert UsedBy(use, frame[w], UserOf(w, true)); }
  }

  /** `own` gained pages of space `id` only, all of them newly allocated. */
  ghost predicate Gained(own': map<nat, Owner>, own: map<nat, Owner>, live': map<nat, Run>, live: map<nat, Run>,
                         id: nat)
  {
    && (forall v :: v in own ==> v in own' && own'[v] == own[v])
    && (forall v :: v in own' && v !in own ==> own'[v].id == id && v !in live)
    && (forall v :: v in live ==> v in live' && live'[v] == live[v])
    && (forall v :: v in live' && v !in live ==> v in own')
  }

  lemma GainedOne(own: map<nat, Owner>, live: map<nat, Run>, v: nat, o: Owner, run: Run)
    requires v !in own && v !in live
    ensures Gained(own[v := o], own, live[v := run], live, o.id)
  {
  }

  lemma GainedTrans(own0: map<nat, Owner>, own1: map<nat, Owner>, own2: map<nat, Owner>,
                    live0: map<nat, Run>, live1: map<nat, Run>, live2: map<nat, Run>, id: nat)
    requires Gained(own1, own0, live1, live0, id) && Gained(own2, own1, live2, live1, id)
    ensures Gained(own2, own0, live2, live0, id)
  {
  }

  lemma GrowMidTrees(m: UserMem, frame: map<nat, nat>, own: map<nat, Owner>, kown: map<nat, Owner>,
                     spaces: map<nat, Space>, id: nat, i: nat, v: nat, pfn: nat, a: nat)
    requires AllTrees(m, frame, own, kown, spaces) && Injective(frame) && AllFramed(own, frame)
    requires Alive(spaces, id) && i < ENTRIES && MidRef(m, spaces[id], i).table == 0
    requires Unused(m, frame, own, kown, v, pfn, a)
    ensures var s := spaces[id];
            var m', own', kown' := AddMid(m, s, i, v, pfn, a), own[v := Owner(id, Mid(i))],
              kown[a := Owner(id, Mid(i))];
            && AllTrees(m', frame, own', kown', spaces)
            && PathsKept(m', m, s, Mid(i)) && MidRef(m', s, i).table != 0 && ViewKept(m', m, s)
            && OnlySpace(m', m, frame, own', own, kown', kown, id)
  {
    var s := spaces[id];
    AddMidTree(m, frame, own, kown, s, id, i, v, pfn, a);
    AddMidOthers(m, frame, own, kown, s, id, i, v, pfn, a);
    TreesKept(m, AddMid(m, s, i, v, pfn, a), frame, frame, own, own[v := Owner(id, Mid(i))],
              kown, kown[a := Owner(id, Mid(i))], spaces, id);
  }

  lemma GrowMidContents(m: UserMem, use: map<nat, Use>, frame: map<nat, nat>, own: map<nat, Owner>,
                        kown: map<nat, Owner>, s: Space, id: nat, i: nat, v: nat, pfn: nat, a: nat)
    requires v !in own
    requires Contents(m, use, own, kown) && Framed(use, frame, true) && v in frame && frame[v] == pfn
    ensures Contents(AddMid(m, s, i, v, pfn, a), use, own[v := Owner(id, Mid(i))], kown[a := Owner(id, Mid(i))])
  {
    assert UsedBy(use, frame[v], UserOf(v, true));
  }

  lemma GrowLowTrees(m: UserMem, frame: map<nat, nat>, own: map<nat, Owner>, kown: map<nat, Owner>,
                     spaces: map<nat, Space>, id: nat, i: nat, j: nat, v: nat, pfn: nat, a: nat)
    requires AllTrees(m, frame, own, kown, spaces) && Injective(frame) && AllFramed(own, frame)
    requires Alive(spaces, id) && i < ENTRIES && j < ENTRIES
    requires MidRef(m, spaces[id], i).table != 0 && LowRef(m, spaces[id], i, j).table == 0
    requires Unused(m, frame, own, kown, v, pfn, a)
    ensures var s := spaces[id];
            var r := MidRef(m, s, i);
            var m' := AddLow(m, FrameNat(frame, r.table), r, j, v, pfn, a);
            var own', kown' := own[v := Owner(id, Low(i, j))], kown[a := Owner(id, Low(i, j))];
            && AllTrees(m', frame, own', kown', spaces)
            && PathsKept(m', m, s, Low(i, j)) && LowRef(m', s, i, j).table != 0 && ViewKept(m', m, s)
            && OnlySpace(m', m, frame, own', own, kown', kown, id)
  {
    var s := spaces[id];
    var r := MidRef(m, s, i);
    AddLowTree(m, frame, own, kown, s, id, i, j, v, pfn, a);
    AddLowOthers(m, frame, own, kown, s, id, i, j, v, pfn, a);
    TreesKept(m, AddLow(m, FrameNat(frame, r.table), r, j, v, pfn, a), frame, frame, own,
      own[v := Owner(id, Low(i, j))],
              kown, kown[a := Owner(id, Low(i, j))], spaces, id);
  }

  lemma GrowLowContents(m: UserMem, use: map<nat, Use>, frame: map<nat, nat>, own: map<nat, Owner>,
                        kown: map<nat, Owner>, t: nat, r: Ref, j: nat, v: nat, pfn: nat, a: nat, o: Owner)
    requires v !in own && !o.place.Page?
    requires Contents(m, use, own, kown) && Framed(use, frame, true) && v in frame && frame[v] == pfn
    ensures Contents(AddLow(m, t, r, j, v, pfn, a), use, own[v := o], kown[a := o])
  {
    assert UsedBy(use, frame[v], UserOf(v, true));
  }

  /** What `uptmap` asks of the page it is given: none, or a framed page that is either in
      no space or already at this place. */
  ghost predicate Mappable(m: UserMem, frame: map<nat, nat>, own: map<nat, Owner>, s: Space, vpn: nat, v: nat, e: Pte)
  {
    v != 0 ==> v in frame && frame[v] == e.pfn && (v in own ==> v == Walkupt(m, s, vpn))
  }

  lemma PutLeafTrees(m: UserMem, frame: map<nat, nat>, own: map<nat, Owner>, kown: map<nat, Owner>,
                     spaces: map<nat, Space>, id: nat, vpn: nat, e: Pte, v: nat)
    requires AllTrees(m, frame, own, kown, spaces) && Injective(frame) && AllFramed(own, frame) && 0 !in own
    requires Alive(spaces, id) && vpn < PAGES && IsLeaf(e.flags)
    requires LowRef(m, spaces[id], Vpn(2, vpn), Vpn(1, vpn)).table != 0
    requires Mappable(m, frame, own, spaces[id], vpn, v, e)
    ensures var s := spaces[id];
            var r := LowRef(m, s, Vpn(2, vpn), Vpn(1, vpn));
            var m' := SetLeaf(m, FrameNat(frame, r.table), r, Vpn(0, vpn), e, v);
            var own' := Reown(own, Walkupt(m, s, vpn), v, Owner(id, Page(Vpn(2, vpn), Vpn(1, vpn), Vpn(0, vpn))));
            && AllTrees(m', frame, own', kown, spaces)
            && ViewKeptExcept(m', m, s, vpn) && Walkupt(m', s, vpn) == v
            && Walk(m'.tables, s.pfn, vpn) == Some(Leaf(e.pfn, e.flags))
            && OnlySpace(m', m, frame, own', own, kown, kown, id)
  {
    var s, i, j, k := spaces[id], Vpn(2, vpn), Vpn(1, vpn), Vpn(0, vpn);
    var r := LowRef(m, s, i, j);
    var m' := SetLeaf(m, FrameNat(frame, r.table), r, k, e, v);
    var own' := Reown(own, Walkupt(m, s, vpn), v, Owner(id, Page(i, j, k)));
    SetLeafTree(m, frame, own, kown, s, id, i, j, k, e, v);
    SetLeafOthers(m, frame, own, kown, s, id, i, j, k, e, v);
    LeafView(m, m', frame, own, own', kown, s, id, vpn, e, v);
    TreesKept(m, m', frame, frame, own, own', kown, kown, spaces, id);
  }

  /** A data page holds no table, so it may leave `own` without its frame's contents. */
  lemma PutLeafContents(m: UserMem, use: map<nat, Use>, frame: map<nat, nat>, own: map<nat, Owner>,
                        kown: map<nat, Owner>, s: Space, id: nat, vpn: nat, t: nat, e: Pte, v: nat)
    requires Contents(m, use, own, kown)
    requires Tree(m, frame, own, kown, s, id) && (v in own ==> v == Walkupt(m, s, vpn)) && 0 !in own
    ensures var r := LowRef(m, s, Vpn(2, vpn), Vpn(1, vpn));
            Contents(SetLeaf(m, t, r, Vpn(0, vpn), e, v), use,
                     Reown(own, Walkupt(m, s, vpn), v, Owner(id, Page(Vpn(2, vpn), Vpn(1, vpn), Vpn(0, vpn)))), kown)
  {
    assert PageAt(m, s, Page(Vpn(2, vpn), Vpn(1, vpn), Vpn(0, vpn))) == Walkupt(m, s, vpn);
  }

  class UserMemory {
    const alloc: PageAllocator
    var m: UserMem
    /** Which space, and where in it, each page and each reference array belongs to. */
    ghost var own: map<nat, Owner>
    ghost var kown: map<nat, Owner>
    ghost var spaces: map<nat, Space>

    constructor (alloc: PageAllocator)
      requires alloc.Valid()
      ensures Valid() && this.alloc == alloc && spaces == map[] && own == map[] && kown == map[]
    {
      this.alloc := alloc;
      m := UserMem(map[], map[], map[], map[]);
      own, kown, spaces := map[], map[], map[];
    }

    ghost function Frames(): map<nat, nat>
      requires alloc.dma.Valid()
      reads this, alloc, alloc.dma
    {
      alloc.dma.Frames()
    }

    ghost predicate Valid()
      reads this, alloc, alloc.space, alloc.dma, alloc.kva
    {
      && alloc.Valid() && alloc.dma.Valid() && alloc.dma != alloc.kva
      && Backed(alloc.dma.live, alloc.kva.live, own, kown)
      && AllTrees(m, Frames(), own, kown, spaces)
      && Contents(m, alloc.use, own, kown)
      && alloc.guards.Keys !! kown.Keys
    }

    /** What `Valid` says about frames: pages have distinct frames, none is page 0. */
    lemma FrameFacts()
      requires Valid()
      ensures Injective(Frames()) && AllFramed(own, Frames()) && 0 !in own && 0 !in kown
    {
      var frame := Frames();
      forall v, w | v in frame && w in frame && frame[v] == frame[w] ensures v == w {
        assert UsedBy(alloc.use, frame[v], UserOf(v, true)) && UsedBy(alloc.use, frame[w], UserOf(w, true));
      }
      forall w | w in own ensures w in frame && w != 0 {
        LiveFrames(alloc.dma.base, alloc.dma.brk, alloc.dma.tag, alloc.dma.live, alloc.dma.Free(), w);
      }
      forall a | a in kown ensures a != 0 {
        LiveFrames(alloc.kva.base, alloc.kva.brk, alloc.kva.tag, alloc.kva.live, alloc.kva.Free(), a);
      }
    }

    /** The frame behind a kernel page, as the kernel's own page table translates it. */
    function Phys(v: nat): nat
      reads alloc.space
    {
      match Walk(alloc.space.mem, alloc.space.root, v)
      case None => 0
      case Some(leaf) => leaf.pfn
    }

    lemma PhysIsFrame(v: nat)
      requires alloc.Valid() && v in Frames()
      ensures Phys(v) == FrameNat(Frames(), v)
    {
      assert MapsTo(alloc.space.mem, alloc.space.root, v, Frames()[v]);
    }

    /** `dmalloc(&vpn, 1, _)`: a page no space has; None is a panic. */
    method NewPage() returns (r: Option<(nat, nat)>)
      requires Valid()
      modifies alloc`use, alloc`kframe, alloc.space, alloc.dma
      ensures r.None? ==> alloc.space.Exhausted()
      ensures r.Some? ==>
        && Valid()
        && FreshPage(m, Frames(), own, r.value.0, r.value.1)
        && r.value.0 !in old(alloc.dma.live)
        && alloc.dma.live == old(alloc.dma.live)[r.value.0 := Run(r.value.1, 1)]
        && Extended(Frames(), old(Frames()))
    {
      hide Reached, PageAllocator.Counted, Framed, Walk, AllTrees, Contents, Region.Valid, Region.Frames;
      r := alloc.Dmalloc(1);
      if r.Some? {
        TreesExtended(m, old(Frames()), Frames(), own, kown, spaces);
        ContentsKept(m, old(alloc.use), alloc.use, old(Frames()), Frames(), own, kown);
        FrameFacts();
        FreshFacts(m, alloc.use, Frames(), own, kown, r.value.0, r.value.1);
      }
    }

    /** `kalloc` of `size` bytes; None is a panic. */
    method NewArray(size: nat) returns (r: Option<nat>)
      requires Valid() && size > 0
      modifies alloc`use, alloc`kframe, alloc.space, alloc.kva
      ensures r.None? ==> alloc.space.Exhausted()
      ensures r.Some? ==>
        && Valid()
        && r.value != 0 && r.value !in old(alloc.kva.live) && r.value in alloc.kva.live && r.value !in alloc.guards
        && alloc.kva.live[r.value].size == PageUp(size)
        && alloc.kva.live == old(alloc.kva.live)[r.value := alloc.kva.live[r.value]]
    {
      hide Reached, PageAllocator.Counted, PageAllocator.Ranges, Framed, Walk, AllTrees, Contents, Region.Valid;
      hide Region.Frames;
      r := alloc.Kalloc(size);
      if r.Some? {
        ContentsKept(m, old(alloc.use), alloc.use, Frames(), Frames(), own, kown);
      }
    }

    /** A page and a reference array of `pages` pages for a new table; None is a panic. */
    method NewTable(pages: nat) returns (r: Option<(nat, nat, nat)>)
      requires Valid() && 1 <= pages <= 2
      modifies alloc`use, alloc`kframe, alloc.space, alloc.dma, alloc.kva
      ensures r.None? ==> alloc.space.Exhausted()
      ensures r.Some? ==>
        && Valid()
        && Spare(r.value.0, r.value.1, r.value.2, pages)
        && r.value.0 !in old(alloc.dma.live) && r.value.2 !in old(alloc.kva.live)
        && alloc.dma.live == old(alloc.dma.live)[r.value.0 := Run(r.value.1, 1)]
        && alloc.kva.live == old(alloc.kva.live)[r.value.2 := alloc.kva.live[r.value.2]]
        && Extended(Frames(), old(Frames()))
    {
      hide PageAllocator.Valid, Region.Valid, AllTrees, Contents;
      var t := NewPage();
      if t.None? { return None; }
      var k := NewArray(pages * PAGESIZE);
      if k.None? { return None; }
      r := Some((t.value.0, t.value.1, k.value));
    }

    /** A live page and a live array that no space has yet. */
    ghost predicate Spare(v: nat, pfn: nat, a: nat, pages: nat)
      requires alloc.dma.Valid()
      reads this, alloc, alloc.dma, alloc.kva
    {
      && FreshPage(m, Frames(), own, v, pfn)
      && v in alloc.dma.live && alloc.dma.live[v].size == 1
      && a != 0 && a !in kown && a !in alloc.guards && a in alloc.kva.live && alloc.kva.live[a].size == pages
    }

    /** A spare page and array become the middle table at entry `i` of space `id`. */
    lemma GrowMid(id: nat, s: Space, i: nat, v: nat, pfn: nat, a: nat)
      requires Valid() && Alive(spaces, id) && spaces[id] == s && i < ENTRIES && MidRef(m, s, i).table == 0
      requires Spare(v, pfn, a, 2)
      ensures Phys(s.vpn) == s.pfn
      ensures var m', own', kown' := AddMid(m, s, i, v, pfn, a), own[v := Owner(id, Mid(i))],
        kown[a := Owner(id, Mid(i))];
              && Backed(alloc.dma.live, alloc.kva.live, own', kown')
              && AllTrees(m', Frames(), own', kown', spaces)
              && Contents(m', alloc.use, own', kown')
              && PathsKept(m', m, s, Mid(i)) && MidRef(m', s, i).table != 0 && ViewKept(m', m, s)
              && OnlySpace(m', m, Frames(), own', own, kown', kown, id)
    {
      hide Framed, Reached, PageAllocator.Counted, PageAllocator.Ranges, Region.Valid, Region.Frames, Walk, Tree;
      FrameFacts();
      BasePhys(id);
      GrowMidTrees(m, Frames(), own, kown, spaces, id, i, v, pfn, a);
      GrowMidContents(m, alloc.use, Frames(), own, kown, s, id, i, v, pfn, a);
    }

    lemma BasePhys(id: nat)
      requires Valid() && Alive(spaces, id)
      ensures Phys(spaces[id].vpn) == spaces[id].pfn
    {
      hide PageAllocator.Counted, PageAllocator.Ranges, Framed, Reached, Region.Valid, Region.Frames, Walk, Contents;
      hide Backed;
      assert TableAt(m, Frames(), own, kown, spaces[id], id, Base);
      PhysIsFrame(spaces[id].vpn);
    }

    /** The middle table at entry `i` of an address space, where it is missing. */
    method NewMid(ghost id: nat, s: Space, i: nat) returns (ok: bool)
      requires Valid() && Alive(spaces, id) && spaces[id] == s && i < ENTRIES && MidRef(m, s, i).table == 0
      modifies this`m, this`own, this`kown, alloc`use, alloc`kframe, alloc.space, alloc.dma, alloc.kva
      ensures !ok ==> alloc.space.Exhausted()
      ensures ok ==>
        && Valid() && m.bytes == old(m.bytes) && Extended(Frames(), old(Frames()))
        && PathsKept(m, old(m), s, Mid(i)) && MidRef(m, s, i).table != 0 && ViewKept(m, old(m), s)
        && OnlySpace(m, old(m), old(Frames()), own, old(own), kown, old(kown), id)
        && Gained(own, old(own), alloc.dma.live, old(alloc.dma.live), id)
        && Gained(kown, old(kown), alloc.kva.live, old(alloc.kva.live), id)
    {
      hide PageAllocator.Valid, Region.Valid, AllTrees, Backed, Contents, ViewKept, PathsKept, OnlySpace, Extended;
      hide Gained;
      var t := NewTable(2);
      if t.None? { return false; }
      var (v, pfn, a) := t.value;
      GrowMid(id, s, i, v, pfn, a);
      GainedOne(own, old(alloc.dma.live), v, Owner(id, Mid(i)), Run(pfn, 1));
      GainedOne(kown, old(alloc.kva.live), a, Owner(id, Mid(i)), alloc.kva.live[a]);
      m := AddMid(m, s.(pfn := Phys(s.vpn)), i, v, pfn, a);
      own, kown := own[v := Owner(id, Mid(i))], kown[a := Owner(id, Mid(i))];
      OnlySpaceFrames(m, old(m), Frames(), old(Frames()), own, old(own), kown, old(kown), id);
      ok := true;
    }

    lemma MidPhys(id: nat, i: nat)
      requires Valid() && Alive(spaces, id) && i < ENTRIES && MidRef(m, spaces[id], i).table != 0
      ensures Phys(MidRef(m, spaces[id], i).table) == FrameNat(Frames(), MidRef(m, spaces[id], i).table)
    {
      hide PageAllocator.Counted, PageAllocator.Ranges, Framed, Reached, Region.Valid, Region.Frames, Walk, Contents;
      hide Backed;
      assert PageAt(m, spaces[id], Mid(i)) != 0 && TableAt(m, Frames(), own, kown, spaces[id], id, Mid(i));
      PhysIsFrame(MidRef(m, spaces[id], i).table);
    }

    /** A spare page and array become the last-level table at (i, j) of space `id`. */
    lemma GrowLow(id: nat, s: Space, i: nat, j: nat, v: nat, pfn: nat, a: nat)
      requires Valid() && Alive(spaces, id) && spaces[id] == s && i < ENTRIES && j < ENTRIES
      requires MidRef(m, s, i).table != 0 && LowRef(m, s, i, j).table == 0
      requires Spare(v, pfn, a, 1)
      ensures var r := MidRef(m, s, i);
              var m' := AddLow(m, Phys(r.table), r, j, v, pfn, a);
              var own', kown' := own[v := Owner(id, Low(i, j))], kown[a := Owner(id, Low(i, j))];
              && Backed(alloc.dma.live, alloc.kva.live, own', kown')
              && AllTrees(m', Frames(), own', kown', spaces)
              && Contents(m', alloc.use, own', kown')
              && PathsKept(m', m, s, Low(i, j)) && LowRef(m', s, i, j).table != 0 && ViewKept(m', m, s)
              && OnlySpace(m', m, Frames(), own', own, kown', kown, id)
    {
      hide Framed, Reached, PageAllocator.Counted, PageAllocator.Ranges, Region.Valid, Region.Frames, Walk, Tree;
      var r := MidRef(m, s, i);
      FrameFacts();
      MidPhys(id, i);
      GrowLowTrees(m, Frames(), own, kown, spaces, id, i, j, v, pfn, a);
      GrowLowContents(m, alloc.use, Frames(), own, kown, Phys(r.table), r, j, v, pfn, a, Owner(id, Low(i, j)));
    }

    /** The last-level table at (i, j) of an address space, where it is missing. */
    method NewLow(ghost id: nat, s: Space, i: nat, j: nat) returns (ok: bool)
      requires Valid() && Alive(spaces, id) && spaces[id] == s && i < ENTRIES && j < ENTRIES
      requires MidRef(m, s, i).table != 0 && LowRef(m, s, i, j).table == 0
      modifies this`m, this`own, this`kown, alloc`use, alloc`kframe, alloc.space, alloc.dma, alloc.kva
      ensures !ok ==> alloc.space.Exhausted()
      ensures ok ==>
        && Valid() && m.bytes == old(m.bytes) && Extended(Frames(), old(Frames()))
        && PathsKept(m, old(m), s, Low(i, j)) && LowRef(m, s, i, j).table != 0 && ViewKept(m, old(m), s)
        && OnlySpace(m, old(m), old(Frames()), own, old(own), kown, old(kown), id)
        && Gained(own, old(own), alloc.dma.live, old(alloc.dma.live), id)
        && Gained(kown, old(kown), alloc.kva.live, old(alloc.kva.live), id)
    {
      hide PageAllocator.Valid, Region.Valid, AllTrees, Backed, Contents, ViewKept, PathsKept, OnlySpace, Extended;
      hide Gained;
      var t := NewTable(1);
      if t.None? { return false; }
      var (v, pfn, a) := t.value;
      GrowLow(id, s, i, j, v, pfn, a);
      GainedOne(own, old(alloc.dma.live), v, Owner(id, Low(i, j)), Run(pfn, 1));
      GainedOne(kown, old(alloc.kva.live), a, Owner(id, Low(i, j)), alloc.kva.live[a]);
      var r := MidRef(m, s, i);
      m := AddLow(m, Phys(r.table), r, j, v, pfn, a);
      own, kown := own[v := Owner(id, Low(i, j))], kown[a := Owner(id, Low(i, j))];
      OnlySpaceFrames(m, old(m), Frames(), old(Frames()), own, old(own), kown, old(kown), id);
      ok := true;
    }

    /** The owner of user page `vpn` of space `id`. */
    static ghost function OwnerOf(id: nat, vpn: nat): Owner
    {
      Owner(id, Page(Vpn(2, vpn), Vpn(1, vpn), Vpn(0, vpn)))
    }

    lemma LeafPut(id: nat, s: Space, vpn: nat, e: Pte, v: nat)
      requires Valid() && Alive(spaces, id) && spaces[id] == s && vpn < PAGES && IsLeaf(e.flags)
      requires LowRef(m, s, Vpn(2, vpn), Vpn(1, vpn)).table != 0
      requires Mappable(m, Frames(), own, s, vpn, v, e)
      requires v != 0 ==> v in alloc.dma.live && alloc.dma.live[v].size == 1
      ensures var r := LowRef(m, s, Vpn(2, vpn), Vpn(1, vpn));
              var m' := SetLeaf(m, Phys(r.table), r, Vpn(0, vpn), e, v);
              var own' := Reown(own, Walkupt(m, s, vpn), v, OwnerOf(id, vpn));
              && Backed(alloc.dma.live, alloc.kva.live, own', kown)
              && AllTrees(m', Frames(), own', kown, spaces)
              && Contents(m', alloc.use, own', kown)
              && ViewKeptExcept(m', m, s, vpn) && Walkupt(m', s, vpn) == v
              && Walk(m'.tables, s.pfn, vpn) == Some(Leaf(e.pfn, e.flags))
              && OnlySpace(m', m, Frames(), own', own, kown, kown, id)
    {
      hide Framed, Reached, PageAllocator.Counted, PageAllocator.Ranges, Region.Valid, Region.Frames, Walk, Tree;
      FrameFacts();
      LowPhys(id, Vpn(2, vpn), Vpn(1, vpn));
      PutLeafTrees(m, Frames(), own, kown, spaces, id, vpn, e, v);
      PutLeafContents(m, alloc.use, Frames(), own, kown, s, id, vpn, Phys(LowRef(m, s, Vpn(2, vpn), Vpn(1, vpn)).table),
        e, v);
    }

    /** The last two stores of `uptmap`: hardware leaf and shadow leaf. */
    method PutLeaf(ghost id: nat, s: Space, vpn: nat, e: Pte, v: nat)
      requires Valid() && Alive(spaces, id) && spaces[id] == s && vpn < PAGES && IsLeaf(e.flags)
      requires LowRef(m, s, Vpn(2, vpn), Vpn(1, vpn)).table != 0
      requires Mappable(m, Frames(), own, s, vpn, v, e)
      requires v != 0 ==> v in alloc.dma.live && alloc.dma.live[v].size == 1
      modifies this`m, this`own
      ensures Valid() && m.bytes == old(m.bytes) && m.refs == old(m.refs)
      ensures own == old(Reown(own, Walkupt(m, s, vpn), v, OwnerOf(id, vpn)))
      ensures ViewKeptExcept(m, old(m), s, vpn) && Walkupt(m, s, vpn) == v
      ensures Walk(m.tables, s.pfn, vpn) == Some(Leaf(e.pfn, e.flags))
      ensures OnlySpace(m, old(m), Frames(), own, old(own), kown, kown, id)
    {
      hide PageAllocator.Valid, Region.Valid, AllTrees, Backed, Contents, ViewKeptExcept, OnlySpace, Mappable, Walk;
      LeafPut(id, s, vpn, e, v);
      var r := LowRef(m, s, Vpn(2, vpn), Vpn(1, vpn));
      own := Reown(own, Walkupt(m, s, vpn), v, OwnerOf(id, vpn));
      m := SetLeaf(m, Phys(r.table), r, Vpn(0, vpn), e, v);
    }

    lemma LowPhys(id: nat, i: nat, j: nat)
      requires Valid() && Alive(spaces, id) && i < ENTRIES && j < ENTRIES && LowRef(m, spaces[id], i, j).table != 0
      ensures LowRef(m, spaces[id], i, j).table in Frames()
      ensures Phys(LowRef(m, spaces[id], i, j).table) == FrameNat(Frames(), LowRef(m, spaces[id], i, j).table)
    {
      hide PageAllocator.Counted, PageAllocator.Ranges, Framed, Reached, Region.Valid, Region.Frames, Walk, Contents;
      hide Backed;
      assert PageAt(m, spaces[id], Low(i, j)) != 0 && TableAt(m, Frames(), own, kown, spaces[id], id, Low(i, j));
      PhysIsFrame(LowRef(m, spaces[id], i, j).table);
    }

    /** `uptmap`: user page `vpn` of space `s` goes to frame `pfn`; `kernelVpn` is the page's
        kernel page, or 0 if the kernel keeps no reference. False is a panic. */
    method Uptmap(ghost id: nat, s: Space, kernelVpn: nat, vpn: nat, pfn: nat, flags: Flags)
      returns (ok: bool, ghost grown: map<nat, Owner>)
      requires Valid() && Alive(spaces, id) && spaces[id] == s && vpn < PAGES && IsLeaf(flags)
      requires Mappable(m, Frames(), own, s, vpn, kernelVpn, Pte(pfn, flags))
      requires kernelVpn != 0 ==> kernelVpn in alloc.dma.live && alloc.dma.live[kernelVpn].size == 1
      modifies this`m, this`own, this`kown, alloc`use, alloc`kframe, alloc.space, alloc.dma, alloc.kva
      ensures !ok ==> alloc.space.Exhausted()
      ensures ok ==>
        && Valid() && m.bytes == old(m.bytes) && Extended(Frames(), old(Frames()))
        && Walkupt(m, s, vpn) == kernelVpn
        && Walk(m.tables, s.pfn, vpn) == Some(Leaf(pfn, flags))
        && ViewKeptExcept(m, old(m), s, vpn)
        && OnlySpace(m, old(m), old(Frames()), own, old(own), kown, old(kown), id)
        && 0 !in grown && own == Reown(grown, old(Walkupt(m, s, vpn)), kernelVpn, OwnerOf(id, vpn))
        && Gained(grown, old(own), alloc.dma.live, old(alloc.dma.live), id)
        && Gained(kown, old(kown), alloc.kva.live, old(alloc.kva.live), id)
    {
      hide PageAllocator.Valid, Region.Valid, AllTrees, Backed, Contents, Walk;
      ok := EnsurePath(id, s, Vpn(2, vpn), Vpn(1, vpn));
      grown := own;
      if !ok { return; }
      FrameFacts();
      ghost var m1, own1 := m, own;
      PutLeaf(id, s, vpn, Pte(pfn, flags), kernelVpn);
      OnlySpaceTrans(old(m), m1, m, old(Frames()), Frames(), old(own), own1, own, old(kown), kown, kown, id);
    }

    /** The interior tables on the way to (i, j), made where they are missing. */
    method EnsurePath(ghost id: nat, s: Space, i: nat, j: nat) returns (ok: bool)
      requires Valid() && Alive(spaces, id) && spaces[id] == s && i < ENTRIES && j < ENTRIES
      modifies this`m, this`own, this`kown, alloc`use, alloc`kframe, alloc.space, alloc.dma, alloc.kva
      ensures !ok ==> alloc.space.Exhausted()
      ensures ok ==>
        && Valid() && m.bytes == old(m.bytes) && Extended(Frames(), old(Frames()))
        && LowRef(m, s, i, j).table != 0 && ViewKept(m, old(m), s)
        && OnlySpace(m, old(m), old(Frames()), own, old(own), kown, old(kown), id)
        && Gained(own, old(own), alloc.dma.live, old(alloc.dma.live), id)
        && Gained(kown, old(kown), alloc.kva.live, old(alloc.kva.live), id)
    {
      hide PageAllocator.Valid, Region.Valid, AllTrees, Backed, Contents, Walk, OnlySpace, SameFor;
      if MidRef(m, s, i).table == 0 {
        ok := NewMid(id, s, i);
        if !ok { return; }
      } else {
        OnlySpaceRefl(m, Frames(), own, kown, id);
      }
      ghost var m1, own1, kown1, frame1 := m, own, kown, Frames();
      ghost var live1, klive1 := alloc.dma.live, alloc.kva.live;
      if LowRef(m, s, i, j).table == 0 {
        ok := NewLow(id, s, i, j);
        if !ok { return; }
        OnlySpaceTrans(old(m), m1, m, old(Frames()), frame1, old(own), own1, own, old(kown), kown1, kown, id);
        GainedTrans(old(own), own1, own, old(alloc.dma.live), live1, alloc.dma.live, id);
        GainedTrans(old(kown), kown1, kown, old(alloc.kva.live), klive1, alloc.kva.live, id);
      }
      ok := true;
    }

    /** `memcpy` of a page of other kernel memory to kernel page `to`. */
    method FillBytes(to: nat, data: Block)
      requires Valid() && to in Frames()
      modifies this`m
      ensures Valid() && m == old(m.(bytes := m.bytes[FrameNat(Frames(), to) := data]))
      ensures forall s: Space :: ViewKept(m, old(m), s)
    {
      hide PageAllocator.Valid, Region.Valid, Backed, AllTrees;
      PhysIsFrame(to);
      var bytes := m.bytes[Phys(to) := data];
      BytesTrees(m, bytes, Frames(), own, kown, spaces);
      m := m.(bytes := bytes);
    }

    /** `memcpy` of a whole page, through the kernel's mapping of both pages. */
    method CopyBytes(to: nat, from: nat)
      requires Valid() && to in Frames() && from in Frames()
      modifies this`m
      ensures Valid()
      ensures forall s: Space :: ViewKept(m, old(m), s)
      ensures m == old(m.(bytes := m.bytes[FrameNat(Frames(), to) :=
        if FrameNat(Frames(), from) in m.bytes then m.bytes[FrameNat(Frames(), from)] else []]))
    {
      hide PageAllocator.Valid, Region.Valid, Backed, AllTrees;
      PhysIsFrame(to);
      PhysIsFrame(from);
      var bytes := m.bytes[Phys(to) := if Phys(from) in m.bytes then m.bytes[Phys(from)] else []];
      BytesTrees(m, bytes, Frames(), own, kown, spaces);
      m := m.(bytes := bytes);
    }
  }
}
