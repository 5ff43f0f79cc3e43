/** `ptref_free` (kernel/pagetable.c): an address space gives back its pages and arrays. */
module SpaceFree {
  import opened Paging
  import opened KernelTable
  import opened PageRuns
  import opened Allocator
  import opened UserTable
  import opened AddressSpaces
  import opened SpaceCopy

  /** The order in which `ptref_free` gives places back: a table after everything below it. */
  function Rank(p: Place): nat
  {
    match p
    case Page(i, j, k) => i * 0x10_0000 + j * 0x400 + k
    case Low(i, j) => i * 0x10_0000 + j * 0x400 + ENTRIES
    case Mid(i) => i * 0x10_0000 + ENTRIES * 0x400
    case Base => ENTRIES * 0x10_0000
  }

  lemma RankInjective(p: Place, q: Place)
    requires p.Valid() && q.Valid() && Rank(p) == Rank(q)
    ensures p == q
  {
  }

  predicate Gone(own: map<nat, Owner>, v: nat, id: nat, cur: nat)
  {
    OwnedBy(own, v, id) && Rank(own[v].place) < cur
  }

  ghost function LeftOwn(own: map<nat, Owner>, id: nat, cur: nat): map<nat, Owner>
  {
    map v | v in own && !Gone(own, v, id, cur) :: own[v]
  }

  ghost function LeftLive(live: map<nat, Run>, own: map<nat, Owner>, id: nat, cur: nat): map<nat, Run>
  {
    map v | v in live && !Gone(own, v, id, cur) :: live[v]
  }

  /** What is still owned has its tables and arrays untouched. */
  ghost predicate Untouched(m': UserMem, m: UserMem, frame: map<nat, nat>, own: map<nat, Owner>, kown: map<nat, Owner>)
  {
    && (forall v :: v in own && v in frame && frame[v] in m.tables ==>
          frame[v] in m'.tables && m'.tables[frame[v]] == m.tables[frame[v]])
    && (forall a :: a in kown ==>
          && (a in m.refs ==> a in m'.refs && m'.refs[a] == m.refs[a])
          && (a in m.leaves ==> a in m'.leaves && m'.leaves[a] == m.leaves[a]))
  }

  /** Since `t0`, exactly the places of space `id` before `cur` were given back. */
  ghost predicate Pruned(t: Snap, t0: Snap, id: nat, cur: nat)
  {
    && t.frame == t0.frame && t.m.bytes == t0.m.bytes
    && t.own == LeftOwn(t0.own, id, cur) && t.kown == LeftOwn(t0.kown, id, cur)
    && t.live == LeftLive(t0.live, t0.own, id, cur) && t.klive == LeftLive(t0.klive, t0.kown, id, cur)
    && Untouched(t.m, t0.m, t0.frame, t.own, t.kown)
  }

  /** No place of the space with a rank in [lo, hi) holds a page. */
  ghost predicate Vacant(m: UserMem, s: Space, lo: nat, hi: nat)
  {
    forall p: Place :: p.Valid() && lo <= Rank(p) < hi ==> PageAt(m, s, p) == 0
  }

  lemma PrunedSkip(t: Snap, t0: Snap, spaces: map<nat, Space>, id: nat, lo: nat, hi: nat)
    requires Sound(t0, spaces) && Alive(spaces, id) && Pruned(t, t0, id, lo) && lo <= hi
    requires Vacant(t0.m, spaces[id], lo, hi)
    ensures Pruned(t, t0, id, hi)
  {
    var s := spaces[id];
    forall v | v in t0.own ensures Gone(t0.own, v, id, lo) == Gone(t0.own, v, id, hi) {
      if OwnedBy(t0.own, v, id) { assert PageAt(t0.m, s, t0.own[v].place) == v != 0; }
    }
    forall a | a in t0.kown ensures Gone(t0.kown, a, id, lo) == Gone(t0.kown, a, id, hi) {
      if OwnedBy(t0.kown, a, id) { assert PageAt(t0.m, s, t0.kown[a].place) != 0; }
    }
    assert LeftOwn(t0.own, id, lo) == LeftOwn(t0.own, id, hi);
    assert LeftOwn(t0.kown, id, lo) == LeftOwn(t0.kown, id, hi);
    forall v | v in t0.live ensures Gone(t0.own, v, id, lo) == Gone(t0.own, v, id, hi) { }
    assert LeftLive(t0.live, t0.own, id, lo) == LeftLive(t0.live, t0.own, id, hi);
    assert LeftLive(t0.klive, t0.kown, id, lo) == LeftLive(t0.klive, t0.kown, id, hi);
  }

  /** Page `v` (0 for none) is the one `id` owns at place `p`. */
  ghost predicate Only(own: map<nat, Owner>, id: nat, p: Place, v: nat)
  {
    && (v != 0 ==> Has(own, v, id, p))
    && (forall w :: OwnedBy(own, w, id) ==> own[w].place.Valid() && (own[w].place == p ==> w == v))
  }

  lemma LeftStep(own: map<nat, Owner>, live: map<nat, Run>, id: nat, p: Place, v: nat)
    requires Only(own, id, p, v) && p.Valid() && 0 !in own
    ensures LeftOwn(own, id, Rank(p) + 1) == LeftOwn(own, id, Rank(p)) - {v}
    ensures 0 !in live ==> LeftLive(live, own, id, Rank(p) + 1) == LeftLive(live, own, id, Rank(p)) - {v}
  {
    forall w ensures Gone(own, w, id, Rank(p) + 1) == (Gone(own, w, id, Rank(p)) || (w == v && v != 0)) {
      if OwnedBy(own, w, id) && Rank(own[w].place) == Rank(p) { RankInjective(p, own[w].place); }
    }
  }

  lemma OnlyAt(t: Snap, spaces: map<nat, Space>, id: nat, p: Place)
    requires Sound(t, spaces) && Alive(spaces, id) && p.Valid()
    ensures Only(t.own, id, p, PageAt(t.m, spaces[id], p))
    ensures Only(t.kown, id, p, if PageAt(t.m, spaces[id], p) == 0 || p.Page? then 0 else RefsAt(t.m, spaces[id], p))
  {
    if PageAt(t.m, spaces[id], p) != 0 && !p.Page? { assert TableAt(t.m, t.frame, t.own, t.kown, spaces[id], id, p); }
  }

  /** Giving back what is at the place whose turn it is: page `v` and, for a table, its
      reference array `a`. */
  lemma PrunedStep(t: Snap, t': Snap, t0: Snap, spaces: map<nat, Space>, id: nat, p: Place)
    requires Sound(t0, spaces) && Alive(spaces, id) && p.Valid() && Pruned(t, t0, id, Rank(p))
    requires 0 !in t0.kown && 0 !in t0.live && 0 !in t0.klive
    requires PageAt(t0.m, spaces[id], p) != 0
    requires var v, a := PageAt(t0.m, spaces[id], p), if p.Page? then 0 else RefsAt(t0.m, spaces[id], p);
             && t'.own == t.own - {v} && t'.live == t.live - {v} && t'.kown == t.kown - {a} && t'.klive == t.klive - {a}
             && t'.frame == t.frame && t'.m.bytes == t.m.bytes
             && t'.m.refs == t.m.refs - {a} && t'.m.leaves == t.m.leaves - {a}
             && t'.m.tables == t.m.tables - {FrameNat(t.frame, v)}
    ensures Pruned(t', t0, id, Rank(p) + 1)
  {
    hide Rank, Sound, OwnedBy;
    var v, a := PageAt(t0.m, spaces[id], p), if p.Page? then 0 else RefsAt(t0.m, spaces[id], p);
    OnlyAt(t0, spaces, id, p);
    SoundFrames(t0, spaces);
    LeftStep(t0.own, t0.live, id, p, v);
    LeftStep(t0.kown, t0.klive, id, p, a);
    assert Untouched(t'.m, t0.m, t0.frame, t'.own, t'.kown);
  }

  lemma SoundFrames(t: Snap, spaces: map<nat, Space>)
    requires Sound(t, spaces)
    ensures 0 !in t.own && Injective(t.frame) && AllFramed(t.own, t.frame)
  {
  }

  /** The three digits of a rank say which place it is. */
  lemma RankDigits(p: Place)
    requires p.Valid()
    ensures var r := Rank(p);
            match p
            case Page(i, j, k) => r / 0x10_0000 == i && r % 0x10_0000 / 0x400 == j && r % 0x400 == k
            case Low(i, j) => r / 0x10_0000 == i && r % 0x10_0000 / 0x400 == j && r % 0x400 == ENTRIES
            case Mid(i) => r / 0x10_0000 == i && r % 0x10_0000 / 0x400 == ENTRIES && r % 0x400 == 0
            case Base => r / 0x10_0000 == ENTRIES && r % 0x10_0000 / 0x400 == 0 && r % 0x400 == 0
  {
    match p
    case Page(i, j, k) => ThreeDigits(i, j, k);
    case Low(i, j) => ThreeDigits(i, j, ENTRIES);
    case Mid(i) => ThreeDigits(i, ENTRIES, 0);
    case Base => ThreeDigits(ENTRIES, 0, 0);
  }

  lemma ThreeDigits(i: nat, j: nat, k: nat)
    requires j < 0x400 && k < 0x400
    ensures var r := i * 0x10_0000 + j * 0x400 + k;
            r / 0x10_0000 == i && r % 0x10_0000 / 0x400 == j && r % 0x400 == k
  {
    assert i * 0x10_0000 + j * 0x400 + k == (i * 0x400 + j) * 0x400 + k;
  }

  /** Below a missing last-level table, and after a present one, there is nothing. */
  lemma VacantLow(m: UserMem, s: Space, i: nat, j: nat)
    requires i < ENTRIES && j < ENTRIES
    ensures LowRef(m, s, i, j).table == 0 ==> Vacant(m, s, Rank(Page(i, j, 0)), Rank(Page(i, j, 0)) + 0x400)
    ensures Vacant(m, s, Rank(Low(i, j)) + 1, Rank(Page(i, j, 0)) + 0x400)
  {
    forall p: Place | p.Valid() && Rank(Page(i, j, 0)) <= Rank(p) < Rank(Page(i, j, 0)) + 0x400
      ensures p == Low(i, j) || (p.Page? && p.i == i && p.j == j)
    {
      RankDigits(p);
    }
  }

  lemma VacantMid(m: UserMem, s: Space, i: nat)
    requires i < ENTRIES
    ensures MidRef(m, s, i).table == 0 ==> Vacant(m, s, i * 0x10_0000, (i + 1) * 0x10_0000)
    ensures Vacant(m, s, Rank(Mid(i)) + 1, (i + 1) * 0x10_0000)
  {
    forall p: Place | p.Valid() && i * 0x10_0000 <= Rank(p) < (i + 1) * 0x10_0000
      ensures p == Mid(i) || (p.Low? && p.i == i) || (p.Page? && p.i == i)
    {
      RankDigits(p);
    }
  }

  lemma VacantPage(m: UserMem, s: Space, i: nat, j: nat, k: nat)
    requires Page(i, j, k).Valid() && LeafRef(m, s, i, j, k) == 0
    ensures Vacant(m, s, Rank(Page(i, j, k)), Rank(Page(i, j, k)) + 1)
  {
    forall p: Place | p.Valid() && Rank(p) == Rank(Page(i, j, k)) ensures p == Page(i, j, k) {
      RankInjective(p, Page(i, j, k));
    }
  }

  /** A table whose turn has not come is as it was. */
  lemma StillThere(t: Snap, t0: Snap, spaces: map<nat, Space>, id: nat, cur: nat, p: Place)
    requires Sound(t0, spaces) && Alive(spaces, id) && Pruned(t, t0, id, cur) && p.Valid() && cur <= Rank(p)
    requires PageAt(t0.m, spaces[id], p) != 0
    ensures var v := PageAt(t0.m, spaces[id], p);
            && v in t.own && v in t.live && t.live[v].size == 1 && v in t.frame
            && (!p.Page? ==>
                  var a := RefsAt(t0.m, spaces[id], p);
                  && a in t0.kown && a in t.kown && a in t.klive && t.klive[a].size == RefPages(p)
                  && (forall i: nat :: Entry(t.m, t.frame, v, i) == Entry(t0.m, t0.frame, v, i))
                  && (if p.Low? then a in t.m.leaves && t.m.leaves[a] == t0.m.leaves[a]
                      else a in t.m.refs && t.m.refs[a] == t0.m.refs[a]))
  {
    hide Rank;
    var v := PageAt(t0.m, spaces[id], p);
    if p.Page? {
      assert Has(t0.own, v, id, p);
    } else {
      assert TableAt(t0.m, t0.frame, t0.own, t0.kown, spaces[id], id, p);
      assert Has(t0.kown, RefsAt(t0.m, spaces[id], p), id, p);
    }
    assert !Gone(t0.own, v, id, cur);
  }

  /** What holds while space `id` is being given back. */
  ghost predicate Freeing(u: UserMemory, t0: Snap, id: nat, cur: nat)
    reads u, u.alloc, u.alloc.space, u.alloc.dma, u.alloc.kva
  {
    && u.alloc.Valid() && u.alloc.dma.Valid() && u.alloc.dma != u.alloc.kva
    && Sound(t0, u.spaces) && Alive(u.spaces, id)
    && 0 !in t0.kown && 0 !in t0.live && 0 !in t0.klive
    && u.alloc.guards.Keys !! t0.kown.Keys
    && Pruned(Now(u), t0, id, cur) && Contents(u.m, u.alloc.use, u.own, u.kown)
  }

  lemma NoLiveZero(d: Region)
    requires d.Valid()
    ensures 0 !in d.live
  {
    if 0 in d.live { LiveFrames(d.base, d.brk, d.tag, d.live, d.Free(), 0); }
  }

  lemma PrunedStart(t: Snap, id: nat)
    ensures Pruned(t, t, id, 0)
  {
  }

  lemma BaseThere(t: Snap, spaces: map<nat, Space>, id: nat)
    requires Sound(t, spaces) && Alive(spaces, id)
    ensures PageAt(t.m, spaces[id], Base) != 0
  {
  }

  lemma FreeingStart(u: UserMemory, id: nat)
    requires u.Valid() && Alive(u.spaces, id)
    ensures Freeing(u, Now(u), id, 0) && PageAt(u.m, u.spaces[id], Base) != 0
  {
    hide Framed, Reached, Partition, Linked, FreeRuns, AllTrees, Sound, Pruned, Contents, KernelSpace.Valid;
    u.FrameFacts();
    SoundNow(u);
    NoLiveZero(u.alloc.dma);
    NoLiveZero(u.alloc.kva);
    PrunedStart(Now(u), id);
    BaseThere(Now(u), u.spaces, id);
  }

  /** The frame of a live page is the first frame of its run. */
  lemma LiveFrame(u: UserMemory, v: nat)
    requires u.alloc.Valid() && u.alloc.dma.Valid() && v in u.alloc.dma.live && u.alloc.dma.live[v].size == 1
    ensures v in u.Frames() && u.alloc.dma.live[v] == Run(u.Frames()[v], 1)
    ensures u.Phys(v) == u.Frames()[v]
  {
    LiveFrames(u.alloc.dma.base, u.alloc.dma.brk, u.alloc.dma.tag, u.alloc.dma.live, u.alloc.dma.Free(), v);
    u.PhysIsFrame(v);
  }

  lemma ContentsDrop(m: UserMem, m': UserMem, use: map<nat, Use>, frame: map<nat, nat>,
                     own: map<nat, Owner>, kown: map<nat, Owner>, v: nat, a: nat)
    requires Contents(m, use, own, kown) && Framed(use, frame, true) && v in frame
    requires m'.tables == m.tables - {frame[v]} && m'.refs == m.refs - {a} && m'.leaves == m.leaves - {a}
    ensures Contents(m', use, own - {v}, kown - {a})
  {
    forall f | f in m'.tables ensures use[f].vpn != v {
      if use[f].vpn == v { assert UsedBy(use, f, UserOf(v, true)); }
    }
  }

  /** The memory without what is at place `p`. */
  function Dropped(m: UserMem, pfn: nat, a: nat): UserMem
  {
    m.(tables := m.tables - {pfn}, refs := m.refs - {a}, leaves := m.leaves - {a})
  }

  lemma FreeingStep(u: UserMemory, t0: Snap, id: nat, p: Place)
    requires Freeing(u, t0, id, Rank(p)) && p.Valid() && PageAt(t0.m, u.spaces[id], p) != 0
    ensures var v, a := PageAt(t0.m, u.spaces[id], p), if p.Page? then 0 else RefsAt(t0.m, u.spaces[id], p);
            var m', own', kown' := Dropped(u.m, FrameNat(t0.frame, v), a), u.own - {v}, u.kown - {a};
            && v in u.Frames() && u.Frames()[v] == FrameNat(t0.frame, v)
            && v in u.alloc.dma.live && u.alloc.dma.live[v] == Run(u.Frames()[v], 1) && u.Phys(v) == u.Frames()[v]
            && (!p.Page? ==> a in u.alloc.kva.live && u.alloc.kva.live[a].size == RefPages(p) && a !in u.alloc.guards)
            && Contents(m', u.alloc.use, own', kown')
            && Pruned(Snap(m', u.Frames(), own', kown', u.alloc.dma.live - {v}, u.alloc.kva.live - {a}), t0, id,
              Rank(p) + 1)
  {
    hide Rank, Sound, Untouched, LeftOwn, LeftLive, Partition;
    var t := Now(u);
    var v, a := PageAt(t0.m, u.spaces[id], p), if p.Page? then 0 else RefsAt(t0.m, u.spaces[id], p);
    StillThere(t, t0, u.spaces, id, Rank(p), p);
    LiveFrame(u, v);
    ContentsDrop(u.m, Dropped(u.m, FrameNat(t0.frame, v), a), u.alloc.use, u.Frames(), u.own, u.kown, v, a);
    PrunedStep(t, Snap(Dropped(u.m, FrameNat(t0.frame, v), a), u.Frames(), u.own - {v}, u.kown - {a},
                       u.alloc.dma.live - {v}, u.alloc.kva.live - {a}), t0, u.spaces, id, p);
  }

  lemma NoPageZero(u: UserMemory, t0: Snap, id: nat, cur: nat)
    requires Freeing(u, t0, id, cur)
    ensures 0 !in u.alloc.kva.live
  {
    assert Now(u).klive == LeftLive(t0.klive, t0.kown, id, cur);
  }

  /** `dmafree` of the data page at place `p`. */
  method GivePage(u: UserMemory, ghost t0: Snap, ghost id: nat, ghost p: Place, pfn: nat, v: nat)
    requires Freeing(u, t0, id, Rank(p)) && p.Valid() && p.Page?
    requires v == PageAt(t0.m, u.spaces[id], p) != 0 && pfn == FrameNat(t0.frame, v)
    modifies u`m, u`own, u`kown, u.alloc.dma
    ensures Freeing(u, t0, id, Rank(p) + 1)
  {
    hide PageAllocator.Valid, Region.Valid, Rank, Sound, Pruned, Contents, PageAt;
    hide Region.Frames, Region.List, AllTrees, Backed;
    FreeingStep(u, t0, id, p);
    NoPageZero(u, t0, id, Rank(p));
    assert u.alloc.kva.live - {0} == u.alloc.kva.live;
    u.alloc.Dmafree(pfn, v, 1);
    u.m := Dropped(u.m, pfn, 0);
    u.own, u.kown := u.own - {v}, u.kown - {0};
  }

  /** `dmafree` of the table at place `p` and `kfree` of its reference array. */
  method GiveTable(u: UserMemory, ghost t0: Snap, ghost id: nat, ghost p: Place, pfn: nat, v: nat, a: nat, size: nat)
    requires Freeing(u, t0, id, Rank(p)) && p.Valid() && !p.Page?
    requires v == PageAt(t0.m, u.spaces[id], p) != 0 && pfn == FrameNat(t0.frame, v)
    requires a == RefsAt(t0.m, u.spaces[id], p) && size == RefPages(p) * PAGESIZE
    modifies u`m, u`own, u`kown, u.alloc.dma, u.alloc.kva
    ensures Freeing(u, t0, id, Rank(p) + 1)
  {
    hide PageAllocator.Valid, Region.Valid, Rank, Sound, Pruned, Contents, PageAt;
    hide Region.Frames, Region.List, AllTrees, Backed;
    FreeingStep(u, t0, id, p);
    u.alloc.Dmafree(pfn, v, 1);
    u.alloc.Kfree(a, size);
    u.m := Dropped(u.m, pfn, a);
    u.own, u.kown := u.own - {v}, u.kown - {a};
  }

  /** The pages and arrays that hang in space `id` when `ptref_free` starts reading them. */
  lemma ReadTable(u: UserMemory, t0: Snap, id: nat, cur: nat, p: Place)
    requires Freeing(u, t0, id, cur) && p.Valid() && !p.Page? && cur <= Rank(p) && PageAt(t0.m, u.spaces[id], p) != 0
    ensures var v, a := PageAt(t0.m, u.spaces[id], p), RefsAt(t0.m, u.spaces[id], p);
            && (forall i: nat :: Load(u.m.tables, u.Phys(v), i) == Entry(t0.m, t0.frame, v, i))
            && (forall i: nat :: !p.Low? ==> RefAt(u.m, a, i) == RefAt(t0.m, a, i))
            && (p.Low? ==> a in u.m.leaves && a in t0.m.leaves && u.m.leaves[a] == t0.m.leaves[a])
  {
    hide Rank, Sound, Partition;
    StillThere(Now(u), t0, u.spaces, id, cur, p);
    LiveFrame(u, PageAt(t0.m, u.spaces[id], p));
    if p.Low? {
      TableHas(t0, u.spaces, id, p);
    } else {
      TableHas(t0, u.spaces, id, p);
    }
  }

  lemma TableHas(t: Snap, spaces: map<nat, Space>, id: nat, p: Place)
    requires Sound(t, spaces) && Alive(spaces, id) && p.Valid() && !p.Page? && PageAt(t.m, spaces[id], p) != 0
    ensures TableAt(t.m, t.frame, t.own, t.kown, spaces[id], id, p)
  {
  }

  /** The innermost loop of `ptref_free` and the two frees after it: one last-level table. */
  method FreeLow(u: UserMemory, ghost t0: Snap, ghost id: nat, i: nat, j: nat, pfn: nat, low: Ref)
    requires Freeing(u, t0, id, Rank(Page(i, j, 0))) && i < ENTRIES && j < ENTRIES
    requires low == LowRef(t0.m, u.spaces[id], i, j) && low.table != 0 && pfn == FrameNat(t0.frame, low.table)
    modifies u`m, u`own, u`kown, u.alloc.dma, u.alloc.kva
    ensures Freeing(u, t0, id, Rank(Page(i, j, 0)) + 0x400)
  {
    hide PageAllocator.Valid, Region.Valid, Sound, Pruned, Contents;
    ghost var s, lo := u.spaces[id], Rank(Page(i, j, 0));
    var k := 0;
    while k < ENTRIES
      invariant 0 <= k <= ENTRIES && u.spaces == old(u.spaces)
      invariant Freeing(u, t0, id, lo + k)
    {
      assert lo + k == Rank(Page(i, j, k));
      ReadTable(u, t0, id, lo + k, Low(i, j));
      var v := if low.refs in u.m.leaves && k < |u.m.leaves[low.refs]| then u.m.leaves[low.refs][k] else 0;
      assert v == LeafRef(t0.m, s, i, j, k);
      if v != 0 {
        LeafFrame(t0, u.spaces, id, i, j, k);
        GivePage(u, t0, id, Page(i, j, k), Load(u.m.tables, u.Phys(low.table), k).pfn, v);
      } else {
        VacantPage(t0.m, s, i, j, k);
        PrunedSkip(Now(u), t0, u.spaces, id, lo + k, lo + k + 1);
      }
      k := k + 1;
    }
    assert lo + ENTRIES == Rank(Low(i, j));
    GiveTable(u, t0, id, Low(i, j), pfn, low.table, low.refs, PAGESIZE);
    VacantLow(t0.m, s, i, j);
    PrunedSkip(Now(u), t0, u.spaces, id, Rank(Low(i, j)) + 1, lo + 0x400);
  }

  lemma LeafFrame(t: Snap, spaces: map<nat, Space>, id: nat, i: nat, j: nat, k: nat)
    requires Sound(t, spaces) && Alive(spaces, id) && Page(i, j, k).Valid() && LeafRef(t.m, spaces[id], i, j, k) != 0
    ensures Entry(t.m, t.frame, LowRef(t.m, spaces[id], i, j).table, k).pfn ==
      FrameNat(t.frame, LeafRef(t.m, spaces[id], i, j, k))
  {
  }

  lemma TableFrame(t: Snap, spaces: map<nat, Space>, id: nat, i: nat, j: nat)
    requires Sound(t, spaces) && Alive(spaces, id) && i < ENTRIES && j < ENTRIES
    ensures var s := spaces[id];
            && s.pfn == FrameNat(t.frame, s.vpn)
            && (MidRef(t.m, s, i).table != 0 ==>
                  Entry(t.m, t.frame, s.vpn, i).pfn == FrameNat(t.frame, MidRef(t.m, s, i).table))
            && (LowRef(t.m, s, i, j).table != 0 ==>
                  Entry(t.m, t.frame, MidRef(t.m, s, i).table, j).pfn == FrameNat(t.frame, LowRef(t.m, s, i, j).table))
  {
  }

  /** The middle loop of `ptref_free` and the two frees after it: one middle table. */
  method FreeMid(u: UserMemory, ghost t0: Snap, ghost id: nat, i: nat, pfn: nat, mid: Ref)
    requires Freeing(u, t0, id, i * 0x10_0000) && i < ENTRIES
    requires mid == MidRef(t0.m, u.spaces[id], i) && mid.table != 0 && pfn == FrameNat(t0.frame, mid.table)
    modifies u`m, u`own, u`kown, u.alloc.dma, u.alloc.kva
    ensures Freeing(u, t0, id, (i + 1) * 0x10_0000)
  {
    hide PageAllocator.Valid, Region.Valid, Sound, Pruned, Contents;
    ghost var s := u.spaces[id];
    var j := 0;
    while j < ENTRIES
      invariant 0 <= j <= ENTRIES && u.spaces == old(u.spaces)
      invariant Freeing(u, t0, id, i * 0x10_0000 + j * 0x400)
    {
      ghost var cur := i * 0x10_0000 + j * 0x400;
      assert cur == Rank(Page(i, j, 0)) && cur <= Rank(Mid(i));
      ReadTable(u, t0, id, cur, Mid(i));
      var low := RefAt(u.m, mid.refs, j);
      assert RefsAt(t0.m, s, Mid(i)) == mid.refs && low == LowRef(t0.m, s, i, j);
      VacantLow(t0.m, s, i, j);
      if low.table != 0 {
        TableFrame(t0, u.spaces, id, i, j);
        FreeLow(u, t0, id, i, j, Load(u.m.tables, u.Phys(mid.table), j).pfn, low);
      } else {
        PrunedSkip(Now(u), t0, u.spaces, id, cur, cur + 0x400);
      }
      j := j + 1;
    }
    GiveTable(u, t0, id, Mid(i), pfn, mid.table, mid.refs, 2 * PAGESIZE);
    VacantMid(t0.m, s, i);
    PrunedSkip(Now(u), t0, u.spaces, id, Rank(Mid(i)) + 1, (i + 1) * 0x10_0000);
  }

  /** What is left of ownership once space `id` is gone. */
  ghost function Without(own: map<nat, Owner>, id: nat): map<nat, Owner>
  {
    map v | v in own && own[v].id != id :: own[v]
  }

  /** The live runs that are not of space `id`. */
  ghost function LiveWithout(live: map<nat, Run>, own: map<nat, Owner>, id: nat): map<nat, Run>
  {
    map v | v in live && !OwnedBy(own, v, id) :: live[v]
  }

  lemma AllGone(t: Snap, t0: Snap, spaces: map<nat, Space>, id: nat)
    requires Sound(t0, spaces) && Alive(spaces, id) && Pruned(t, t0, id, Rank(Base) + 1)
    ensures t.own == Without(t0.own, id) && t.kown == Without(t0.kown, id)
    ensures t.live == LiveWithout(t0.live, t0.own, id) && t.klive == LiveWithout(t0.klive, t0.kown, id)
    ensures t.frame == t0.frame && t.m.bytes == t0.m.bytes
  {
    forall v | OwnedBy(t0.own, v, id) ensures Rank(t0.own[v].place) < Rank(Base) + 1 { RankLast(t0.own[v].place); }
    forall a | OwnedBy(t0.kown, a, id) ensures Rank(t0.kown[a].place) < Rank(Base) + 1 { RankLast(t0.kown[a].place); }
    LeftAll(t0.own, t0.live, id, Rank(Base) + 1);
    LeftAll(t0.kown, t0.klive, id, Rank(Base) + 1);
  }

  lemma LeftAll(own: map<nat, Owner>, live: map<nat, Run>, id: nat, cur: nat)
    requires forall v :: OwnedBy(own, v, id) ==> Rank(own[v].place) < cur
    ensures LeftOwn(own, id, cur) == Without(own, id) && LeftLive(live, own, id, cur) == LiveWithout(live, own, id)
  {
    hide Rank;
    forall v ensures Gone(own, v, id, cur) == OwnedBy(own, v, id) { }
    assert forall v :: v in own ==> (OwnedBy(own, v, id) <==> own[v].id == id);
  }

  lemma RankLast(p: Place)
    requires p.Valid()
    ensures Rank(p) <= Rank(Base)
  {
  }

  /** The other spaces are as they were. */
  lemma OthersLeft(t: Snap, t0: Snap, spaces: map<nat, Space>, id: nat)
    requires Sound(t0, spaces) && Alive(spaces, id) && Pruned(t, t0, id, Rank(Base) + 1)
    ensures AllTrees(t.m, t.frame, t.own, t.kown, spaces - {id})
    ensures Backed(t.live, t.klive, t.own, t.kown)
    ensures OnlySpace(t.m, t0.m, t0.frame, t.own, t0.own, t.kown, t0.kown, id)
  {
    hide Rank, LeftOwn, LeftLive, Tree, AllTrees, SameFor, SameOwner;
    AllGone(t, t0, spaces, id);
    OthersTrees(t, t0, spaces, id);
    forall x | x != id
      ensures SameFor(t.m, t0.m, t0.frame, t0.own, t0.kown, x) && SameOwner(t.own, t0.own, x) &&
        SameOwner(t.kown, t0.kown, x)
    {
      OtherLeft(t, t0, id, x);
    }
  }

  lemma OtherLeft(t: Snap, t0: Snap, id: nat, x: nat)
    requires t.own == Without(t0.own, id) && t.kown == Without(t0.kown, id) && x != id
    requires Untouched(t.m, t0.m, t0.frame, t.own, t.kown)
    ensures SameFor(t.m, t0.m, t0.frame, t0.own, t0.kown, x)
    ensures SameOwner(t.own, t0.own, x) && SameOwner(t.kown, t0.kown, x)
  {
  }

  lemma OthersTrees(t: Snap, t0: Snap, spaces: map<nat, Space>, id: nat)
    requires Sound(t0, spaces) && Alive(spaces, id) && Pruned(t, t0, id, Rank(Base) + 1)
    ensures AllTrees(t.m, t.frame, t.own, t.kown, spaces - {id})
  {
    hide Rank, LeftOwn, LeftLive, LiveWithout, Tree;
    AllGone(t, t0, spaces, id);
    forall x {:trigger Alive(spaces - {id}, x)} | Alive(spaces - {id}, x)
      ensures Tree(t.m, t.frame, t.own, t.kown, (spaces - {id})[x], x)
    {
      assert Alive(spaces, x);
      TreeKept(t0.m, t.m, t0.frame, t.frame, t0.own, t.own, t0.kown, t.kown, spaces[x], x);
    }
  }

  /** The end of `ptref_free`: the root table and its array, once everything below is free. */
  method FreeBase(u: UserMemory, ghost t0: Snap, ghost id: nat, s: Space)
    requires Freeing(u, t0, id, Rank(Base)) && s == u.spaces[id]
    modifies u`m, u`own, u`kown, u`spaces, u.alloc.dma, u.alloc.kva
    ensures u.Valid() && u.spaces == old(u.spaces) - {id} && u.m.bytes == t0.m.bytes && u.Frames() == t0.frame
    ensures u.own == Without(t0.own, id) && u.kown == Without(t0.kown, id)
    ensures u.alloc.dma.live == LiveWithout(t0.live, t0.own, id) &&
      u.alloc.kva.live == LiveWithout(t0.klive, t0.kown, id)
    ensures OnlySpace(u.m, t0.m, t0.frame, u.own, t0.own, u.kown, t0.kown, id)
  {
    hide PageAllocator.Valid, Region.Valid, Region.Frames, Sound, Pruned, Contents, AllTrees, Backed, OnlySpace;
    hide LiveWithout;
    BaseThere(t0, u.spaces, id);
    TableFrame(t0, u.spaces, id, 0, 0);
    GiveTable(u, t0, id, Base, s.pfn, s.vpn, s.refs, 2 * PAGESIZE);
    AllGone(Now(u), t0, u.spaces, id);
    OthersLeft(Now(u), t0, u.spaces, id);
    u.spaces := u.spaces - {id};
  }

  /** `ptref_free`: exactly the pages and arrays of space `id` go back to the free lists,
      each of them once (a page must be live to be given back), and the rest stays. */
  method PtrefFree(u: UserMemory, ghost id: nat, s: Space)
    requires u.Valid() && Alive(u.spaces, id) && u.spaces[id] == s
    modifies u`m, u`own, u`kown, u`spaces, u.alloc.dma, u.alloc.kva
    ensures u.Valid() && u.spaces == old(u.spaces) - {id}
    ensures BytesKept(u.m, old(u.m), u.Frames(), u.alloc.dma.live)
    ensures u.own == Without(old(u.own), id) && u.kown == Without(old(u.kown), id)
    ensures u.alloc.dma.live == LiveWithout(old(u.alloc.dma.live), old(u.own), id)
    ensures u.alloc.kva.live == LiveWithout(old(u.alloc.kva.live), old(u.kown), id)
    ensures u.Frames() == old(u.Frames())
    ensures OnlySpace(u.m, old(u.m), old(u.Frames()), u.own, old(u.own), u.kown, old(u.kown), id)
  {
    hide PageAllocator.Valid, Region.Valid, Sound, Pruned, Contents;
    ghost var t0 := Now(u);
    FreeingStart(u, id);
    var i := 0;
    while i < ENTRIES
      invariant 0 <= i <= ENTRIES && u.spaces == old(u.spaces)
      invariant Freeing(u, t0, id, i * 0x10_0000)
    {
      assert i * 0x10_0000 <= Rank(Base);
      ReadTable(u, t0, id, i * 0x10_0000, Base);
      var mid := RefAt(u.m, s.refs, i);
      assert mid == MidRef(t0.m, s, i);
      VacantMid(t0.m, s, i);
      if mid.table != 0 {
        TableFrame(t0, u.spaces, id, i, 0);
        FreeMid(u, t0, id, i, Load(u.m.tables, u.Phys(s.vpn), i).pfn, mid);
      } else {
        PrunedSkip(Now(u), t0, u.spaces, id, i * 0x10_0000, (i + 1) * 0x10_0000);
      }
      i := i + 1;
    }
    FreeBase(u, t0, id, s);
  }
}
