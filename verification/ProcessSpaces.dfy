/** The memory of processes (kernel/sysproc.c, kernel/process.c): what `sys_fork` makes and
    `free_process_space` gives back, for every slot of the process table. */
module ProcessSpaces {
  import opened Limits
  import opened Paging
  import opened KernelTable
  import opened PageRuns
  import opened Allocator
  import opened UserTable
  import opened AddressSpaces
  import opened SpaceCopy
  import opened SpaceFree
  import opened NewSpaces

  /** Pages of TRAMPOLINE and TRAPFRAME, 27 bits. */
  const TRAMPOLINE := 0x7ff_ffff
  const TRAPFRAME := 0x7ff_fffe
  const RX := Flags(true, true, false, true, false)

  /** The memory fields of a PCB: address space, first page of the kernel stack and the frame
      of its guard page. */
  datatype Proc = Proc(space: Space, stackVpn: nat, stackPfn: nat)

  predicate InUse(used: set<nat>, i: nat) { i in used }

  /** A process sees the trampoline, has a trap frame, and everything else the hardware maps
      for it is a page the kernel has for it. */
  ghost predicate UserView(m: UserMem, s: Space, trampoline: nat)
  {
    && Walkupt(m, s, TRAMPOLINE) == 0
    && Walk(m.tables, s.pfn, TRAMPOLINE) == Some(Leaf(trampoline, RX))
    && Walkupt(m, s, TRAPFRAME) != 0
    && (forall vpn: nat :: vpn < PAGES && vpn != TRAMPOLINE && Walk(m.tables, s.pfn, vpn).Some? ==>
      Walkupt(m, s, vpn) != 0)
  }

  /** A kernel stack: a live run whose first page is a guard page. */
  ghost predicate Stack(p: Proc, klive: map<nat, Run>, guards: map<nat, nat>)
  {
    && p.stackVpn in klive && klive[p.stackVpn].size == STACK_PAGES
    && p.stackVpn in guards && guards[p.stackVpn] == p.stackPfn
  }

  /** Slot `i` has the space and the stack its PCB says. */
  ghost predicate SlotOk(p: Proc, i: nat, t: Snap, spaces: map<nat, Space>, guards: map<nat, nat>, trampoline: nat)
  {
    && i < NUM_PROCS && Alive(spaces, i) && spaces[i] == p.space
    && UserView(t.m, p.space, trampoline) && Stack(p, t.klive, guards)
  }

  ghost predicate Slots(procs: seq<Proc>, used: set<nat>, t: Snap, spaces: map<nat, Space>, guards: map<nat, nat>,
                        trampoline: nat)
  {
    && |procs| == NUM_PROCS && used == spaces.Keys
    && (forall i: nat {:trigger InUse(used, i)} :: InUse(used, i) ==>
          i < NUM_PROCS && SlotOk(procs[i], i, t, spaces, guards, trampoline))
    && (forall i: nat, j: nat :: InUse(used, i) && InUse(used, j) && i != j ==> procs[i].stackVpn != procs[j].stackVpn)
  }

  /** What concerns another space does not change the view of this one. */
  lemma ViewOfOther(t: Snap, t': Snap, s: Space, id: nat, x: nat, trampoline: nat)
    requires OnlySpace(t'.m, t.m, t.frame, t'.own, t.own, t'.kown, t.kown, id) && Extended(t'.frame, t.frame)
    requires Tree(t.m, t.frame, t.own, t.kown, s, x) && x != id && UserView(t.m, s, trampoline)
    ensures UserView(t'.m, s, trampoline)
  {
    hide Walk, Walkupt, Tree, OnlySpace, Extended;
    forall vpn: nat ensures Walkupt(t'.m, s, vpn) == Walkupt(t.m, s, vpn)
      ensures Walk(t'.m.tables, s.pfn, vpn) == Walk(t.m.tables, s.pfn, vpn)
    {
      OtherKept(t, t', s, id, x, vpn);
    }
  }

  /** Page `vpn` of the space is as it was, for both walks and, the trap frame aside, in its bytes. */
  ghost predicate SamePage(t': Snap, t: Snap, s: Space, vpn: nat)
  {
    && Walkupt(t'.m, s, vpn) == Walkupt(t.m, s, vpn)
    && Walk(t'.m.tables, s.pfn, vpn) == Walk(t.m.tables, s.pfn, vpn)
    && (Walkupt(t.m, s, vpn) != 0 && vpn != TRAPFRAME ==>
          Bytes(t'.m, t'.frame, Walkupt(t.m, s, vpn)) == Bytes(t.m, t.frame, Walkupt(t.m, s, vpn)))
  }

  ghost predicate SameMemory(t': Snap, t: Snap, s: Space)
  {
    forall vpn: nat :: vpn < PAGES ==> SamePage(t', t, s, vpn)
  }

  lemma SameMemoryTrans(t0: Snap, t1: Snap, t2: Snap, s: Space)
    requires SameMemory(t1, t0, s) && SameMemory(t2, t1, s)
    ensures SameMemory(t2, t0, s)
  {
    hide Walk, Walkupt, Bytes;
    forall vpn: nat | vpn < PAGES ensures SamePage(t2, t0, s, vpn) {
      assert SamePage(t1, t0, s, vpn) && SamePage(t2, t1, s, vpn);
    }
  }

  /** The memory of every process but that of slot `id` is as it was. */
  ghost predicate Isolated(procs: seq<Proc>, used: set<nat>, id: nat, t': Snap, t: Snap)
  {
    forall j: nat {:trigger InUse(used, j)} :: InUse(used, j) && j != id ==>
      j < |procs| && SameMemory(t', t, procs[j].space)
  }

  /** What changes one space, and no bytes of pages that stay live, leaves the memory of every
      other process as it was. */
  lemma OthersSame(procs: seq<Proc>, used: set<nat>, t: Snap, t': Snap, spaces: map<nat, Space>, guards: map<nat, nat>,
                   trampoline: nat, id: nat, live: map<nat, Run>)
    requires Slots(procs, used, t, spaces, guards, trampoline) && Sound(t, spaces)
    requires OnlySpace(t'.m, t.m, t.frame, t'.own, t.own, t'.kown, t.kown, id) && Extended(t'.frame, t.frame)
    requires BytesKept(t'.m, t.m, t.frame, live) && forall v :: v in t.live && !OwnedBy(t.own, v, id) ==> v in live
    ensures Isolated(procs, used, id, t', t)
  {
    hide OnlySpace, UserView, Walk, Walkupt, Bytes, Tree;
    forall j: nat | InUse(used, j) && j != id ensures j < NUM_PROCS && SameMemory(t', t, procs[j].space) {
      assert Alive(spaces, j);
      forall vpn: nat | vpn < PAGES ensures SamePage(t', t, procs[j].space, vpn) {
        OtherKept(t, t', spaces[j], id, j, vpn);
        if Walkupt(t.m, spaces[j], vpn) != 0 {
          UserPage(t, spaces, j, vpn);
          SameBytes(t, t', live, Walkupt(t.m, spaces[j], vpn));
        }
      }
    }
  }

  lemma SameBytes(t: Snap, t': Snap, live: map<nat, Run>, v: nat)
    requires BytesKept(t'.m, t.m, t.frame, live) && v in live && v in t.frame && Extended(t'.frame, t.frame)
    ensures Bytes(t'.m, t'.frame, v) == Bytes(t.m, t.frame, v)
  {
    assert Bytes(t'.m, t.frame, v) == Bytes(t.m, t.frame, v);
  }

  /** Every page but the trampoline is a copy of that page of `src`. */
  ghost predicate Forked(m: UserMem, frame: map<nat, nat>, live: map<nat, Run>, src: Space, dst: Space)
  {
    forall vpn: nat :: vpn < PAGES && vpn != TRAMPOLINE ==> Copied(m, frame, live, src, dst, vpn)
  }

  /** The same while the trap frame of the copy is being filled: it is a page of its own, mapped
      as that of `src`, with bytes of its own. */
  ghost predicate ForkedUser(m: UserMem, frame: map<nat, nat>, live: map<nat, Run>, src: Space, dst: Space)
  {
    && (forall vpn: nat :: vpn < PAGES && vpn != TRAMPOLINE && vpn != TRAPFRAME ==>
      Copied(m, frame, live, src, dst, vpn))
    && var from, to := Walk(m.tables, src.pfn, TRAPFRAME), Walkupt(m, dst, TRAPFRAME);
    && to != 0 && to !in live && from.Some?
    && Walk(m.tables, dst.pfn, TRAPFRAME) == Some(Leaf(FrameNat(frame, to), from.value.flags))
  }

  lemma ForkedIsUser(m: UserMem, frame: map<nat, nat>, live: map<nat, Run>, src: Space, dst: Space)
    requires Forked(m, frame, live, src, dst) && Walkupt(m, src, TRAPFRAME) != 0
    ensures ForkedUser(m, frame, live, src, dst)
  {
    hide Walk, Walkupt;
    assert Copied(m, frame, live, src, dst, TRAPFRAME);
  }

  /** Mapping the trampoline into the copy leaves the rest a copy. */
  lemma ForkedThen(t: Snap, t': Snap, spaces: map<nat, Space>, live: map<nat, Run>, src: nat, dst: nat)
    requires Progress(t', t, dst) && Sound(t, spaces) && Sound(t', spaces)
    requires Alive(spaces, src) && Alive(spaces, dst) && src != dst
    requires AllCopied(t.m, t.frame, live, spaces[src], spaces[dst], 0, PAGES)
    requires ViewKeptExcept(t'.m, t.m, spaces[dst], TRAMPOLINE)
    ensures Forked(t'.m, t'.frame, live, spaces[src], spaces[dst])
  {
    hide Walk, Walkupt, Sound, Progress;
    forall vpn: nat | vpn < PAGES && vpn != TRAMPOLINE
      ensures Copied(t'.m, t'.frame, live, spaces[src], spaces[dst], vpn)
    {
      CopiedKept(t, t', spaces, live, dst, src, vpn);
    }
  }

  lemma ForkedView(m: UserMem, frame: map<nat, nat>, live: map<nat, Run>, src: Space, dst: Space, trampoline: nat)
    requires UserView(m, src, trampoline) && Forked(m, frame, live, src, dst)
    requires Walkupt(m, dst, TRAMPOLINE) == 0 && Walk(m.tables, dst.pfn, TRAMPOLINE) == Some(Leaf(trampoline, RX))
    ensures UserView(m, dst, trampoline)
  {
    hide Walk, Walkupt;
    assert Copied(m, frame, live, src, dst, TRAPFRAME);
    forall vpn: nat | vpn < PAGES && vpn != TRAMPOLINE && Walk(m.tables, dst.pfn, vpn).Some?
      ensures Walkupt(m, dst, vpn) != 0
    {
      assert Copied(m, frame, live, src, dst, vpn);
    }
  }

  /** `uptmap` of a page the kernel keeps no reference to, where there was none: progress. */
  lemma MapProgress(t: Snap, t': Snap, id: nat, grown: map<nat, Owner>)
    requires OnlySpace(t'.m, t.m, t.frame, t'.own, t.own, t'.kown, t.kown, id) && Extended(t'.frame, t.frame)
    requires Gained(grown, t.own, t'.live, t.live, id) && Gained(t'.kown, t.kown, t'.klive, t.klive, id)
    requires 0 !in grown && t'.own == grown - {0} && t'.m.bytes == t.m.bytes
    ensures Progress(t', t, id)
  {
    assert t'.own == grown;
  }

  /** A new process beside those in use. */
  lemma SlotsAdd(procs: seq<Proc>, used: set<nat>, t: Snap, t': Snap, spaces: map<nat, Space>, guards: map<nat, nat>,
                 trampoline: nat, c: nat, p: Proc)
    requires Slots(procs, used, t, spaces, guards, trampoline) && Sound(t, spaces) && !InUse(used, c)
    requires OnlySpace(t'.m, t.m, t.frame, t'.own, t.own, t'.kown, t.kown, c) && Extended(t'.frame, t.frame)
    requires forall a :: a in t.klive ==> a in t'.klive && t'.klive[a] == t.klive[a]
    requires p.stackVpn !in t.klive
    requires SlotOk(p, c, t', spaces[c := p.space], guards[p.stackVpn := p.stackPfn], trampoline)
    ensures Slots(procs[c := p], used + {c}, t', spaces[c := p.space], guards[p.stackVpn := p.stackPfn], trampoline)
  {
    hide UserView, OnlySpace, Extended, Tree;
    var procs', used', guards' := procs[c := p], used + {c}, guards[p.stackVpn := p.stackPfn];
    forall i: nat | InUse(used', i)
      ensures i < NUM_PROCS && SlotOk(procs'[i], i, t', spaces[c := p.space], guards', trampoline)
    {
      if i != c {
        assert InUse(used, i) && Alive(spaces, i);
        ViewOfOther(t, t', spaces[i], c, i, trampoline);
      }
    }
    forall i: nat, j: nat | InUse(used', i) && InUse(used', j) && i != j
      ensures procs'[i].stackVpn != procs'[j].stackVpn
    {
      if i != c { assert InUse(used, i); }
      if j != c { assert InUse(used, j); }
    }
  }

  /** A process less. */
  lemma SlotsDrop(procs: seq<Proc>, used: set<nat>, t: Snap, t': Snap, spaces: map<nat, Space>, guards: map<nat, nat>,
                  trampoline: nat, c: nat)
    requires Slots(procs, used, t, spaces, guards, trampoline) && Sound(t, spaces) && InUse(used, c)
    requires OnlySpace(t'.m, t.m, t.frame, t'.own, t.own, t'.kown, t.kown, c) && Extended(t'.frame, t.frame)
    requires guards.Keys !! t.kown.Keys
    requires t'.klive == LiveWithout(t.klive, t.kown, c) - {procs[c].stackVpn}
    ensures Slots(procs, used - {c}, t', spaces - {c}, guards - {procs[c].stackVpn}, trampoline)
  {
    hide UserView, OnlySpace, Extended, Tree;
    forall i: nat | InUse(used - {c}, i)
      ensures i < NUM_PROCS && SlotOk(procs[i], i, t', spaces - {c}, guards - {procs[c].stackVpn}, trampoline)
    {
      assert InUse(used, i) && Alive(spaces, i);
      ViewOfOther(t, t', spaces[i], c, i, trampoline);
    }
    assert forall i: nat :: InUse(used - {c}, i) ==> InUse(used, i);
  }

  /** Progress of a new space: everything newly live is its own. */
  lemma NewLive(own': map<nat, Owner>, own: map<nat, Owner>, live': map<nat, Run>, live: map<nat, Run>, id: nat)
    requires Gained(own', own, live', live, id) && NoneOf(own, id) && forall v :: v in own ==> v in live
    ensures LiveWithout(live', own', id) == live
  {
    forall v ensures v in live <==> v in live' && !OwnedBy(own', v, id) {
      assert !OwnedBy(own, v, id);
    }
  }

  lemma NoneYet(t: Snap, spaces: map<nat, Space>, id: nat)
    requires Sound(t, spaces) && !Alive(spaces, id)
    ensures NoneOf(t.own, id) && NoneOf(t.kown, id)
    ensures (forall v :: v in t.own ==> v in t.live) && (forall a :: a in t.kown ==> a in t.klive)
  {
  }

  /** Growing the new space does not change how the parent sees its own. */
  lemma ParentView(spaces: map<nat, Space>, trampoline: nat, t0: Snap, t: Snap, parent: nat, child: nat)
    requires Sound(t0, spaces) && Alive(spaces, parent) && parent != child && Progress(t, t0, child)
    requires UserView(t0.m, spaces[parent], trampoline)
    ensures UserView(t.m, spaces[parent], trampoline)
  {
    hide UserView, OnlySpace, Extended, Tree;
    ViewOfOther(t0, t, spaces[parent], child, parent, trampoline);
  }

  /** Where the parent has no trampoline page of its own, neither has the copy. */
  lemma NoTrampolinePage(m: UserMem, frame: map<nat, nat>, live: map<nat, Run>, src: Space, dst: Space, trampoline: nat)
    requires UserView(m, src, trampoline) && AllCopied(m, frame, live, src, dst, 0, PAGES)
    ensures Walkupt(m, dst, TRAMPOLINE) == 0
  {
    hide Walk, Walkupt;
    assert Copied(m, frame, live, src, dst, TRAMPOLINE);
  }

  /** A copy on pages not in a larger set of runs is one on pages not in a smaller set. */
  lemma ForkedFewer(m: UserMem, frame: map<nat, nat>, live: map<nat, Run>, live': map<nat, Run>, src: Space, dst: Space)
    requires Forked(m, frame, live', src, dst) && forall v :: v in live ==> v in live'
    ensures Forked(m, frame, live, src, dst)
  {
    hide Walk, Walkupt;
    forall vpn: nat | vpn < PAGES && vpn != TRAMPOLINE ensures Copied(m, frame, live, src, dst, vpn) {
      assert Copied(m, frame, live', src, dst, vpn);
    }
  }

  /** After `t1` the empty space, `t2` the copy and `t3` the trampoline, `dst` is a fork. */
  lemma ForkSteps(spaces: map<nat, Space>, t0: Snap, t1: Snap, t2: Snap, t3: Snap, src: nat, dst: nat)
    requires Progress(t1, t0, dst) && Progress(t2, t1, dst) && Progress(t3, t2, dst)
    requires Sound(t2, spaces) && Sound(t3, spaces) && Alive(spaces, src) && Alive(spaces, dst) && src != dst
    requires AllCopied(t2.m, t2.frame, t1.live, spaces[src], spaces[dst], 0, PAGES)
    requires ViewKeptExcept(t3.m, t2.m, spaces[dst], TRAMPOLINE)
    ensures Progress(t3, t0, dst)
    ensures Forked(t3.m, t3.frame, t0.live, spaces[src], spaces[dst])
  {
    hide Walk, Walkupt, AllCopied, Sound, OnlySpace, Extended, ViewKeptExcept, Forked;
    ForkedThen(t2, t3, spaces, t1.live, src, dst);
    ForkedFewer(t3.m, t3.frame, t0.live, t1.live, spaces[src], spaces[dst]);
    ProgressTrans(t0, t1, t2, dst);
    ProgressTrans(t0, t2, t3, dst);
  }

  /** The address space of a forked process. None is a panic. */
  method ForkSpace(u: UserMemory, ghost parent: nat, src: Space, ghost child: nat, trampoline: nat)
    returns (r: Option<Space>)
    requires u.Valid() && Alive(u.spaces, parent) && u.spaces[parent] == src && !Alive(u.spaces, child)
    requires UserView(u.m, src, trampoline)
    modifies u`m, u`own, u`kown, u`spaces, u.alloc`use, u.alloc`kframe, u.alloc.space, u.alloc.dma, u.alloc.kva
    ensures r.None? ==> u.alloc.space.Exhausted()
    ensures r.Some? ==>
      && u.Valid() && u.spaces == old(u.spaces)[child := r.value] && Progress(Now(u), old(Now(u)), child)
      && Forked(u.m, u.Frames(), old(u.alloc.dma.live), src, r.value)
      && Walkupt(u.m, r.value, TRAMPOLINE) == 0
      && Walk(u.m.tables, r.value.pfn, TRAMPOLINE) == Some(Leaf(trampoline, RX))
  {
    hide PageAllocator.Valid, Region.Valid, AllTrees, Backed, Contents, Walk, Walkupt, Sound, UserView;
    hide Progress, OnlySpace, Gained, Extended, AllCopied, ViewKeptExcept, ViewKept, Forked;
    ghost var t0, spaces := Now(u), u.spaces;
    SoundNow(u);
    r := NewSpace(u, child);
    if r.None? { return; }
    var dst := r.value;
    ghost var t1 := Now(u);
    assert Alive(u.spaces, parent) && Alive(u.spaces, child);
    var ok := PtrefCopy(u, parent, src, child, dst);
    if !ok { return None; }
    ghost var t2 := Now(u);
    SoundNow(u);
    ProgressTrans(t0, t1, t2, child);
    ParentView(spaces, trampoline, t0, t2, parent, child);
    NoTrampolinePage(t2.m, t2.frame, t1.live, src, dst, trampoline);
    ghost var grown;
    ok, grown := u.Uptmap(child, dst, 0, TRAMPOLINE, trampoline, RX);
    if !ok { return None; }
    SoundNow(u);
    MapProgress(t2, Now(u), child, grown);
    ForkSteps(u.spaces, t0, t1, t2, Now(u), parent, child);
  }

  /** The forked space of `t3` and a kernel stack make a process. */
  lemma ForkDone(procs: seq<Proc>, used: set<nat>, spaces: map<nat, Space>, guards: map<nat, nat>, trampoline: nat,
                 t0: Snap, t3: Snap, t4: Snap, parent: nat, child: nat, p: Proc)
    requires Slots(procs, used, t0, spaces, guards, trampoline) && Sound(t0, spaces)
    requires InUse(used, parent) && !InUse(used, child) && child < NUM_PROCS
    requires Progress(t3, t0, child) && Forked(t3.m, t3.frame, t0.live, procs[parent].space, p.space)
    requires Walkupt(t3.m, p.space, TRAMPOLINE) == 0
    requires Walk(t3.m.tables, p.space.pfn, TRAMPOLINE) == Some(Leaf(trampoline, RX))
    requires p.stackVpn !in t3.klive && p.stackVpn in t4.klive && t4.klive[p.stackVpn].size == STACK_PAGES
    requires t4 == t3.(klive := t3.klive[p.stackVpn := t4.klive[p.stackVpn]])
    ensures Slots(procs[child := p], used + {child}, t4, spaces[child := p.space], guards[p.stackVpn := p.stackPfn],
      trampoline)
    ensures LiveWithout(t4.live, t4.own, child) == t0.live
    ensures LiveWithout(t4.klive, t4.kown, child) - {p.stackVpn} == t0.klive
  {
    hide Walk, Walkupt, UserView, Sound, OnlySpace, Extended, Forked;
    assert InUse(used, parent) && Alive(spaces, parent);
    ParentView(spaces, trampoline, t0, t3, parent, child);
    ForkedView(t3.m, t3.frame, t0.live, procs[parent].space, p.space, trampoline);
    NoneYet(t0, spaces, child);
    NewLive(t3.own, t0.own, t3.live, t0.live, child);
    NewLive(t3.kown, t0.kown, t3.klive, t0.klive, child);
    StackLive(t3.klive, t4.klive, t0.klive, t3.kown, child, p.stackVpn);
    SlotsAdd(procs, used, t0, t4, spaces, guards, trampoline, child, p);
  }

  lemma StackLive(klive3: map<nat, Run>, klive4: map<nat, Run>, klive: map<nat, Run>, kown: map<nat, Owner>, id: nat,
                  a: nat)
    requires a !in klive3 && a in klive4 && klive4 == klive3[a := klive4[a]]
    requires LiveWithout(klive3, kown, id) == klive
    ensures LiveWithout(klive4, kown, id) - {a} == klive
  {
    assert a !in klive;
  }

  /** The kernel page of a user page is its data page, and the hardware maps its frame. */
  lemma UserPage(t: Snap, spaces: map<nat, Space>, i: nat, vpn: nat)
    requires Sound(t, spaces) && Alive(spaces, i) && Walkupt(t.m, spaces[i], vpn) != 0
    ensures var v := Walkupt(t.m, spaces[i], vpn);
            && Has(t.own, v, i, Page(Vpn(2, vpn), Vpn(1, vpn), Vpn(0, vpn))) && v in t.frame
            && Walk(t.m.tables, spaces[i].pfn, vpn).Some? &&
              Walk(t.m.tables, spaces[i].pfn, vpn).value.pfn == t.frame[v]
  {
    hide Walk, Hardware;
    WalksAgree(t.m, t.frame, t.own, t.kown, spaces[i], i, vpn);
    assert PageAt(t.m, spaces[i], Page(Vpn(2, vpn), Vpn(1, vpn), Vpn(0, vpn))) == Walkupt(t.m, spaces[i], vpn);
  }

  /** A data page lies above the kernel image and holds no table. */
  lemma DataFrame(u: UserMemory, v: nat)
    requires u.Valid() && v in u.own && u.own[v].place.Page? && v in u.Frames()
    ensures u.Frames()[v] >= u.alloc.space.root && u.Frames()[v] !in u.m.tables
  {
    hide AllTrees, Reached, Region.Valid, KernelSpace.Valid;
    assert UsedBy(u.alloc.use, u.Frames()[v], UserOf(v, true));
  }

  class Processes {
    const u: UserMemory
    /** Frame of the trampoline code, in the kernel image. */
    const trampoline: nat
    var procs: seq<Proc>
    /** Slots whose status is not UNUSED. */
    ghost var used: set<nat>

    ghost predicate Valid()
      reads this, u, u.alloc, u.alloc.space, u.alloc.dma, u.alloc.kva
    {
      && u.Valid() && trampoline < u.alloc.space.root
      && Slots(procs, used, Now(u), u.spaces, u.alloc.guards, trampoline)
    }

    /** An empty process table. */
    constructor (u: UserMemory, trampoline: nat)
      requires u.Valid() && u.spaces == map[] && trampoline < u.alloc.space.root
      ensures Valid() && used == {} && this.u == u
    {
      this.u, this.trampoline := u, trampoline;
      procs, used := seq(NUM_PROCS, _ => Proc(Space(0, 0, 0), 0, 0)), {};
    }

    /** The memory part of `sys_fork`: slot `child` gets a copy of the space of `parent` and a
        kernel stack of its own. False is a panic. */
    method Fork(parent: nat, child: nat) returns (ok: bool)
      requires Valid() && InUse(used, parent) && !InUse(used, child) && child < NUM_PROCS
      modifies this`procs, this`used, u`m, u`own, u`kown, u`spaces
      modifies u.alloc`use, u.alloc`kframe, u.alloc`guards, u.alloc.space, u.alloc.dma, u.alloc.kva
      ensures !ok ==> u.alloc.space.Exhausted()
      ensures ok ==>
        && Valid() && used == old(used) + {child} && procs == old(procs)[child := procs[child]]
        && Forked(u.m, u.Frames(), old(u.alloc.dma.live), procs[parent].space, procs[child].space)
        && OnlySpace(u.m, old(u.m), old(u.Frames()), u.own, old(u.own), u.kown, old(u.kown), child)
        && BytesKept(u.m, old(u.m), old(u.Frames()), old(u.alloc.dma.live))
        && LiveWithout(u.alloc.dma.live, u.own, child) == old(u.alloc.dma.live)
        && LiveWithout(u.alloc.kva.live, u.kown, child) - {procs[child].stackVpn} == old(u.alloc.kva.live)
        && Isolated(procs, old(used), child, Now(u), old(Now(u)))
    {
      hide PageAllocator.Valid, Region.Valid, Region.Frames, AllTrees, Backed, Contents, Walk, Walkupt, Sound, UserView;
      hide Forked, SameMemory;
      hide OnlySpace, Extended, Gained, BytesKept, LiveWithout;
      ghost var t0, spaces, guards := Now(u), u.spaces, u.alloc.guards;
      assert InUse(used, parent) && Alive(spaces, parent);
      SoundNow(u);
      var s := ForkSpace(u, parent, procs[parent].space, child, trampoline);
      if s.None? { return false; }
      ghost var t3 := Now(u);
      var k := NewStack(u);
      if k.None? { return false; }
      var p := Proc(s.value, k.value.0, k.value.1);
      ForkDone(procs, used, spaces, guards, trampoline, t0, t3, Now(u), parent, child, p);
      OthersSame(procs, used, t0, Now(u), spaces, guards, trampoline, child, t0.live);
      procs := procs[child := p];
      used := used + {child};
      ok := true;
    }

    /** Every process has a trap frame. */
    lemma HasTrapFrame(i: nat)
      requires Valid() && InUse(used, i)
      ensures i < |procs| && Walkupt(u.m, procs[i].space, TRAPFRAME) != 0
    {
      hide UserMemory.Valid, Walk, Walkupt;
    }

    /** `free_process_space` of slot `i`: exactly its pages, tables, arrays and stack go back. */
    method Free(i: nat)
      requires Valid() && InUse(used, i)
      modifies this`used, u`m, u`own, u`kown, u`spaces
      modifies u.alloc`use, u.alloc`guards, u.alloc.space, u.alloc.dma, u.alloc.kva
      ensures Valid() && used == old(used) - {i} && u.Frames() == old(u.Frames())
      ensures u.alloc.dma.live == LiveWithout(old(u.alloc.dma.live), old(u.own), i)
      ensures u.alloc.kva.live == LiveWithout(old(u.alloc.kva.live), old(u.kown), i) - {procs[i].stackVpn}
      ensures OnlySpace(u.m, old(u.m), old(u.Frames()), u.own, old(u.own), u.kown, old(u.kown), i)
      ensures BytesKept(u.m, old(u.m), u.Frames(), u.alloc.dma.live)
      ensures Isolated(procs, old(used), i, Now(u), old(Now(u)))
    {
      hide PageAllocator.Valid, Region.Valid, AllTrees, Backed, Contents, Walk, Walkupt, Sound, UserView, OnlySpace;
      hide BytesKept;
      hide Isolated;
      var p := procs[i];
      assert Alive(u.spaces, i);
      ghost var t0, spaces, guards := Now(u), u.spaces, u.alloc.guards;
      SoundNow(u);
      PtrefFree(u, i, p.space);
      StackStays(t0.klive, t0.kown, guards, i, p);
      FreeStack(u, p.stackVpn, p.stackPfn);
      SlotsDrop(procs, used, t0, Now(u), spaces, guards, trampoline, i);
      OthersSame(procs, used, t0, Now(u), spaces, guards, trampoline, i, u.alloc.dma.live);
      used := used - {i};
    }

    /** `sys_fork` and then the reaping of the child: every allocation is as it was. */
    method ForkReap(parent: nat, child: nat) returns (ok: bool)
      requires Valid() && InUse(used, parent) && !InUse(used, child) && child < NUM_PROCS
      modifies this`procs, this`used, u`m, u`own, u`kown, u`spaces
      modifies u.alloc`use, u.alloc`kframe, u.alloc`guards, u.alloc.space, u.alloc.dma, u.alloc.kva
      ensures !ok ==> u.alloc.space.Exhausted()
      ensures ok ==>
        && Valid() && used == old(used)
        && u.alloc.dma.live == old(u.alloc.dma.live) && u.alloc.kva.live == old(u.alloc.kva.live)
    {
      hide Processes.Valid, Region.Frames, OnlySpace;
      ok := Fork(parent, child);
      if !ok { return; }
      Free(child);
    }

    /** Kernel page `a` starts a run of the `kalloc` range that slot `i` has. */
    ghost predicate KernelRun(i: nat, a: nat)
      requires |procs| == NUM_PROCS
      reads this, u
    {
      OwnedBy(u.kown, a, i) || (InUse(used, i) && i < NUM_PROCS && a == procs[i].stackVpn)
    }

    /** Kernel page `v` is one of slot `i`: a page or table of its space, or part of one of its
        reference arrays or of its stack. */
    ghost predicate HasPage(i: nat, v: nat)
      requires |procs| == NUM_PROCS
      reads this, u, u.alloc, u.alloc.kva
    {
      OwnedBy(u.own, v, i) || exists a: nat :: KernelRun(i, a) && Holds(u.alloc.kva.live, a, v)
    }

    /** The frame behind a kernel page. */
    ghost function FrameBehind(v: nat): nat
      requires u.alloc.dma.Valid()
      reads u, u.alloc, u.alloc.dma
    {
      if v in u.Frames() then u.Frames()[v] else FrameNat(u.alloc.kframe, v)
    }

    /** A run has one owner. */
    lemma RunsApart(i: nat, j: nat, a: nat)
      requires Valid() && KernelRun(i, a) && KernelRun(j, a)
      ensures i == j && a in u.alloc.kva.live
    {
      hide UserView, AllTrees, Contents;
    }

    /** Which pages there are: owned pages have a frame of the `dmalloc` range, pages of runs
        one of the `kalloc` range. */
    lemma PageFrames(v: nat)
      requires Valid()
      ensures (exists i: nat :: OwnedBy(u.own, v, i)) ==> v in u.Frames() && v !in u.alloc.kframe
      ensures (exists a: nat :: Holds(u.alloc.kva.live, a, v)) ==>
        v in u.alloc.kframe && v !in u.Frames() && u.alloc.kva.tag[v] in u.alloc.kva.live
      ensures forall a :: Holds(u.alloc.kva.live, a, v) ==> a == u.alloc.kva.tag[v]
    {
      hide UserView, AllTrees, Contents, Framed, Reached, Slots;
      u.FrameFacts();
    }

    /** Slots in use own different kernel pages. */
    lemma PagesApart(i: nat, j: nat, v: nat)
      requires Valid() && HasPage(i, v) && HasPage(j, v)
      ensures i == j
    {
      hide UserView, AllTrees, Contents, Framed, Reached, Slots, KernelRun;
      PageFrames(v);
      if !OwnedBy(u.own, v, i) {
        RunsApart(i, j, u.alloc.kva.tag[v]);
      }
    }

    /** Different kernel pages have different frames. */
    lemma FramesApart(i: nat, j: nat, v: nat, w: nat)
      requires Valid() && HasPage(i, v) && HasPage(j, w) && FrameBehind(v) == FrameBehind(w)
      ensures v == w
    {
      hide UserView, AllTrees, Contents, Reached, Slots, KernelRun;
      PageFrames(v);
      PageFrames(w);
      var use, p := u.alloc.use, FrameBehind(v);
      assert UsedBy(use, p, UserOf(v, v in u.Frames())) && UsedBy(use, p, UserOf(w, w in u.Frames()));
    }

    /** An UNUSED slot owns no page. */
    lemma UnusedHasNone(i: nat, v: nat)
      requires Valid() && !InUse(used, i)
      ensures !HasPage(i, v)
    {
      hide UserView, Contents, Framed, Reached, Tree, Region.Valid;
    }

    /** Two slots own different kernel pages and different frames. */
    lemma SlotsDisjoint(i: nat, j: nat, v: nat, w: nat)
      requires Valid() && i != j && HasPage(i, v) && HasPage(j, w)
      ensures v != w && FrameBehind(v) != FrameBehind(w)
    {
      hide PageAllocator.Valid, Region.Valid, AllTrees, Contents, Slots, HasPage, FrameBehind;
      if FrameBehind(v) == FrameBehind(w) { FramesApart(i, j, v, w); }
      if v == w { PagesApart(i, j, v); }
    }

    /** The frame a user page translates to, the trampoline aside, is behind a data page of
        that slot and holds no page table. */
    lemma UserFrame(i: nat, vpn: nat)
      requires Valid() && InUse(used, i) && vpn < PAGES && vpn != TRAMPOLINE
      requires Walk(u.m.tables, procs[i].space.pfn, vpn).Some?
      ensures var pfn, v := Walk(u.m.tables, procs[i].space.pfn, vpn).value.pfn, Walkupt(u.m, procs[i].space, vpn);
              && Has(u.own, v, i, Page(Vpn(2, vpn), Vpn(1, vpn), Vpn(0, vpn)))
              && v in u.Frames() && u.Frames()[v] == pfn && pfn >= u.alloc.space.root && pfn !in u.m.tables
    {
      hide Walk, Walkupt, AllTrees, Contents, PageAllocator.Valid, Region.Valid, Sound;
      assert Alive(u.spaces, i);
      SoundNow(u);
      UserPage(Now(u), u.spaces, i, vpn);
      DataFrame(u, Walkupt(u.m, procs[i].space, vpn));
    }

    /** Two user pages share a frame only if both are the trampoline, or they are the same page
        of the same process. */
    lemma UserFramesApart(i: nat, j: nat, vpn: nat, w: nat)
      requires Valid() && InUse(used, i) && InUse(used, j) && vpn < PAGES && w < PAGES
      requires var a, b := Walk(u.m.tables, procs[i].space.pfn, vpn), Walk(u.m.tables, procs[j].space.pfn, w);
               a.Some? && b.Some? && a.value.pfn == b.value.pfn
      ensures vpn == w && (vpn == TRAMPOLINE || i == j)
    {
      hide Walk, Walkupt, KernelSpace.Valid, Stack, Region.Valid, AllTrees, Contents;
      u.FrameFacts();
      if vpn != TRAMPOLINE { UserFrame(i, vpn); }
      if w != TRAMPOLINE { UserFrame(j, w); }
      if vpn != TRAMPOLINE && w != TRAMPOLINE { VpnInjective(vpn, w); }
    }
  }

  /** The stack of a process is none of its reference arrays. */
  lemma StackStays(klive: map<nat, Run>, kown: map<nat, Owner>, guards: map<nat, nat>, i: nat, p: Proc)
    requires Stack(p, klive, guards) && guards.Keys !! kown.Keys
    ensures Stack(p, LiveWithout(klive, kown, i), guards)
  {
  }
}
