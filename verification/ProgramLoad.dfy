/** Which pages `load_process` (kernel/process.c) allocates and maps for a program. */
module ProgramLoad {
  import opened Limits
  import opened Paging
  import opened KernelTable
  import opened PageRuns
  import opened Allocator
  import opened UserTable
  import opened AddressSpaces
  import opened SpaceCopy
  import opened SpaceFree
  import opened NewSpaces
  import opened ProcessSpaces
  import UserBytes

  const USER_STACK_PAGES := 256
  const URW := Flags(true, true, true, false, true)

  /** A loadable program header: its addresses [start, end), where it starts in the file, and the
      bits PF_R, PF_W and PF_X. */
  datatype Segment = Segment(start: nat, end: nat, offset: nat, read: bool, write: bool, exec: bool)

  /** The permissions of the pages of a segment. */
  function Permissions(seg: Segment): Flags { Flags(true, seg.read, seg.write, seg.exec, true) }

  predicate Touches(seg: Segment, vpn: nat) { seg.start / PAGESIZE <= vpn < PageUp(seg.end) }

  /** Two segments of the program touch the same page. */
  ghost predicate Overlapping(segs: seq<Segment>)
  {
    exists a, b, vpn: nat :: 0 <= a < b < |segs| && Touches(segs[a], vpn) && Touches(segs[b], vpn)
  }

  /** An executable segment and a data segment that starts on its last page. */
  lemma SharedPage()
    ensures Overlapping([Segment(0x10000, 0x10800, 0, true, false, true),
      Segment(0x10800, 0x12000, 0x800, true, true, false)])
  {
    var segs := [Segment(0x10000, 0x10800, 0, true, false, true), Segment(0x10800, 0x12000, 0x800, true, true, false)];
    assert Touches(segs[0], 0x10) && Touches(segs[1], 0x10);
  }

  /** Pages [lo, hi) with the same permissions. */
  ghost function Range(lo: nat, hi: nat, flags: Flags): (r: map<nat, Flags>)
    ensures forall vpn :: vpn in r <==> lo <= vpn < hi
    ensures forall vpn :: vpn in r ==> r[vpn] == flags
    decreases hi
  {
    if hi <= lo then map[] else Range(lo, hi - 1, flags)[hi - 1 := flags]
  }

  /** The pages of the segments; where segments share a page the later one counts. */
  ghost function SegmentPages(segs: seq<Segment>): map<nat, Flags>
  {
    if segs == [] then map[]
    else
      var seg := segs[|segs| - 1];
      SegmentPages(segs[..|segs| - 1]) + Range(seg.start / PAGESIZE, PageUp(seg.end), Permissions(seg))
  }

  lemma {:induction false} SegmentPagesCover(segs: seq<Segment>, vpn: nat)
    ensures vpn in SegmentPages(segs) <==> exists a :: 0 <= a < |segs| && Touches(segs[a], vpn)
  {
    if segs != [] {
      var n := |segs| - 1;
      SegmentPagesCover(segs[..n], vpn);
      assert forall a :: 0 <= a < n ==> segs[..n][a] == segs[a];
    }
  }

  /** One past the last page of any segment, 0 if there is none. */
  function TopPage(segs: seq<Segment>): (top: nat)
    ensures forall a :: 0 <= a < |segs| ==> PageUp(segs[a].end) <= top
    ensures top == 0 || exists a :: 0 <= a < |segs| && PageUp(segs[a].end) == top
  {
    if segs == [] then 0
    else
      var n := |segs| - 1;
      var t := TopPage(segs[..n]);
      assert forall a :: 0 <= a < n ==> segs[..n][a] == segs[a];
      if PageUp(segs[n].end) > t then PageUp(segs[n].end) else t
  }

  /** Everything `load_process` maps beside the trampoline. */
  ghost function Layout(segs: seq<Segment>): map<nat, Flags>
  {
    var bottom := TopPage(segs) + 1;
    (SegmentPages(segs) + Range(bottom, bottom + USER_STACK_PAGES, URW))[TRAPFRAME := RW]
  }

  // ----- what the pages hold -----

  /** The page that `memcpy` takes from the buffer at `at`, which may lie before or behind the file:
      where it does, nothing is known of it. */
  function PageOf(file: Block, at: int): (r: Block)
    ensures |r| == PAGESIZE
    ensures forall k: nat {:trigger r[k]} :: k < PAGESIZE && 0 <= at + k < |file| ==> r[k] == file[at + k]
  {
    seq(PAGESIZE, k requires 0 <= k < PAGESIZE => if 0 <= at + k < |file| then file[at + k] else 0)
  }

  /** What new pages hold: what was in the frame, or the file from `base` on, counted from address 0. */
  datatype Fill = Untouched | FromFile(file: Block, base: int)

  function TextAt(fill: Fill, vpn: nat): Option<Block>
  {
    match fill
    case Untouched => None
    case FromFile(file, base) => Some(PageOf(file, base + vpn * PAGESIZE))
  }

  /** The known contents of pages, with those of one page known from now on, or no longer. */
  function Put(text: map<nat, Block>, vpn: nat, data: Option<Block>): map<nat, Block>
  {
    match data
    case None => text - {vpn}
    case Some(d) => text[vpn := d]
  }

  /** The contents once the pages [lo, hi) are new. */
  ghost function Painted(text: map<nat, Block>, lo: nat, hi: nat, fill: Fill): map<nat, Block>
    decreases hi
  {
    if hi <= lo then text else Put(Painted(text, lo, hi - 1, fill), hi - 1, TextAt(fill, hi - 1))
  }

  lemma {:induction false} PaintedAt(text: map<nat, Block>, lo: nat, hi: nat, fill: Fill, vpn: nat)
    ensures var at := if lo <= vpn < hi then TextAt(fill, vpn) else if vpn in text then Some(text[vpn]) else None;
            var all := Painted(text, lo, hi, fill);
            if at.Some? then vpn in all && all[vpn] == at.value else vpn !in all
    decreases hi
  {
    if lo < hi { PaintedAt(text, lo, hi - 1, fill, vpn); }
  }

  function FillOf(seg: Segment, file: Block): Fill { FromFile(file, seg.offset - seg.start) }

  ghost function SegmentTexts(segs: seq<Segment>, file: Block): map<nat, Block>
  {
    if segs == [] then map[]
    else
      var seg := segs[|segs| - 1];
      Painted(SegmentTexts(segs[..|segs| - 1], file), seg.start / PAGESIZE, PageUp(seg.end), FillOf(seg, file))
  }

  /** The contents `load_process` gives to the pages of a program. */
  ghost function ProgramTexts(segs: seq<Segment>, file: Block): map<nat, Block>
  {
    var bottom := TopPage(segs) + 1;
    Put(Painted(SegmentTexts(segs, file), bottom, bottom + USER_STACK_PAGES, Untouched), TRAPFRAME, None)
  }

  /** These pages hold these bytes. */
  ghost predicate Filled(m: UserMem, frame: map<nat, nat>, s: Space, text: map<nat, Block>)
  {
    forall vpn :: vpn in text ==>
      && vpn < PAGES && Walkupt(m, s, vpn) in frame
      && UserBytes.PageBytes(m, frame[Walkupt(m, s, vpn)]) == text[vpn]
  }

  function Written(bytes: map<nat, Block>, pfn: nat, data: Option<Block>): map<nat, Block>
  {
    if data.Some? then bytes[pfn := data.value] else bytes
  }

  /** A new page holds what was copied to it, and no other page changes. */
  lemma FilledAdd(t: Snap, t': Snap, s: Space, id: nat, text: map<nat, Block>, vpn: nat, v: nat, pfn: nat,
                  data: Option<Block>)
    requires Filled(t.m, t.frame, s, text) && Tree(t.m, t.frame, t.own, t.kown, s, id) && 0 !in t.frame
    requires Injective(t'.frame) && Extended(t'.frame, t.frame) && vpn < PAGES
    requires v != 0 && v !in t.own && v in t'.frame && t'.frame[v] == pfn
    requires ViewKeptExcept(t'.m, t.m, s, vpn) && Walkupt(t'.m, s, vpn) == v
    requires t'.m.bytes == Written(t.m.bytes, pfn, data) && (data.Some? ==> |data.value| == PAGESIZE)
    ensures Filled(t'.m, t'.frame, s, Put(text, vpn, data))
  {
    hide Walk, Walkupt, Tree;
    var text' := Put(text, vpn, data);
    forall w | w in text'
      ensures w < PAGES && Walkupt(t'.m, s, w) in t'.frame
      ensures UserBytes.PageBytes(t'.m, t'.frame[Walkupt(t'.m, s, w)]) == text'[w]
    {
      if w != vpn { PageFramed(t.m, t.frame, t.own, t.kown, s, id, w); }
    }
  }

  /** Nor does any page that was live before. */
  lemma BytesStay(t: Snap, t': Snap, t0: Snap, v: nat, pfn: nat, data: Option<Block>)
    requires BytesKept(t.m, t0.m, t0.frame, t0.live) && Extended(t.frame, t0.frame) && Extended(t'.frame, t.frame)
    requires Injective(t'.frame) && v in t'.frame && t'.frame[v] == pfn && v !in t0.live
    requires t'.m.bytes == Written(t.m.bytes, pfn, data)
    ensures BytesKept(t'.m, t0.m, t0.frame, t0.live)
  {
  }

  // ----- loading -----

  /** Segment `a` is the last one that touches the page. */
  ghost predicate TouchesLast(segs: seq<Segment>, a: nat, vpn: nat)
  {
    a < |segs| && Touches(segs[a], vpn) && forall b :: a < b < |segs| ==> !Touches(segs[b], vpn)
  }

  lemma {:induction false} LastCounts(segs: seq<Segment>, a: nat, vpn: nat)
    requires TouchesLast(segs, a, vpn)
    ensures vpn in SegmentPages(segs) && SegmentPages(segs)[vpn] == Permissions(segs[a])
  {
    var n := |segs| - 1;
    if a < n {
      assert !Touches(segs[n], vpn) && segs[..n][a] == segs[a];
      LastCounts(segs[..n], a, vpn);
    }
  }

  predicate HasFlags(m: UserMem, s: Space, vpn: nat, flags: Flags)
  {
    Walk(m.tables, s.pfn, vpn).Some? && Walk(m.tables, s.pfn, vpn).value.flags == flags
  }

  /** What the hardware finds in the space of a loaded program. A segment page has the
      permissions of the last segment that touches it, and an address in it has the byte of the file
      that is as far from the start of that segment's part of the file as the address is from the
      start of the segment. Above the segments come a page that is
      not mapped and 256 stack pages the program may read and write. The trap frame and the
      trampoline at the top are for the kernel only. No other page is mapped. */
  ghost predicate ProgramImage(m: UserMem, s: Space, segs: seq<Segment>, file: Block, trampoline: nat)
  {
    var top := TopPage(segs);
    && (forall vpn: nat, a: nat :: TouchesLast(segs, a, vpn) ==>
      HasFlags(m, s, vpn, Flags(v := true, r := segs[a].read, w := segs[a].write, x := segs[a].exec, u := true)))
    && (forall a: nat, x: nat {:trigger segs[a], UserBytes.Peek(m, s, x)} ::
      TouchesLast(segs, a, x / PAGESIZE) && 0 <= segs[a].offset + x - segs[a].start < |file| ==>
        UserBytes.Peek(m, s, x) == file[segs[a].offset + x - segs[a].start])
    && (forall vpn: nat :: top < vpn <= top + 256 ==>
      HasFlags(m, s, vpn, Flags(v := true, r := true, w := true, x := false, u := true)))
    && HasFlags(m, s, 0x7ff_fffe, Flags(v := true, r := true, w := true, x := false, u := false))
    && HasFlags(m, s, 0x7ff_ffff, Flags(v := true, r := true, w := false, x := true, u := false))
    && Walk(m.tables, s.pfn, 0x7ff_ffff).value.pfn == trampoline
    && (forall vpn: nat :: vpn < 0x7ff_fffe && Walk(m.tables, s.pfn, vpn).Some? ==>
      top < vpn <= top + 256 || exists a: nat :: TouchesLast(segs, a, vpn))
  }

  lemma {:induction false} SomeLast(segs: seq<Segment>, vpn: nat) returns (a: nat)
    requires exists b :: 0 <= b < |segs| && Touches(segs[b], vpn)
    ensures TouchesLast(segs, a, vpn)
  {
    a := |segs| - 1;
    if !Touches(segs[a], vpn) {
      var n := a;
      assert forall b :: 0 <= b < n ==> segs[..n][b] == segs[b];
      a := SomeLast(segs[..n], vpn);
    }
  }

  /** The pages of the space beside the trampoline are those of `want`, each with a kernel
      page, mapped to its frame with the permissions in `want`. */
  ghost predicate Maps(m: UserMem, frame: map<nat, nat>, s: Space, want: map<nat, Flags>)
  {
    forall vpn: nat :: vpn < PAGES && vpn != TRAMPOLINE ==>
      if vpn in want then
        && Walkupt(m, s, vpn) != 0
        && Walk(m.tables, s.pfn, vpn) == Some(Leaf(FrameNat(frame, Walkupt(m, s, vpn)), want[vpn]))
      else Empty(m, s, vpn)
  }

  lemma MapsAdd(m: UserMem, m': UserMem, frame: map<nat, nat>, frame': map<nat, nat>, own: map<nat, Owner>,
                kown: map<nat, Owner>,
                s: Space, id: nat, want: map<nat, Flags>, vpn: nat, flags: Flags)
    requires Maps(m, frame, s, want) && vpn < PAGES && vpn != TRAMPOLINE && Extended(frame', frame)
    requires Tree(m, frame, own, kown, s, id)
    requires ViewKeptExcept(m', m, s, vpn) && Walkupt(m', s, vpn) != 0
    requires Walk(m'.tables, s.pfn, vpn) == Some(Leaf(FrameNat(frame', Walkupt(m', s, vpn)), flags))
    ensures Maps(m', frame', s, want[vpn := flags])
  {
    hide Walk, Walkupt;
    forall w: nat | w < PAGES && w != TRAMPOLINE && w != vpn
      ensures if w in want then
          && Walkupt(m', s, w) != 0
          && Walk(m'.tables, s.pfn, w) == Some(Leaf(FrameNat(frame', Walkupt(m', s, w)), want[w]))
        else Empty(m', s, w)
    {
      if w in want { PageFramed(m, frame, own, kown, s, id, w); }
    }
  }

  lemma PageFramed(m: UserMem, frame: map<nat, nat>, own: map<nat, Owner>, kown: map<nat, Owner>, s: Space, id: nat,
                   vpn: nat)
    requires Tree(m, frame, own, kown, s, id) && Walkupt(m, s, vpn) != 0
    ensures Walkupt(m, s, vpn) in frame && OwnedBy(own, Walkupt(m, s, vpn), id)
  {
    assert PageAt(m, s, Page(Vpn(2, vpn), Vpn(1, vpn), Vpn(0, vpn))) == Walkupt(m, s, vpn);
  }

  /** Live runs after a page is mapped: what space `id` does not own is as before, and the page
      that lost its place. */
  lemma RestStep(own: map<nat, Owner>, grown: map<nat, Owner>, own': map<nat, Owner>, live: map<nat, Run>,
                 live': map<nat, Run>,
                 id: nat, was: nat, v: nat, run: Run, o: Owner)
    requires v != 0 && v !in own && v !in live && o.id == id && 0 !in live'
    requires Gained(grown, own, live', live[v := run], id) && own' == Reown(grown, was, v, o)
    requires was == 0 || (OwnedBy(own, was, id) && was in live)
    requires forall w :: w in own ==> w in live
    ensures LiveWithout(live', own', id) ==
            if was == 0 then LiveWithout(live, own, id) else LiveWithout(live, own, id)[was := live[was]]
  {
    var rest := LiveWithout(live, own, id);
    var want := if was == 0 then rest else rest[was := live[was]];
    forall w ensures w in LiveWithout(live', own', id) <==> w in want {
      assert OwnedBy(own', w, id) <==> w == v || (w != was && OwnedBy(grown, w, id));
      if w in live { assert OwnedBy(grown, w, id) <==> OwnedBy(own, w, id); }
    }
  }

  /** What an allocation of arrays leaves as it was. */
  lemma RestSame(own: map<nat, Owner>, own': map<nat, Owner>, live: map<nat, Run>, live': map<nat, Run>, id: nat)
    requires Gained(own', own, live', live, id) && forall w :: w in own ==> w in live
    ensures LiveWithout(live', own', id) == LiveWithout(live, own, id)
  {
    forall w ensures w in LiveWithout(live', own', id) <==> w in LiveWithout(live, own, id) {
      if w in live { assert OwnedBy(own', w, id) <==> OwnedBy(own, w, id); }
    }
  }

  /** The trampoline is mapped, and the kernel keeps no page for it. */
  ghost predicate HasTrampoline(m: UserMem, s: Space, trampoline: nat)
  {
    Walkupt(m, s, TRAMPOLINE) == 0 && Walk(m.tables, s.pfn, TRAMPOLINE) == Some(Leaf(trampoline, RX))
  }

  /** `rest` is what was live before and, exactly if `leak`, something more. */
  ghost predicate Kept(rest: map<nat, Run>, live: map<nat, Run>, leak: bool)
  {
    && (forall v :: v in live ==> v in rest && rest[v] == live[v])
    && (leak <==> exists v :: v in rest && v !in live)
  }

  /** While a program is loaded into space `id`, made after `t0`: it maps `want` and holds `text`,
      and the live runs it does not own are those of `t0`, `kbase`, and pages that were leaked. */
  ghost predicate Loading(t: Snap, t0: Snap, s: Space, id: nat, want: map<nat, Flags>, text: map<nat, Block>,
                          leak: bool, kbase: map<nat, Run>, trampoline: nat)
  {
    && OnlySpace(t.m, t0.m, t0.frame, t.own, t0.own, t.kown, t0.kown, id) && Extended(t.frame, t0.frame)
    && BytesKept(t.m, t0.m, t0.frame, t0.live)
    && Maps(t.m, t.frame, s, want) && Filled(t.m, t.frame, s, text) && HasTrampoline(t.m, s, trampoline)
    && Kept(LiveWithout(t.live, t.own, id), t0.live, leak)
    && LiveWithout(t.klive, t.kown, id) == kbase
  }

  /** `Loading` of the space `id` of `u`, now. */
  ghost predicate LoadingNow(u: UserMemory, t0: Snap, s: Space, id: nat, want: map<nat, Flags>,
                             text: map<nat, Block>, leak: bool, kbase: map<nat, Run>, trampoline: nat)
    reads u, u.alloc, u.alloc.space, u.alloc.dma, u.alloc.kva
  {
    && u.Valid() && Alive(u.spaces, id) && u.spaces[id] == s
    && Loading(Now(u), t0, s, id, want, text, leak, kbase, trampoline)
  }

  lemma KeptMore(rest: map<nat, Run>, live: map<nat, Run>, leak: bool, was: nat, run: Run)
    requires Kept(rest, live, leak) && was !in rest
    ensures Kept(rest[was := run], live, true)
  {
    assert was in rest[was := run] && was !in live;
  }

  /** A page with a kernel page belongs to the space, so it is not among the rest. */
  lemma WasOwned(t: Snap, s: Space, id: nat, vpn: nat)
    requires Tree(t.m, t.frame, t.own, t.kown, s, id) && Backed(t.live, t.klive, t.own, t.kown)
    ensures var w := Walkupt(t.m, s, vpn);
            w == 0 || (OwnedBy(t.own, w, id) && w in t.live && w !in LiveWithout(t.live, t.own, id))
  {
    hide Hardware;
    if Walkupt(t.m, s, vpn) != 0 { PageFramed(t.m, t.frame, t.own, t.kown, s, id, vpn); }
  }

  lemma LoadingStep(t: Snap, t': Snap, t0: Snap, s: Space, id: nat, want: map<nat, Flags>, text: map<nat, Block>,
                    leak: bool, kbase: map<nat, Run>, trampoline: nat, vpn: nat, flags: Flags, data: Option<Block>,
                    v: nat, pfn: nat, grown: map<nat, Owner>)
    requires Loading(t, t0, s, id, want, text, leak, kbase, trampoline) && vpn < TRAMPOLINE
    requires Tree(t.m, t.frame, t.own, t.kown, s, id) && Backed(t.live, t.klive, t.own, t.kown) && 0 !in t'.live
    requires v != 0 && v !in t.own && v !in t.live && v in t'.frame && t'.frame[v] == pfn
    requires OnlySpace(t'.m, t.m, t.frame, t'.own, t.own, t'.kown, t.kown, id) && Extended(t'.frame, t.frame)
    requires Walkupt(t'.m, s, vpn) == v && Walk(t'.m.tables, s.pfn, vpn) == Some(Leaf(pfn, flags))
    requires ViewKeptExcept(t'.m, t.m, s, vpn) && t'.m.bytes == Written(t.m.bytes, pfn, data)
    requires Injective(t'.frame) && 0 !in t.frame && (data.Some? ==> |data.value| == PAGESIZE)
    requires Gained(grown, t.own, t'.live, t.live[v := Run(pfn, 1)], id)
    requires t'.own == Reown(grown, Walkupt(t.m, s, vpn), v, UserMemory.OwnerOf(id, vpn))
    requires Gained(t'.kown, t.kown, t'.klive, t.klive, id)
    ensures Loading(t', t0, s, id, want[vpn := flags], Put(text, vpn, data), leak || vpn in want, kbase, trampoline)
  {
    hide Walk, Walkupt, Tree, OnlySpace, Gained, Reown, Filled, BytesKept, Written, Injective, Put;
    var was := Walkupt(t.m, s, vpn);
    WasOwned(t, s, id, vpn);
    MapsAdd(t.m, t'.m, t.frame, t'.frame, t.own, t.kown, s, id, want, vpn, flags);
    FilledAdd(t, t', s, id, text, vpn, v, pfn, data);
    BytesStay(t, t', t0, v, pfn, data);
    OnlySpaceTrans(t0.m, t.m, t'.m, t0.frame, t.frame, t0.own, t.own, t'.own, t0.kown, t.kown, t'.kown, id);
    RestStep(t.own, grown, t'.own, t.live, t'.live, id, was, v, Run(pfn, 1), UserMemory.OwnerOf(id, vpn));
    RestSame(t.kown, t'.kown, t.klive, t'.klive, id);
    assert vpn in want <==> was != 0;
    if was != 0 { KeptMore(LiveWithout(t.live, t.own, id), t0.live, leak, was, t.live[was]); }
  }

  lemma NowFacts(u: UserMemory, id: nat)
    requires u.Valid() && Alive(u.spaces, id)
    ensures Tree(u.m, u.Frames(), u.own, u.kown, u.spaces[id], id)
    ensures Backed(u.alloc.dma.live, u.alloc.kva.live, u.own, u.kown) && 0 !in u.alloc.dma.live
    ensures Injective(u.Frames()) && 0 !in u.Frames()
  {
    hide Framed, Reached, Contents, Tree, KernelSpace.Valid, Partition, Linked, Region.Frames;
    NoLiveZero(u.alloc.dma);
    u.FrameFacts();
    u.alloc.KernelPages();
  }

  /** `dmalloc` of a page, `memcpy` of `data` to it, if any, and `uptmap` of it at `vpn`. False is
      a panic. */
  method MapNew(u: UserMemory, ghost id: nat, s: Space, vpn: nat, flags: Flags, data: Option<Block>,
                ghost t0: Snap, ghost want: map<nat, Flags>, ghost text: map<nat, Block>, ghost leak: bool,
                ghost kbase: map<nat, Run>, ghost trampoline: nat)
    returns (ok: bool)
    requires LoadingNow(u, t0, s, id, want, text, leak, kbase, trampoline) && vpn < TRAMPOLINE && IsLeaf(flags)
    requires data.Some? ==> |data.value| == PAGESIZE
    modifies u`m, u`own, u`kown, u.alloc`use, u.alloc`kframe, u.alloc.space, u.alloc.dma, u.alloc.kva
    ensures !ok ==> u.alloc.space.Exhausted()
    ensures ok ==>
      LoadingNow(u, t0, s, id, want[vpn := flags], Put(text, vpn, data), leak || vpn in want, kbase, trampoline)
  {
    hide PageAllocator.Valid, Region.Valid, AllTrees, Backed, Contents, Walk, Walkupt, Loading, OnlySpace;
    hide Gained, ViewKeptExcept, Extended, Tree, Reown, ViewKept, Injective, Region.Frames;
    ghost var t := Now(u);
    NowFacts(u, id);
    var p := u.NewPage();
    if p.None? { return false; }
    var (v, pfn) := p.value;
    ghost var frame1 := u.Frames();
    if data.Some? { u.FillBytes(v, data.value); }
    ghost var m1 := u.m;
    ghost var grown;
    ok, grown := u.Uptmap(id, s, v, vpn, pfn, flags);
    if !ok { return; }
    FilledBefore(t.m, m1, u.m, frame1, t.own, u.own, t.kown, u.kown, s, id, vpn);
    NowFacts(u, id);
    ExtendedTrans(t.frame, frame1, u.Frames(), v);
    OnlySpaceFrames(u.m, t.m, frame1, t.frame, u.own, t.own, u.kown, t.kown, id);
    LoadingStep(t, Now(u), t0, s, id, want, text, leak, kbase, trampoline, vpn, flags, data, v, pfn, grown);
  }

  /** What is seen of the page tables does not depend on the bytes of pages. */
  lemma FilledBefore(m: UserMem, m1: UserMem, m2: UserMem, frame: map<nat, nat>, own: map<nat, Owner>,
                     own2: map<nat, Owner>, kown: map<nat, Owner>, kown2: map<nat, Owner>, s: Space, id: nat, vpn: nat)
    requires m1 == m.(bytes := m1.bytes)
    requires OnlySpace(m2, m1, frame, own2, own, kown2, kown, id) && ViewKeptExcept(m2, m1, s, vpn)
    ensures OnlySpace(m2, m, frame, own2, own, kown2, kown, id) && ViewKeptExcept(m2, m, s, vpn)
    ensures Walkupt(m1, s, vpn) == Walkupt(m, s, vpn)
  {
    hide SameFor, SameOwner;
    SeenBefore(m, m1, m2, s, vpn);
    forall x | x != id
      ensures SameFor(m2, m, frame, own, kown, x) && SameOwner(own2, own, x) && SameOwner(kown2, kown, x)
    {
      SameBefore(m, m1, m2, frame, own, kown, x);
    }
  }

  lemma SameBefore(m: UserMem, m1: UserMem, m2: UserMem, frame: map<nat, nat>, own: map<nat, Owner>,
                   kown: map<nat, Owner>, x: nat)
    requires m1 == m.(bytes := m1.bytes) && SameFor(m2, m1, frame, own, kown, x)
    ensures SameFor(m2, m, frame, own, kown, x)
  {
  }

  lemma SeenBefore(m: UserMem, m1: UserMem, m2: UserMem, s: Space, vpn: nat)
    requires m1 == m.(bytes := m1.bytes) && ViewKeptExcept(m2, m1, s, vpn)
    ensures ViewKeptExcept(m2, m, s, vpn) && Walkupt(m1, s, vpn) == Walkupt(m, s, vpn)
  {
    hide Walk;
    assert forall w: nat :: Walkupt(m1, s, w) == Walkupt(m, s, w);
  }

  lemma ExtendedTrans(frame0: map<nat, nat>, frame1: map<nat, nat>, frame2: map<nat, nat>, v: nat)
    requires Extended(frame1, frame0) && Extended(frame2, frame1) && v in frame1
    ensures Extended(frame2, frame0) && v in frame2 && frame2[v] == frame1[v]
  {
  }

  /** One of the pages [lo, hi) is mapped already. */
  ghost predicate Hits(want: map<nat, Flags>, lo: nat, hi: nat) { exists q :: lo <= q < hi && q in want }

  /** Mapping one more page of a range. */
  lemma RangeStep(want: map<nat, Flags>, lo: nat, p: nat, flags: Flags)
    requires lo <= p
    ensures (want + Range(lo, p, flags))[p := flags] == want + Range(lo, p + 1, flags)
    ensures p in want + Range(lo, p, flags) <==> p in want
    ensures Hits(want, lo, p + 1) <==> Hits(want, lo, p) || p in want
  {
    if p in want { assert lo <= p < p + 1 && p in want; }
    if Hits(want, lo, p) {
      var q :| lo <= q < p && q in want;
      assert lo <= q < p + 1 && q in want;
    }
  }

  /** The inner loop of `load_process`, and its loop for the user stack: pages [lo, hi).
      False is a panic. */
  method MapRange(u: UserMemory, ghost id: nat, s: Space, lo: nat, hi: nat, flags: Flags, fill: Fill,
                  ghost t0: Snap, ghost want: map<nat, Flags>, ghost text: map<nat, Block>, ghost leak: bool,
                  ghost kbase: map<nat, Run>, ghost trampoline: nat)
    returns (ok: bool)
    requires LoadingNow(u, t0, s, id, want, text, leak, kbase, trampoline) && hi <= TRAMPOLINE && IsLeaf(flags)
    modifies u`m, u`own, u`kown, u.alloc`use, u.alloc`kframe, u.alloc.space, u.alloc.dma, u.alloc.kva
    ensures !ok ==> u.alloc.space.Exhausted()
    ensures ok ==>
      LoadingNow(u, t0, s, id, want + Range(lo, hi, flags), Painted(text, lo, hi, fill),
        leak || Hits(want, lo, hi), kbase, trampoline)
  {
    hide LoadingNow, Hits;
    var p := lo;
    NoRange(want, lo, lo, flags);
    if hi <= lo { NoRange(want, lo, hi, flags); }
    while p < hi
      invariant lo <= p && (p <= hi || p == lo)
      invariant LoadingNow(u, t0, s, id, want + Range(lo, p, flags), Painted(text, lo, p, fill),
        leak || Hits(want, lo, p), kbase, trampoline)
    {
      RangeStep(want, lo, p, flags);
      ok := MapNew(u, id, s, p, flags, TextAt(fill, p), t0, want + Range(lo, p, flags), Painted(text, lo, p, fill),
        leak || Hits(want, lo, p), kbase, trampoline);
      if !ok { return; }
      p := p + 1;
    }
    ok := true;
  }

  lemma NoRange(want: map<nat, Flags>, lo: nat, hi: nat, flags: Flags)
    requires hi <= lo
    ensures want + Range(lo, hi, flags) == want && !Hits(want, lo, hi)
  {
  }

  /** A segment more. */
  lemma SegmentStep(segs: seq<Segment>, n: nat, file: Block)
    requires n < |segs|
    ensures var lo, hi := segs[n].start / PAGESIZE, PageUp(segs[n].end);
            && SegmentPages(segs[..n + 1]) == SegmentPages(segs[..n]) + Range(lo, hi, Permissions(segs[n]))
            && (Overlapping(segs[..n + 1]) <==> Overlapping(segs[..n]) || Hits(SegmentPages(segs[..n]), lo, hi))
            && TopPage(segs[..n + 1]) == (if hi > TopPage(segs[..n]) then hi else TopPage(segs[..n]))
            && SegmentTexts(segs[..n + 1], file) ==
                 Painted(SegmentTexts(segs[..n], file), lo, hi, FillOf(segs[n], file))
  {
    assert segs[..n + 1][..n] == segs[..n];
    OverlapStep(segs[..n], segs[n]);
    assert segs[..n] + [segs[n]] == segs[..n + 1];
  }

  lemma OverlapStep(pre: seq<Segment>, seg: Segment)
    ensures Overlapping(pre + [seg]) <==>
      Overlapping(pre) || Hits(SegmentPages(pre), seg.start / PAGESIZE, PageUp(seg.end))
  {
    hide SegmentPages;
    var more, n, lo, hi := pre + [seg], |pre|, seg.start / PAGESIZE, PageUp(seg.end);
    if Overlapping(more) {
      var a, b, vpn: nat :| 0 <= a < b < |more| && Touches(more[a], vpn) && Touches(more[b], vpn);
      if b < n {
        assert Touches(pre[a], vpn) && Touches(pre[b], vpn);
      } else {
        SegmentPagesCover(pre, vpn);
        assert Touches(pre[a], vpn) && lo <= vpn < hi && vpn in SegmentPages(pre);
      }
    }
    if Overlapping(pre) {
      var a, b, vpn: nat :| 0 <= a < b < |pre| && Touches(pre[a], vpn) && Touches(pre[b], vpn);
      assert Touches(more[a], vpn) && Touches(more[b], vpn);
    }
    if Hits(SegmentPages(pre), lo, hi) {
      var vpn: nat :| lo <= vpn < hi && vpn in SegmentPages(pre);
      SegmentPagesCover(pre, vpn);
      var a :| 0 <= a < |pre| && Touches(pre[a], vpn);
      assert Touches(more[a], vpn) && Touches(more[n], vpn);
    }
  }

  /** The segments of a program that fits below the trap frame and can be mapped. */
  predicate Loadable(segs: seq<Segment>)
  {
    forall a :: 0 <= a < |segs| ==> IsLeaf(Permissions(segs[a])) && PageUp(segs[a].end) + USER_STACK_PAGES < TRAPFRAME
  }

  /** The loop of `load_process` over program headers. False is a panic. */
  method MapSegments(u: UserMemory, ghost id: nat, s: Space, segs: seq<Segment>, file: Block,
                     ghost t0: Snap, ghost kbase: map<nat, Run>, ghost trampoline: nat)
    returns (ok: bool, top: nat)
    requires LoadingNow(u, t0, s, id, map[], map[], false, kbase, trampoline) && Loadable(segs)
    modifies u`m, u`own, u`kown, u.alloc`use, u.alloc`kframe, u.alloc.space, u.alloc.dma, u.alloc.kva
    ensures !ok ==> u.alloc.space.Exhausted()
    ensures ok ==>
      && top == TopPage(segs)
      && LoadingNow(u, t0, s, id, SegmentPages(segs), SegmentTexts(segs, file), Overlapping(segs), kbase, trampoline)
  {
    hide LoadingNow, Hits, Overlapping, SegmentPages, TopPage, SegmentTexts, Painted;
    top := 0;
    NoSegments(segs, file);
    for n := 0 to |segs|
      invariant top == TopPage(segs[..n])
      invariant LoadingNow(u, t0, s, id, SegmentPages(segs[..n]), SegmentTexts(segs[..n], file),
        Overlapping(segs[..n]), kbase, trampoline)
    {
      var seg := segs[n];
      SegmentStep(segs, n, file);
      if PageUp(seg.end) > top { top := PageUp(seg.end); }
      ok := MapRange(u, id, s, seg.start / PAGESIZE, PageUp(seg.end), Permissions(seg), FillOf(seg, file), t0,
        SegmentPages(segs[..n]), SegmentTexts(segs[..n], file), Overlapping(segs[..n]), kbase, trampoline);
      if !ok { return; }
    }
    assert segs[..|segs|] == segs;
    ok := true;
  }

  lemma NoSegments(segs: seq<Segment>, file: Block)
    ensures SegmentTexts(segs[..0], file) == map[]
    ensures SegmentPages(segs[..0]) == map[] && TopPage(segs[..0]) == 0 && !Overlapping(segs[..0])
  {
  }

  /** The user stack and the trap frame lie above every segment. */
  lemma AboveSegments(segs: seq<Segment>)
    requires Loadable(segs)
    ensures var bottom := TopPage(segs) + 1;
            && bottom + USER_STACK_PAGES <= TRAPFRAME
            && !Hits(SegmentPages(segs), bottom, bottom + USER_STACK_PAGES)
            && TRAPFRAME !in SegmentPages(segs) + Range(bottom, bottom + USER_STACK_PAGES, URW)
  {
    var bottom := TopPage(segs) + 1;
    forall vpn: nat | vpn >= bottom ensures vpn !in SegmentPages(segs) { SegmentPagesCover(segs, vpn); }
  }

  /** `kbase` is `klive` and, for a program of `size` bytes, the buffer it is read into. */
  ghost predicate WithBuffer(kbase: map<nat, Run>, klive: map<nat, Run>, buf: nat, size: nat)
  {
    if size == 0 then kbase == klive
    else buf !in klive && buf in kbase && kbase[buf].size == PageUp(size) && kbase == klive[buf := kbase[buf]]
  }

  lemma EmptyMaps(t: Snap, t': Snap, s: Space)
    requires AllEmpty(t.m, s, 0, PAGES) && ViewKeptExcept(t'.m, t.m, s, TRAMPOLINE)
    ensures Maps(t'.m, t'.frame, s, map[])
  {
    hide Walk, Walkupt;
    forall vpn: nat | vpn < PAGES && vpn != TRAMPOLINE ensures Empty(t'.m, s, vpn) { assert Empty(t.m, s, vpn); }
  }

  lemma RestBuffer(klive: map<nat, Run>, klive': map<nat, Run>, kown: map<nat, Owner>, id: nat, a: nat)
    requires a !in klive && a !in kown && a in klive' && klive' == klive[a := klive'[a]]
    ensures LiveWithout(klive', kown, id) == LiveWithout(klive, kown, id)[a := klive'[a]]
  {
  }

  /** An empty space with the trampoline mapped is where loading starts. */
  lemma LoadingStart(t0: Snap, t1: Snap, t2: Snap, spaces: map<nat, Space>, s: Space, id: nat, trampoline: nat)
    requires Sound(t0, spaces) && !Alive(spaces, id)
    requires Progress(t1, t0, id) && Progress(t2, t1, id) && AllEmpty(t1.m, s, 0, PAGES)
    requires ViewKeptExcept(t2.m, t1.m, s, TRAMPOLINE) && HasTrampoline(t2.m, s, trampoline)
    ensures Loading(t2, t0, s, id, map[], map[], false, t0.klive, trampoline)
  {
    hide Walk, Walkupt, Sound, OnlySpace, Extended, Gained, AllEmpty, ViewKeptExcept;
    ProgressTrans(t0, t1, t2, id);
    NoneYet(t0, spaces, id);
    NewLive(t2.own, t0.own, t2.live, t0.live, id);
    NewLive(t2.kown, t0.kown, t2.klive, t0.klive, id);
    EmptyMaps(t1, t2, s);
  }

  lemma EmptyAt(m: UserMem, s: Space, vpn: nat)
    requires AllEmpty(m, s, 0, PAGES) && vpn < PAGES
    ensures Walkupt(m, s, vpn) == 0
  {
    assert Empty(m, s, vpn);
  }

  /** The start of `load_process`: an empty space with the trampoline. None is a panic. */
  method StartSpace(u: UserMemory, ghost id: nat, trampoline: nat) returns (r: Option<Space>)
    requires u.Valid() && !Alive(u.spaces, id)
    modifies u`m, u`own, u`kown, u`spaces, u.alloc`use, u.alloc`kframe, u.alloc.space, u.alloc.dma, u.alloc.kva
    ensures r.None? ==> u.alloc.space.Exhausted()
    ensures r.Some? ==>
      && u.spaces == old(u.spaces)[id := r.value]
      && LoadingNow(u, old(Now(u)), r.value, id, map[], map[], false, old(u.alloc.kva.live), trampoline)
  {
    hide PageAllocator.Valid, Region.Valid, AllTrees, Backed, Contents, Walk, Walkupt, Sound, Loading;
    hide Progress, OnlySpace, Gained, Extended, ViewKeptExcept, AllEmpty;
    ghost var t0, spaces := Now(u), u.spaces;
    SoundNow(u);
    r := NewSpace(u, id);
    if r.None? { return; }
    ghost var t1 := Now(u);
    SoundNow(u);
    assert Alive(u.spaces, id);
    BareEmpty(t1, u.spaces, id);
    EmptyAt(t1.m, r.value, TRAMPOLINE);
    ghost var grown;
    var ok;
    ok, grown := u.Uptmap(id, r.value, 0, TRAMPOLINE, trampoline, RX);
    if !ok { return None; }
    MapProgress(t1, Now(u), id, grown);
    LoadingStart(t0, t1, Now(u), spaces, r.value, id, trampoline);
  }

  lemma LoadingBuffer(t: Snap, t': Snap, t0: Snap, s: Space, id: nat, want: map<nat, Flags>, text: map<nat, Block>,
                      leak: bool, kbase: map<nat, Run>, trampoline: nat, a: nat)
    requires Loading(t, t0, s, id, want, text, leak, kbase, trampoline)
    requires a !in t.klive && a !in t.kown && a in t'.klive && t' == t.(klive := t.klive[a := t'.klive[a]])
    ensures a !in kbase && Loading(t', t0, s, id, want, text, leak, kbase[a := t'.klive[a]], trampoline)
  {
    hide Walk, Walkupt, OnlySpace, Extended, Maps, Kept;
    RestBuffer(t.klive, t'.klive, t.kown, id, a);
  }

  /** `kalloc` of the buffer the program is read into; it is never freed. False is a panic. */
  method ReadBuffer(u: UserMemory, ghost id: nat, s: Space, size: nat,
                    ghost t0: Snap, ghost klive: map<nat, Run>, ghost trampoline: nat)
    returns (ok: bool, ghost buf: nat, ghost kbase: map<nat, Run>)
    requires LoadingNow(u, t0, s, id, map[], map[], false, klive, trampoline)
    modifies u.alloc`use, u.alloc`kframe, u.alloc.space, u.alloc.kva
    ensures !ok ==> u.alloc.space.Exhausted()
    ensures ok ==>
      && WithBuffer(kbase, klive, buf, size)
      && LoadingNow(u, t0, s, id, map[], map[], false, kbase, trampoline)
  {
    hide PageAllocator.Valid, Region.Valid, AllTrees, Contents, Loading;
    ok, buf, kbase := true, 0, klive;
    if size > 0 {
      ghost var t := Now(u);
      var a := u.NewArray(size);
      if a.None? { return false, 0, klive; }
      LoadingBuffer(t, Now(u), t0, s, id, map[], map[], false, klive, trampoline, a.value);
      buf, kbase := a.value, klive[a.value := u.alloc.kva.live[a.value]];
    }
  }

  /** The loaded space is one a process may have. */
  lemma LoadedView(t: Snap, t0: Snap, s: Space, id: nat, want: map<nat, Flags>, text: map<nat, Block>, leak: bool,
                   kbase: map<nat, Run>, trampoline: nat)
    requires Loading(t, t0, s, id, want, text, leak, kbase, trampoline) && TRAPFRAME in want
    ensures UserView(t.m, s, trampoline)
  {
    hide Walk, Walkupt, OnlySpace, Extended, Kept, LiveWithout;
  }

  lemma FrameLaidOut(segs: seq<Segment>)
    ensures TRAPFRAME in Layout(segs)
  {
  }

  /** The loaded space of `t3` and a kernel stack make a process. */
  lemma LoadDone(procs: seq<Proc>, used: set<nat>, spaces: map<nat, Space>, guards: map<nat, nat>, trampoline: nat,
                 t0: Snap, t3: Snap, t4: Snap, i: nat, p: Proc, want: map<nat, Flags>, text: map<nat, Block>,
                 leak: bool, kbase: map<nat, Run>, buf: nat, size: nat)
    requires Slots(procs, used, t0, spaces, guards, trampoline) && Sound(t0, spaces) && !InUse(used, i) && i < NUM_PROCS
    requires Loading(t3, t0, p.space, i, want, text, leak, kbase, trampoline) && TRAPFRAME in want
    requires WithBuffer(kbase, t0.klive, buf, size) && p.stackVpn !in t3.kown
    requires p.stackVpn !in t3.klive && p.stackVpn in t4.klive && t4.klive[p.stackVpn].size == STACK_PAGES
    requires t4 == t3.(klive := t3.klive[p.stackVpn := t4.klive[p.stackVpn]])
    ensures Slots(procs[i := p], used + {i}, t4, spaces[i := p.space], guards[p.stackVpn := p.stackPfn], trampoline)
    ensures Maps(t4.m, t4.frame, p.space, want) && UserView(t4.m, p.space, trampoline)
    ensures Filled(t4.m, t4.frame, p.space, text)
    ensures leak <==> LiveWithout(t4.live, t4.own, i) != t0.live
    ensures p.stackVpn !in kbase && LiveWithout(t4.klive, t4.kown, i) == kbase[p.stackVpn := t4.klive[p.stackVpn]]
    ensures Isolated(procs[i := p], used, i, t4, t0)
  {
    hide Walk, Walkupt, UserView, Sound, OnlySpace, Extended, Maps, HasTrampoline, Filled;
    LoadingBuffer(t3, t4, t0, p.space, i, want, text, leak, kbase, trampoline, p.stackVpn);
    LoadedView(t3, t0, p.space, i, want, text, leak, kbase, trampoline);
    assert leak <==> LiveWithout(t4.live, t4.own, i) != t0.live by {
      KeptSame(LiveWithout(t4.live, t4.own, i), t0.live, leak);
    }
    assert forall a :: a in t0.klive ==> a in kbase && kbase[a] == t0.klive[a];
    assert forall a :: a in kbase ==> a in LiveWithout(t4.klive, t4.kown, i) && t4.klive[a] == kbase[a];
    SlotsAdd(procs, used, t0, t4, spaces, guards, trampoline, i, p);
    OthersSame(procs, used, t0, t4, spaces, guards, trampoline, i, t0.live);
  }

  lemma KeptSame(rest: map<nat, Run>, live: map<nat, Run>, leak: bool)
    requires Kept(rest, live, leak)
    ensures leak <==> rest != live
  {
    if !leak { assert rest.Keys == live.Keys; }
  }

  /** The address space of a loaded program. None is a panic. */
  method LoadSpace(u: UserMemory, ghost id: nat, trampoline: nat, segs: seq<Segment>, file: Block)
    returns (r: Option<Space>, ghost buf: nat, ghost kbase: map<nat, Run>)
    requires u.Valid() && !Alive(u.spaces, id) && Loadable(segs)
    modifies u`m, u`own, u`kown, u`spaces, u.alloc`use, u.alloc`kframe, u.alloc.space, u.alloc.dma, u.alloc.kva
    ensures r.None? ==> u.alloc.space.Exhausted()
    ensures r.Some? ==>
      && u.spaces == old(u.spaces)[id := r.value]
      && WithBuffer(kbase, old(u.alloc.kva.live), buf, |file|)
      && LoadingNow(u, old(Now(u)), r.value, id, Layout(segs), ProgramTexts(segs, file), Overlapping(segs), kbase,
                    trampoline)
  {
    hide PageAllocator.Valid, Region.Valid, Region.Frames, AllTrees, Backed, Contents, LoadingNow, WithBuffer;
    hide Overlapping, SegmentPages, Loadable, TopPage, Hits, SegmentTexts, Painted, Put;
    ghost var t0, want, text := Now(u), SegmentPages(segs), SegmentTexts(segs, file);
    var ok, top;
    buf, kbase := 0, map[];
    r := StartSpace(u, id, trampoline);
    if r.None? { return; }
    assert Alive(u.spaces, id);
    ok, buf, kbase := ReadBuffer(u, id, r.value, |file|, t0, t0.klive, trampoline);
    if !ok { r := None; return; }
    ok, top := MapSegments(u, id, r.value, segs, file, t0, kbase, trampoline);
    if !ok { r := None; return; }
    AboveSegments(segs);
    var bottom := top + 1;
    ok := MapRange(u, id, r.value, bottom, bottom + USER_STACK_PAGES, URW, Untouched, t0, want, text,
      Overlapping(segs), kbase, trampoline);
    if !ok { r := None; return; }
    want := want + Range(bottom, bottom + USER_STACK_PAGES, URW);
    text := Painted(text, bottom, bottom + USER_STACK_PAGES, Untouched);
    ok := MapNew(u, id, r.value, TRAPFRAME, RW, None, t0, want, text, Overlapping(segs), kbase, trampoline);
    if !ok { r := None; return; }
  }

  lemma {:induction false} LastFills(segs: seq<Segment>, file: Block, a: nat, vpn: nat)
    requires TouchesLast(segs, a, vpn)
    ensures var text := SegmentTexts(segs, file);
            vpn in text && text[vpn] == PageOf(file, segs[a].offset - segs[a].start + vpn * PAGESIZE)
  {
    var n := |segs| - 1;
    var seg, before := segs[n], SegmentTexts(segs[..n], file);
    PaintedAt(before, seg.start / PAGESIZE, PageUp(seg.end), FillOf(seg, file), vpn);
    if a < n {
      assert !Touches(segs[n], vpn) && segs[..n][a] == segs[a];
      LastFills(segs[..n], file, a, vpn);
    }
  }

  /** Stack and trap frame leave the contents of the segments alone. */
  lemma TextsStay(segs: seq<Segment>, file: Block, a: nat, vpn: nat)
    requires Loadable(segs) && TouchesLast(segs, a, vpn)
    ensures var text := ProgramTexts(segs, file);
            vpn in text && text[vpn] == PageOf(file, segs[a].offset - segs[a].start + vpn * PAGESIZE)
  {
    hide SegmentTexts, Painted;
    var bottom := TopPage(segs) + 1;
    LastFills(segs, file, a, vpn);
    PaintedAt(SegmentTexts(segs, file), bottom, bottom + USER_STACK_PAGES, Untouched, vpn);
    assert PageUp(segs[a].end) <= TopPage(segs);
    assert vpn < PageUp(segs[a].end) < TRAPFRAME;
  }

  /** An address in a page with known contents reads them. */
  lemma ImageByte(m: UserMem, frame: map<nat, nat>, s: Space, segs: seq<Segment>, file: Block, a: nat, x: nat)
    requires Loadable(segs) && Maps(m, frame, s, Layout(segs)) && Filled(m, frame, s, ProgramTexts(segs, file))
    requires TouchesLast(segs, a, x / PAGESIZE) && 0 <= segs[a].offset + x - segs[a].start < |file|
    ensures UserBytes.Peek(m, s, x) == file[segs[a].offset + x - segs[a].start]
  {
    hide Walk, Walkupt, SegmentPages, TopPage, ProgramTexts, UserBytes.PageBytes;
    var vpn := x / PAGESIZE;
    AboveSegments(segs);
    LastCounts(segs, a, vpn);
    TextsStay(segs, file, a, vpn);
    assert vpn * PAGESIZE + x % PAGESIZE == x;
  }

  lemma ImageOf(m: UserMem, frame: map<nat, nat>, s: Space, segs: seq<Segment>, file: Block, trampoline: nat)
    requires Loadable(segs) && Maps(m, frame, s, Layout(segs)) && UserView(m, s, trampoline)
    requires Filled(m, frame, s, ProgramTexts(segs, file))
    ensures ProgramImage(m, s, segs, file, trampoline)
  {
    hide Walk, Walkupt, SegmentPages, TopPage, ProgramTexts, Filled, UserBytes.Peek;
    var top := TopPage(segs);
    AboveSegments(segs);
    forall vpn: nat, a: nat | TouchesLast(segs, a, vpn) ensures HasFlags(m, s, vpn, Permissions(segs[a])) {
      LastCounts(segs, a, vpn);
    }
    forall a: nat, x: nat | TouchesLast(segs, a, x / PAGESIZE) && 0 <= segs[a].offset + x - segs[a].start < |file|
      ensures UserBytes.Peek(m, s, x) == file[segs[a].offset + x - segs[a].start]
    {
      ImageByte(m, frame, s, segs, file, a, x);
    }
    forall vpn: nat | vpn < 0x7ff_fffe && Walk(m.tables, s.pfn, vpn).Some?
      ensures top < vpn <= top + 256 || exists a: nat :: TouchesLast(segs, a, vpn)
    {
      if vpn in SegmentPages(segs) {
        SegmentPagesCover(segs, vpn);
        var a := SomeLast(segs, vpn);
      }
    }
  }

  /** `load_process` for a slot without memory. False is a panic. Every page it allocates is
      owned by the slot exactly if no two segments share a page; the buffer stays allocated. */
  method Load(ps: Processes, i: nat, segs: seq<Segment>, file: Block)
    returns (ok: bool, ghost buf: nat, ghost kbase: map<nat, Run>)
    requires ps.Valid() && !InUse(ps.used, i) && i < NUM_PROCS && Loadable(segs)
    modifies ps`procs, ps`used, ps.u`m, ps.u`own, ps.u`kown, ps.u`spaces
    modifies ps.u.alloc`use, ps.u.alloc`kframe, ps.u.alloc`guards, ps.u.alloc.space, ps.u.alloc.dma, ps.u.alloc.kva
    ensures !ok ==> ps.u.alloc.space.Exhausted()
    ensures ok ==>
      && ps.Valid() && ps.used == old(ps.used) + {i} && ps.procs == old(ps.procs)[i := ps.procs[i]]
      && Maps(ps.u.m, ps.u.Frames(), ps.procs[i].space, Layout(segs))
      && Filled(ps.u.m, ps.u.Frames(), ps.procs[i].space, ProgramTexts(segs, file))
      && ProgramImage(ps.u.m, ps.procs[i].space, segs, file, ps.trampoline)
      && (LiveWithout(ps.u.alloc.dma.live, ps.u.own, i) == old(ps.u.alloc.dma.live) <==> !Overlapping(segs))
      && WithBuffer(kbase, old(ps.u.alloc.kva.live), buf, |file|)
      && LiveWithout(ps.u.alloc.kva.live, ps.u.kown, i) - {ps.procs[i].stackVpn} == kbase
      && Isolated(ps.procs, old(ps.used), i, Now(ps.u), old(Now(ps.u)))
  {
    hide PageAllocator.Valid, Region.Valid, Region.Frames, AllTrees, Contents, Sound, UserView, Loading, Maps;
    hide WithBuffer;
    hide Overlapping, SegmentPages, Loadable, SameMemory, LiveWithout, OnlySpace, Extended, Backed, Walk, Walkupt;
    hide BytesKept, Layout, ProgramImage, Filled, ProgramTexts, Isolated;
    var u := ps.u;
    ghost var t0, spaces, guards := Now(u), u.spaces, u.alloc.guards;
    SoundNow(u);
    assert !Alive(u.spaces, i);
    var s;
    s, buf, kbase := LoadSpace(u, i, ps.trampoline, segs, file);
    if s.None? { ok := false; return; }
    ghost var t3 := Now(u);
    var k := NewStack(u);
    if k.None? { ok := false; return; }
    var p := Proc(s.value, k.value.0, k.value.1);
    FrameLaidOut(segs);
    LoadDone(ps.procs, ps.used, spaces, guards, ps.trampoline, t0, t3, Now(u), i, p, Layout(segs),
      ProgramTexts(segs, file), Overlapping(segs), kbase, buf, |file|);
    ImageOf(u.m, u.Frames(), p.space, segs, file, ps.trampoline);
    ps.procs := ps.procs[i := p];
    ps.used := ps.used + {i};
    ok := true;
  }

  /** The memory part of `sys_execve`: the old space of slot `i` is given back and the program
      loaded. Of the pages live before, exactly those the slot did not own stay; if no two
      segments share a page, every other live page is owned by the slot. False is a panic. */
  method Exec(ps: Processes, i: nat, segs: seq<Segment>, file: Block)
    returns (ok: bool, ghost buf: nat, ghost kbase: map<nat, Run>)
    requires ps.Valid() && InUse(ps.used, i) && Loadable(segs)
    modifies ps`procs, ps`used, ps.u`m, ps.u`own, ps.u`kown, ps.u`spaces
    modifies ps.u.alloc`use, ps.u.alloc`kframe, ps.u.alloc`guards, ps.u.alloc.space, ps.u.alloc.dma, ps.u.alloc.kva
    ensures !ok ==> ps.u.alloc.space.Exhausted()
    ensures ok ==> ps.Valid() && ps.used == old(ps.used) && ps.procs == old(ps.procs)[i := ps.procs[i]]
    ensures ok ==> Maps(ps.u.m, ps.u.Frames(), ps.procs[i].space, Layout(segs))
    ensures ok ==> Filled(ps.u.m, ps.u.Frames(), ps.procs[i].space, ProgramTexts(segs, file))
    ensures ok ==> ProgramImage(ps.u.m, ps.procs[i].space, segs, file, ps.trampoline)
    ensures ok ==>
      (!Overlapping(segs) <==>
       LiveWithout(ps.u.alloc.dma.live, ps.u.own, i) == LiveWithout(old(ps.u.alloc.dma.live), old(ps.u.own), i))
    ensures ok ==>
      && WithBuffer(kbase, LiveWithout(old(ps.u.alloc.kva.live), old(ps.u.kown), i) - {old(ps.procs[i].stackVpn)}, buf,
        |file|)
      && LiveWithout(ps.u.alloc.kva.live, ps.u.kown, i) - {ps.procs[i].stackVpn} == kbase
    ensures ok ==> Isolated(ps.procs, ps.used, i, Now(ps.u), old(Now(ps.u)))
  {
    hide PageAllocator.Valid, Region.Valid, AllTrees, Backed, Contents, Slots, Maps, WithBuffer, Overlapping, Layout;
    hide LiveWithout;
    hide Region.Frames, OnlySpace, BytesKept, Isolated, ProgramImage, Filled;
    SlotBound(ps, i);
    buf, kbase := 0, map[];
    ghost var t0, procs, used := Now(ps.u), ps.procs, ps.used;
    ps.Free(i);
    ghost var t1 := Now(ps.u);
    ok, buf, kbase := Load(ps, i, segs, file);
    if ok { IsolatedTwice(procs, ps.procs, used, i, t0, t1, Now(ps.u)); }
  }

  lemma IsolatedTwice(procs: seq<Proc>, procs': seq<Proc>, used: set<nat>, i: nat, t0: Snap, t1: Snap, t2: Snap)
    requires i < |procs| && |procs'| == |procs| && procs' == procs[i := procs'[i]]
    requires Isolated(procs, used, i, t1, t0) && Isolated(procs', used - {i}, i, t2, t1)
    ensures Isolated(procs', used, i, t2, t0)
  {
    hide SameMemory;
    forall j: nat {:trigger InUse(used, j)} | InUse(used, j) && j != i
      ensures j < |procs'| && SameMemory(t2, t0, procs'[j].space) {
      assert InUse(used - {i}, j);
      SameMemoryTrans(t0, t1, t2, procs[j].space);
    }
  }

  /** Behind the `filesz` bytes a segment has in the file an ELF loader puts zeros. `load_process`
      goes on copying: such an address reads zero exactly if the byte of the file that follows there
      is zero. */
  lemma BeyondFileSize(m: UserMem, s: Space, segs: seq<Segment>, file: Block, trampoline: nat, a: nat, x: nat,
                       filesz: nat)
    requires ProgramImage(m, s, segs, file, trampoline) && TouchesLast(segs, a, x / PAGESIZE)
    requires segs[a].start + filesz <= x < segs[a].end && segs[a].offset + x - segs[a].start < |file|
    ensures UserBytes.Peek(m, s, x) == 0 <==> file[segs[a].offset + x - segs[a].start] == 0
  {
    hide Walk, UserBytes.Peek;
    assert segs[a] == segs[a];
  }

  /** One segment of 16 bytes, of which the file has 4, in a file of 32 bytes, all 1: the ninth byte
      of the segment reads 1. */
  lemma NotZeroed(m: UserMem, s: Space, segs: seq<Segment>, file: Block, trampoline: nat)
    requires segs == [Segment(0x10000, 0x10010, 0, true, true, false)] && file == seq(32, _ => 1)
    requires ProgramImage(m, s, segs, file, trampoline)
    ensures UserBytes.Peek(m, s, 0x10008) == 1
  {
    hide Walk, UserBytes.Peek;
    assert Touches(segs[0], 0x10) && TouchesLast(segs, 0, 0x10);
    BeyondFileSize(m, s, segs, file, trampoline, 0, 0x10008, 4);
  }

  /** A program whose segments share a page, loaded: what was live before is not all that is live
      apart from the memory of the slot. A page is lost. */
  method SharedPageLeaks(ps: Processes, i: nat, file: Block) returns (ok: bool)
    requires ps.Valid() && !InUse(ps.used, i) && i < NUM_PROCS
    modifies ps`procs, ps`used, ps.u`m, ps.u`own, ps.u`kown, ps.u`spaces
    modifies ps.u.alloc`use, ps.u.alloc`kframe, ps.u.alloc`guards, ps.u.alloc.space, ps.u.alloc.dma, ps.u.alloc.kva
    ensures !ok ==> ps.u.alloc.space.Exhausted()
    ensures ok ==> ps.Valid() && LiveWithout(ps.u.alloc.dma.live, ps.u.own, i) != old(ps.u.alloc.dma.live)
  {
    hide Processes.Valid, Region.Frames, UserMemory.Frames, LiveWithout, Overlapping, Maps, Isolated, Filled;
    hide ProgramImage;
    SharedPage();
    ghost var buf, kbase;
    var text, data := Segment(0x10000, 0x10800, 0, true, false, true), Segment(0x10800, 0x12000, 0x800, true, true, false);
    ok, buf, kbase := Load(ps, i, [text, data], file);
  }

  lemma SlotBound(ps: Processes, i: nat)
    requires ps.Valid() && InUse(ps.used, i)
    ensures i < NUM_PROCS && |ps.procs| == NUM_PROCS
  {
  }
}
