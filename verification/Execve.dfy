/**
 * `sys_execve` (kernel/exec.c) from the arguments in the old address space to the arguments on
 * the stack of the new one.
 */
module Execve {
  import opened Limits
  import opened Paging
  import opened PageRuns
  import opened Allocator
  import opened UserTable
  import opened AddressSpaces
  import opened SpaceCopy
  import opened SpaceFree
  import opened ProcessSpaces
  import opened ProgramLoad
  import opened UserBytes
  import opened ExecStack

  /** Where `load_process` puts the stack pointer. */
  function StackTop(segs: seq<Segment>): nat {
    (TopPage(segs) + 1 + USER_STACK_PAGES) * PAGESIZE
  }

  /** No two pages of a process share a frame. */
  lemma SpaceOneToOne(ps: Processes, i: nat)
    requires ps.Valid() && InUse(ps.used, i)
    ensures OneToOne(ps.u.m, ps.procs[i].space)
  {
    hide Walk, Slots, UserMemory.Valid;
    SlotBound(ps, i);
    var m, s := ps.u.m, ps.procs[i].space;
    forall v: nat, w: nat | v < PAGES && w < PAGES && SameFrame(m, s, v, w) ensures v == w {
      ps.UserFramesApart(i, i, v, w);
    }
  }

  /** The kernel has every page of the stack. */
  lemma StackSeen(ps: Processes, i: nat, segs: seq<Segment>, vpn: nat)
    requires ps.Valid() && InUse(ps.used, i) && Loadable(segs)
    requires Maps(ps.u.m, ps.u.Frames(), ps.procs[i].space, Layout(segs))
    requires TopPage(segs) < vpn <= TopPage(segs) + USER_STACK_PAGES
    ensures Seen(ps.u.m, ps.u.Frames(), ps.procs[i].space, vpn) && StackTop(segs) < TOP
  {
    hide Walk, Walkupt, Slots, PageAllocator.Valid, AllTrees, Contents, SegmentPages;
    TopBelow(segs);
    assert vpn in Layout(segs);
    ps.UserFrame(i, vpn);
  }

  lemma TopBelow(segs: seq<Segment>)
    requires Loadable(segs)
    ensures TopPage(segs) + 1 + USER_STACK_PAGES <= TRAPFRAME
  {
  }

  /** Which bytes pages hold is no concern of the process table. */
  lemma SlotsBytes(procs: seq<Proc>, used: set<nat>, t: Snap, t': Snap, spaces: map<nat, Space>, guards: map<nat, nat>,
                   trampoline: nat)
    requires Slots(procs, used, t, spaces, guards, trampoline) && t' == t.(m := t.m.(bytes := t'.m.bytes))
    ensures Slots(procs, used, t', spaces, guards, trampoline)
  {
    hide Walk;
    forall i: nat | InUse(used, i) ensures i < NUM_PROCS && SlotOk(procs[i], i, t', spaces, guards, trampoline) {
      var s := procs[i].space;
      assert forall vpn: nat :: Walkupt(t'.m, s, vpn) == Walkupt(t.m, s, vpn);
    }
  }

  /** The bytes at the top of the stack are in pages the kernel has. */
  lemma StackSpans(ps: Processes, i: nat, segs: seq<Segment>, n: nat)
    requires ps.Valid() && InUse(ps.used, i) && Loadable(segs) && n <= USER_STACK_PAGES * PAGESIZE
    requires Maps(ps.u.m, ps.u.Frames(), ps.procs[i].space, Layout(segs))
    ensures n <= StackTop(segs) <= TOP && Aligned(StackTop(segs), 16)
    ensures Spans(ps.u.m, ps.u.Frames(), ps.procs[i].space, StackTop(segs) - n, n)
  {
    hide Seen, Maps, Loadable, Slots, PageAllocator.Valid, AllTrees, Backed, Contents, StackTop, Aligned, TopPage;
    hide PageUp;
    SlotBound(ps, i);
    TopBelow(segs);
    StackRange(segs, n);
    var a := StackTop(segs) - n;
    forall vpn: nat | a / PAGESIZE <= vpn < PageUp(a + n) ensures Seen(ps.u.m, ps.u.Frames(), ps.procs[i].space, vpn) {
      StackPage(segs, n, vpn);
      StackSeen(ps, i, segs, vpn);
    }
  }

  lemma StackRange(segs: seq<Segment>, n: nat)
    requires TopPage(segs) + 1 + USER_STACK_PAGES <= TRAPFRAME && n <= USER_STACK_PAGES * PAGESIZE
    ensures n <= StackTop(segs) <= TOP && Aligned(StackTop(segs), 16)
  {
    hide TopPage;
    StackEnd(TopPage(segs), n);
  }

  /** Where the stack of 0x100000 bytes ends that starts one page above page `top`. */
  lemma StackEnd(top: nat, n: nat)
    requires n <= 0x10_0000
    ensures var end := (top + 1) * 4096 + 0x10_0000;
            end == (top + 257) * 4096 && n <= end && end % 16 == 0 && (top + 257 <= PAGES ==> end <= PAGES * 4096)
  {
    assert (top + 257) * 4096 == 16 * ((top + 257) * 256);
  }

  /** The initial stack pointer lies 0x100000 bytes above the page that follows the guard page. */
  lemma StackTopIs(segs: seq<Segment>)
    ensures StackTop(segs) == (TopPage(segs) + 1) * 4096 + 0x10_0000
  {
    hide TopPage;
  }

  lemma StackPage(segs: seq<Segment>, n: nat, vpn: nat)
    requires n <= USER_STACK_PAGES * PAGESIZE && n <= StackTop(segs)
    requires (StackTop(segs) - n) / PAGESIZE <= vpn < PageUp(StackTop(segs))
    ensures TopPage(segs) < vpn <= TopPage(segs) + USER_STACK_PAGES
  {
    hide TopPage;
  }

  /** How `sys_execve` ends once the program is found: with the arguments in place, with a panic, with
      a copy that goes past its kernel buffer, or with arguments that go past the new stack. */
  datatype Ending = Done | Panic | Overrun | Spill

  /** The path, the two arrays of pointers and all their strings fit the kernel buffers. */
  predicate AllBuffered(path: Block, argv: seq<Block>, envp: seq<Block>) {
    |path| + 1 <= BUFFER && Buffered(argv) && Buffered(envp)
  }

  /** What the process finds on its new stack: arguments and environment, pointers and strings. */
  ghost predicate OnStack(m: UserMem, frame: map<nat, nat>, s: Space, argv: seq<Block>, envp: seq<Block>, top: nat,
                          x11: nat, x12: nat) {
    var tab := x12 + WORD * (|envp| + 1);
    && x12 == x11 + WORD * (|argv| + 1) && tab + Size(argv) + Size(envp) <= top
    && Laid(m, frame, s, argv, x11, tab) && Laid(m, frame, s, envp, x12, tab + Size(argv))
  }

  /** The copies of the path, of the arguments and of the environment to the kernel. */
  method FetchAll(u: UserMemory, s: Space, pathAt: nat, argvAt: nat, envpAt: nat,
                  ghost path: Block, ghost argv: seq<Block>, ghost envp: seq<Block>)
    returns (fits: bool, kernelArgv: seq<Block>, kernelEnvp: seq<Block>)
    requires u.Valid() && Text(u.m, u.Frames(), s, pathAt, path)
    requires Strings(u.m, u.Frames(), s, argvAt, argv) && Strings(u.m, u.Frames(), s, envpAt, envp)
    ensures fits <==> AllBuffered(path, argv, envp)
    ensures fits ==> kernelArgv == argv && kernelEnvp == envp
  {
    hide PageAllocator.Valid, Region.Valid, Region.Frames, AllTrees, Backed, Contents, Strings, Reads, UpToZero;
    hide Buffered;
    kernelArgv, kernelEnvp := [], [];
    TextUpToZero(path);
    var kernelPath;
    fits, kernelPath := Fetch(u, s, pathAt, 1, path + [0]);
    if !fits { return; }
    fits, kernelArgv := FetchStrings(u, s, argvAt, argv);
    if !fits { return; }
    fits, kernelEnvp := FetchStrings(u, s, envpAt, envp);
  }

  /** The arguments go onto the stack of a process just loaded. */
  method PutArgs(ps: Processes, i: nat, segs: seq<Segment>, argv: seq<Block>, envp: seq<Block>)
    returns (x2: nat, x11: nat, x12: nat)
    requires ps.Valid() && InUse(ps.used, i) && Loadable(segs) && NoZeros(argv) && NoZeros(envp)
    requires Maps(ps.u.m, ps.u.Frames(), ps.procs[i].space, Layout(segs)) &&
      Total(argv, envp) <= USER_STACK_PAGES * PAGESIZE
    modifies ps.u`m
    ensures ps.Valid() && Isolated(ps.procs, ps.used, i, Now(ps.u), old(Now(ps.u)))
    ensures Maps(ps.u.m, ps.u.Frames(), ps.procs[i].space, Layout(segs))
    ensures x2 == x11 == StackTop(segs) - Total(argv, envp) && Aligned(x2, 16)
    ensures OnStack(ps.u.m, ps.u.Frames(), ps.procs[i].space, argv, envp, StackTop(segs), x11, x12)
    ensures x2 <= StackTop(segs)
    ensures Aside(ps.u.m, old(ps.u.m), ps.procs[i].space, StackTop(segs), 0, x2, StackTop(segs) - x2)
  {
    hide PageAllocator.Valid, Region.Valid, Region.Frames, AllTrees, Backed, Contents, Slots, Maps, Layout, LiveWithout;
    hide Strings, Total, Spans, OneToOne, Laid, Aligned, StackTop, Loadable, TopPage, NoZeros, Aside, OwnBytes;
    hide Isolated;
    var u := ps.u;
    SlotBound(ps, i);
    SpaceOneToOne(ps, i);
    StackSpans(ps, i, segs, Total(argv, envp));
    ghost var t, frame := Now(u), u.Frames();
    x2, x11, x12 := PushArgs(u, ps.procs[i].space, StackTop(segs), argv, envp);
    AsideTables(u.m, t.m, ps.procs[i].space, StackTop(segs), 0, x2, StackTop(segs) - x2);
    SlotsBytes(ps.procs, ps.used, t, Now(u), u.spaces, u.alloc.guards, ps.trampoline);
    MapsBytes(t.m, u.m, frame, ps.procs[i].space, Layout(segs));
    ArgsIsolated(ps, i, t);
  }

  /** `sys_execve`, the program being found: the arguments and the environment the process reads
      through its new page table are those it had in its old address space. A copy goes past its
      kernel buffer exactly if the path, an array of pointers or a string does not fit two pages;
      the arguments go past the stack exactly if they need more than its 256 pages. */
  method ExecveArgs(ps: Processes, i: nat, segs: seq<Segment>, file: Block, pathAt: nat, argvAt: nat, envpAt: nat,
                    ghost path: Block, ghost argv: seq<Block>, ghost envp: seq<Block>)
    returns (e: Ending, argc: nat, x2: nat, x11: nat, x12: nat)
    requires ps.Valid() && InUse(ps.used, i) && Loadable(segs)
    requires Text(ps.u.m, ps.u.Frames(), ps.procs[i].space, pathAt, path)
    requires Strings(ps.u.m, ps.u.Frames(), ps.procs[i].space, argvAt, argv)
    requires Strings(ps.u.m, ps.u.Frames(), ps.procs[i].space, envpAt, envp)
    modifies ps`procs, ps`used, ps.u`m, ps.u`own, ps.u`kown, ps.u`spaces
    modifies ps.u.alloc`use, ps.u.alloc`kframe, ps.u.alloc`guards, ps.u.alloc.space, ps.u.alloc.dma, ps.u.alloc.kva
    ensures e.Overrun? <==> !AllBuffered(path, argv, envp)
    ensures e.Panic? ==> ps.u.alloc.space.Exhausted()
    ensures e.Spill? <==> !e.Overrun? && !e.Panic? && Total(argv, envp) > USER_STACK_PAGES * PAGESIZE
    ensures e.Done? ==> ps.Valid() && ps.used == old(ps.used) && ps.procs == old(ps.procs)[i := ps.procs[i]]
    ensures e.Done? ==> Isolated(ps.procs, ps.used, i, Now(ps.u), old(Now(ps.u)))
    ensures e.Done? ==> Maps(ps.u.m, ps.u.Frames(), ps.procs[i].space, Layout(segs))
    ensures e.Done? ==> ProgramImage(ps.u.m, ps.procs[i].space, segs, file, ps.trampoline)
    ensures e.Done? ==> argc == |argv| && x2 == x11 == StackTop(segs) - Total(argv, envp) && Aligned(x2, 16)
    ensures e.Done? ==> OnStack(ps.u.m, ps.u.Frames(), ps.procs[i].space, argv, envp, StackTop(segs), x11, x12)
  {
    hide PageAllocator.Valid, Region.Valid, Region.Frames, AllTrees, Backed, Contents, Slots, Maps, WithBuffer;
    hide Overlapping, Layout;
    hide LiveWithout, Strings, Text, Total, Aligned, StackTop, Loadable, NoZeros, Isolated, OnStack, AllBuffered;
    hide ProgramImage, Aside, Filled;
    argc, x2, x11, x12 := 0, 0, 0, 0;
    SlotBound(ps, i);
    StringsNoZeros(ps.u.m, ps.u.Frames(), ps.procs[i].space, argvAt, argv);
    StringsNoZeros(ps.u.m, ps.u.Frames(), ps.procs[i].space, envpAt, envp);
    var fits, kernelArgv, kernelEnvp := FetchAll(ps.u, ps.procs[i].space, pathAt, argvAt, envpAt, path, argv, envp);
    if !fits { e := Overrun; return; }
    ghost var buf, kbase;
    var ok;
    ok, buf, kbase := ProgramLoad.Exec(ps, i, segs, file);
    if !ok { e := Panic; return; }
    if Total(kernelArgv, kernelEnvp) > USER_STACK_PAGES * PAGESIZE { e := Spill; return; }
    ghost var t := Now(ps.u);
    argc := |kernelArgv|;
    x2, x11, x12 := PutArgs(ps, i, segs, kernelArgv, kernelEnvp);
    IsolatedMore(ps.procs, ps.used, i, old(Now(ps.u)), t, Now(ps.u));
    ImageAside(t.m, ps.u.m, ps.procs[i].space, segs, file, ps.trampoline, x2);
    e := Done;
  }

  // ----- an argument that does not fit -----

  function Repeated(n: nat): (b: Block)
    ensures |b| == n && forall k: nat :: k < n ==> b[k] == 65
  {
    seq(n, _ => 65)
  }

  /** The last lengths that fit, and the first that do not; all of them are small beside the stack. */
  lemma BufferEdges(list: seq<Block>)
    requires |list| == 1024 && forall j: nat :: j < |list| ==> list[j] == [65]
    ensures Buffered([Repeated(8191)]) && !Buffered([Repeated(8192)])
    ensures Buffered(list[..1023]) && !Buffered(list)
    ensures Total([Repeated(8192)], [[47]]) <= USER_STACK_PAGES * PAGESIZE &&
      Total(list, []) <= USER_STACK_PAGES * PAGESIZE
    ensures Size([Repeated(8192)]) == 8193
  {
    ShortStrings(list, |list|);
    OffsetNext([Repeated(8192)], 0);
    OffsetNext([[47]], 0);
  }

  lemma {:induction false} ShortStrings(list: seq<Block>, j: nat)
    requires j <= |list| && forall k: nat :: k < |list| ==> |list[k]| == 1
    ensures Offset(list, j) == 2 * j
  {
    if j > 0 { ShortStrings(list, j - 1); }
  }

  /** A process with a string of 8192 characters on its stack passes it as an argument to
      `sys_execve`, with the path "/": the copy goes past the kernel buffer. */
  method LongArgument(ps: Processes, i: nat, segs: seq<Segment>, file: Block) returns (e: Ending)
    requires ps.Valid() && InUse(ps.used, i) && Loadable(segs)
    requires Maps(ps.u.m, ps.u.Frames(), ps.procs[i].space, Layout(segs))
    modifies ps`procs, ps`used, ps.u`m, ps.u`own, ps.u`kown, ps.u`spaces
    modifies ps.u.alloc`use, ps.u.alloc`kframe, ps.u.alloc`guards, ps.u.alloc.space, ps.u.alloc.dma, ps.u.alloc.kva
    ensures e == Overrun
  {
    hide PageAllocator.Valid, Region.Valid, Region.Frames, AllTrees, Backed, Contents, Slots, Maps, Layout, LiveWithout;
    hide Total, Aligned, StackTop, Loadable, Isolated, Buffered, Spans, Reads, Word, Offset;
    var argv, envp := [Repeated(8192)], [[47]];
    BufferEdges(seq(1024, _ => [65]));
    SlotBound(ps, i);
    var x2, x11, x12 := PutArgs(ps, i, segs, argv, envp);
    var at := x12 + WORD * 2 + 8193;
    FirstText(ps.u.m, ps.u.Frames(), ps.procs[i].space, envp, x12, at);
    var argc, y2, y11, y12;
    e, argc, y2, y11, y12 := ExecveArgs(ps, i, segs, file, at, x11, x12, envp[0], argv, envp);
  }

  lemma FirstText(m: UserMem, frame: map<nat, nat>, s: Space, list: seq<Block>, tsp: nat, tab: nat)
    requires Laid(m, frame, s, list, tsp, tab) && list != []
    ensures Text(m, frame, s, tab, list[0])
  {
    hide Word, Text;
    assert Word(m, s, tsp + WORD * 0) == tab + Offset(list, 0);
  }

  /** Writing into the pages of one process changes no other process. */
  lemma ArgsIsolated(ps: Processes, i: nat, t: Snap)
    requires ps.Valid() && InUse(ps.used, i) && Now(ps.u) == t.(m := ps.u.m)
    requires i < |ps.procs| && OwnBytes(ps.u.m, t.m, ps.procs[i].space)
    ensures Isolated(ps.procs, ps.used, i, Now(ps.u), t)
  {
    hide PageAllocator.Valid, Region.Valid, Region.Frames, AllTrees, Backed, Contents, Walk, Slots, OwnBytes, Bytes;
    forall j: nat {:trigger InUse(ps.used, j)} | InUse(ps.used, j) && j != i
      ensures j < |ps.procs| && SameMemory(Now(ps.u), t, ps.procs[j].space)
    {
      SlotBound(ps, j);
      forall vpn: nat | vpn < PAGES ensures SamePage(Now(ps.u), t, ps.procs[j].space, vpn) {
        PageIsolated(ps, i, j, t, vpn);
      }
    }
  }

  lemma PageIsolated(ps: Processes, i: nat, j: nat, t: Snap, vpn: nat)
    requires ps.Valid() && InUse(ps.used, i) && InUse(ps.used, j) && i != j && vpn < PAGES
    requires Now(ps.u) == t.(m := ps.u.m) && i < |ps.procs| && j < |ps.procs| &&
      OwnBytes(ps.u.m, t.m, ps.procs[i].space)
    ensures SamePage(Now(ps.u), t, ps.procs[j].space, vpn)
  {
    hide PageAllocator.Valid, Region.Valid, Region.Frames, AllTrees, Backed, Contents, Walk, UserView;
    var m, s, v := ps.u.m, ps.procs[i].space, Walkupt(ps.u.m, ps.procs[j].space, vpn);
    WalkuptSame(m, t.m, ps.procs[j].space, vpn);
    if v != 0 {
      NotTrampoline(ps, j, vpn);
      SoundNow(ps.u);
      assert Alive(ps.u.spaces, j);
      UserPage(Now(ps.u), ps.u.spaces, j, vpn);
      var f := ps.u.Frames()[v];
      if FrameIn(t.m, s, f) {
        var w: nat :| w < PAGES && Behind(t.m, s, w, f);
        ps.UserFramesApart(i, j, w, vpn);
        assert false;
      }
      assert FrameBytes(m, f) == FrameBytes(t.m, f);
    }
  }

  lemma NotTrampoline(ps: Processes, j: nat, vpn: nat)
    requires ps.Valid() && InUse(ps.used, j) && j < |ps.procs| && Walkupt(ps.u.m, ps.procs[j].space, vpn) != 0
    ensures vpn != TRAMPOLINE
  {
    hide UserMemory.Valid, Walkupt, Walk;
  }

  lemma IsolatedMore(procs: seq<Proc>, used: set<nat>, i: nat, t0: Snap, t1: Snap, t2: Snap)
    requires Isolated(procs, used, i, t1, t0) && Isolated(procs, used, i, t2, t1)
    ensures Isolated(procs, used, i, t2, t0)
  {
    hide SameMemory;
    forall j: nat {:trigger InUse(used, j)} | InUse(used, j) && j != i
      ensures j < |procs| && SameMemory(t2, t0, procs[j].space) {
      SameMemoryTrans(t0, t1, t2, procs[j].space);
    }
  }

  lemma StringsNoZeros(m: UserMem, frame: map<nat, nat>, s: Space, a: nat, list: seq<Block>)
    requires Strings(m, frame, s, a, list)
    ensures NoZeros(list)
  {
    hide Word, Reads, Spans;
    forall i: nat, t: nat | i < |list| && t < |list[i]| ensures list[i][t] != 0 {
      assert Text(m, frame, s, Word(m, s, a + WORD * i), list[i]);
    }
  }

  lemma AsideTables(m: UserMem, m0: UserMem, s: Space, tsp: nat, slots: nat, tab: nat, size: nat)
    requires Aside(m, m0, s, tsp, slots, tab, size)
    ensures OwnBytes(m, m0, s) && m == m0.(bytes := m.bytes)
  {
  }

  /** What goes onto the stack leaves the program as it was loaded. */
  lemma ImageAside(m0: UserMem, m: UserMem, s: Space, segs: seq<Segment>, file: Block, trampoline: nat, x2: nat)
    requires ProgramImage(m0, s, segs, file, trampoline) && Loadable(segs)
    requires x2 <= StackTop(segs) <= x2 + USER_STACK_PAGES * PAGESIZE
    requires Aside(m, m0, s, StackTop(segs), 0, x2, StackTop(segs) - x2)
    ensures ProgramImage(m, s, segs, file, trampoline)
  {
    hide Walk, Peek, TopPage;
    AsideTables(m, m0, s, StackTop(segs), 0, x2, StackTop(segs) - x2);
    forall vpn: nat, a: nat | TouchesLast(segs, a, vpn) ensures HasFlags(m, s, vpn, Permissions(segs[a])) {
      assert HasFlags(m0, s, vpn, Permissions(segs[a]));
    }
    forall vpn: nat | TopPage(segs) < vpn <= TopPage(segs) + 256 ensures HasFlags(m, s, vpn, URW) {
      assert HasFlags(m0, s, vpn, URW);
    }
    forall a: nat, x: nat | TouchesLast(segs, a, x / PAGESIZE) && 0 <= segs[a].offset + x - segs[a].start < |file|
      ensures Peek(m, s, x) == file[segs[a].offset + x - segs[a].start]
    {
      assert PageUp(segs[a].end) <= TopPage(segs) && segs[a] == segs[a];
      BelowStack(TopPage(segs), x2, x);
      assert Peek(m0, s, x) == file[segs[a].offset + x - segs[a].start];
    }
  }

  lemma BelowStack(top: nat, x2: nat, x: nat)
    requires (top + 1) * PAGESIZE <= x2 && x / PAGESIZE < top
    ensures x < x2
  {
  }

  lemma MapsBytes(m0: UserMem, m: UserMem, frame: map<nat, nat>, s: Space, want: map<nat, Flags>)
    requires Maps(m0, frame, s, want) && m == m0.(bytes := m.bytes)
    ensures Maps(m, frame, s, want)
  {
    hide Walk;
    assert forall vpn: nat :: Walkupt(m, s, vpn) == Walkupt(m0, s, vpn);
    forall vpn: nat | vpn < PAGES && vpn != TRAMPOLINE
      ensures if vpn in want then
          && Walkupt(m, s, vpn) != 0
          && Walk(m.tables, s.pfn, vpn) == Some(Leaf(FrameNat(frame, Walkupt(m, s, vpn)), want[vpn]))
        else SpaceCopy.Empty(m, s, vpn)
    {
      assert Walkupt(m, s, vpn) == Walkupt(m0, s, vpn);
    }
  }
}
