/**
 * The process system calls over the whole state: process table, address spaces and open files.
 *
 * A trap enters the kernel from the running process; a system call changes the state and either
 * returns to that process or schedules another one.
 */
module Kernel {
  import opened Limits
  import opened OpenFlags
  import opened Paging
  import opened ProcessTable
  import opened Descriptors
  import opened ProgramLoad
  import opened KernelSteps
  import ProcessSpaces
  import opened PageRuns
  import opened AddressSpaces
  import opened SpaceCopy
  import opened SpaceFree

  /** A slot without a process, or with one that has exited, has no open file. */
  ghost predicate FreeAreClosed(t: seq<Pcb>, fds: Fds) {
    |fds| == |t| && forall p: nat :: p < |t| && (t[p].status == Unused || t[p].status == Zombie) ==> AllClosed(fds, p)
  }

  lemma TableSize(t: seq<Pcb>, next: nat, lost: set<nat>)
    requires Sane(t, next, lost)
    ensures |t| == NUM_PROCS && forall i: nat :: i < |t| ==> t[i].status != Running && t[i].status != Terminated
  {
    forall i: nat | i < |t| ensures t[i].status != Running && t[i].status != Terminated {
      assert ProcessTable.SlotOk(t, next, i);
    }
  }

  lemma ParentApart(t: seq<Pcb>, next: nat, lost: set<nat>, c: nat)
    requires Sane(t, next, lost) && c < |t|
    ensures t[c].parent != Some(c)
  {
    assert ProcessTable.SlotOk(t, next, c);
  }

  /** A trap or a return does not change which slots are used. */
  lemma SameSlots(t: seq<Pcb>, t': seq<Pcb>, fds: Fds)
    requires |t'| == |t| && forall i: nat :: i < |t| ==> (t'[i].status == Unused <==> t[i].status == Unused)
    requires FreeAreClosed(t, fds) && forall i: nat :: Live(t, i) && !Live(t', i) ==> AllClosed(fds, i)
    ensures UsedSlots(t') == UsedSlots(t) && FreeAreClosed(t', fds)
  {
  }

  lemma DmaValid(ps: ProcessSpaces.Processes)
    requires ps.Valid()
    ensures ps.u.alloc.dma.Valid() && |ps.procs| == NUM_PROCS && forall j: nat :: j in ps.used ==> j < |ps.procs|
  {
    forall j: nat | j in ps.used ensures j < |ps.procs| { assert ProcessSpaces.InUse(ps.used, j); }
  }

  lemma NotMoved(ps: ProcessSpaces.Processes, r: nat)
    requires ps.Valid()
    ensures Undisturbed(ps.procs, ps.procs, ps.used, ps.used, r, Now(ps.u), Now(ps.u))
  {
    DmaValid(ps);
    NobodyMoved(ps.procs, ps.used, ps.used, r, Now(ps.u));
  }

  lemma ForkedUserNow(ps: ProcessSpaces.Processes, live: map<nat, Run>, src: nat, dst: nat)
    requires ps.Valid() && ProcessSpaces.InUse(ps.used, src) && src < |ps.procs| && dst < |ps.procs|
    requires ProcessSpaces.Forked(ps.u.m, ps.u.Frames(), live, ps.procs[src].space, ps.procs[dst].space)
    ensures ProcessSpaces.ForkedUser(ps.u.m, ps.u.Frames(), live, ps.procs[src].space, ps.procs[dst].space)
  {
    hide ProcessSpaces.Forked, ProcessSpaces.ForkedUser;
    ps.HasTrapFrame(src);
    ProcessSpaces.ForkedIsUser(ps.u.m, ps.u.Frames(), live, ps.procs[src].space, ps.procs[dst].space);
  }

  lemma EmptySane()
    ensures Sane(NoProcess(), 1, {})
  {
    forall p: nat ensures !IsBlocked(NoProcess(), p) {}
  }

  lemma FirstSane()
    ensures InUser(NoProcess()[0 := Pcb(1, Running, None, false, 0, 0)], 0, 2, {})
  {
    var t := AfterTrap(NoProcess()[0 := Pcb(1, Running, None, false, 0, 0)], 0);
    forall p: nat ensures !IsBlocked(t, p) {}
  }

  /** How an operation ends; a miscount is an open or duplication the reference counts do not
      survive, what is refused is outside this model, and without a process id a fork overflows the
      counter. */
  datatype Outcome = Done | Panic | Miscount | Refused | NoPid

  /** The outcome of an operation in state `v`, as far as it is known before. */
  ghost predicate Ended(e: Outcome, op: Op, v: View) {
    && (e.Refused? <==> !Acceptable(op, v.files))
    && (e.Miscount? <==> Acceptable(op, v.files) && Miscounts(op, Own(v)))
    && (e.NoPid? <==> Spent(op, v))
  }

  class Machine {
    const ps: ProcessSpaces.Processes
    const open: OpenFiles
    var table: seq<Pcb>
    var nextPid: nat
    var running: nat
    var halted: bool
    ghost var lost: set<nat>
    /** The history of scheduler calls. */
    ghost var tables: seq<seq<Pcb>>
    ghost var picks: seq<nat>

    ghost function See(): View
      reads this, open
    {
      View(table, running, nextPid, halted, lost, tables, picks, open.fds, open.files)
    }

    /** The parts agree on which slots are used. */
    ghost predicate Parts()
      reads this, open, ps, ps.u, ps.u.alloc, ps.u.alloc.space, ps.u.alloc.dma, ps.u.alloc.kva
    {
      && ps.Valid() && open.Valid() && running < NUM_PROCS && nextPid <= PID_MAX
      && Scheduled(tables, picks) && picks[|tables|] == running
      && ps.used == UsedSlots(table) && FreeAreClosed(table, open.fds)
    }

    ghost predicate InKernel()
      reads this, open, ps, ps.u, ps.u.alloc, ps.u.alloc.space, ps.u.alloc.dma, ps.u.alloc.kva
    {
      Parts() && Sane(table, nextPid, lost)
    }

    ghost predicate Valid()
      reads this, open, ps, ps.u, ps.u.alloc, ps.u.alloc.space, ps.u.alloc.dma, ps.u.alloc.kva
    {
      if halted then InKernel() && forall q: nat :: !IsReady(table, q)
      else Parts() && InUser(table, running, nextPid, lost)
    }

    /** What the invariant says of the parts. */
    lemma History()
      requires Valid()
      ensures Chosen(See()) && Scheduled(tables, picks) && |table| == NUM_PROCS && Shape(open.fds)
      ensures running < NUM_PROCS && nextPid <= PID_MAX && ps.Valid() && ps.used == UsedSlots(table)
    {
      if !halted { TableSize(AfterTrap(table, running), nextPid, lost); }
    }

    lemma Inside()
      requires InKernel()
      ensures ps.Valid() && ps.used == UsedSlots(table) && running < NUM_PROCS && |table| == NUM_PROCS &&
        Sane(table, nextPid, lost)
    {
    }

    /** No process yet: nothing runs. */
    constructor (ps: ProcessSpaces.Processes)
      requires ps.Valid() && ps.used == {}
      ensures Valid() && halted && this.ps == ps && lost == {} && nextPid == 1 && table == NoProcess() && fresh(open)
      ensures forall p: nat :: p < NUM_PROCS ==> AllClosed(open.fds, p)
    {
      hide Sane, Counted, ProcessSpaces.Processes.Valid;
      var files := new OpenFiles();
      this.ps, open := ps, files;
      table, nextPid, running, halted, lost, tables, picks := NoProcess(), 1, 0, true, {}, [], [0];
      new;
      EmptySane();
      CountedShape(open.fds, open.files);
      assert UsedSlots(table) == {};
    }

    /** `init_scheduler` of an empty table: the first process, with three devices as its standard
        streams, runs in slot 0. False is a panic. */
    method Boot(segs: seq<Segment>, file: Block, streams: seq<Fd>) returns (ok: bool)
      requires Valid() && halted && table == NoProcess() && nextPid == 1 && lost == {} && Loadable(segs) &&
        |streams| == 3
      requires forall i :: 0 <= i < |streams| ==> streams[i].occupied && streams[i].file.kind == Device
      modifies this, open, ps`procs, ps`used, ps.u, ps.u.alloc, ps.u.alloc.space, ps.u.alloc.dma, ps.u.alloc.kva
      ensures !ok ==> ps.u.alloc.space.Exhausted()
      ensures ok ==> Valid() && !halted && running == 0 && lost == {} && ps.used == {0}
      ensures ok ==> table == NoProcess()[0 := Pcb(1, Running, None, false, 0, 0)] && nextPid == 2
      ensures ok ==> open.fds[0] == streams + old(open.fds[0])[3..]
      ensures ok ==> Maps(ps.u.m, ps.u.Frames(), ps.procs[0].space, Layout(segs))
      ensures ok ==> ProgramImage(ps.u.m, ps.procs[0].space, segs, file, ps.trampoline)
    {
      hide Sane, Counted, ProcessSpaces.Processes.Valid, Maps, Layout, Loadable, Region.Frames, UserMemory.Frames;
      hide LiveWithout, WithBuffer, Overlapping, ProgramImage, Filled;
      hide ProcessSpaces.Isolated, Nearest;
      assert UsedSlots(NoProcess()) == {};
      forall p: nat | p < NUM_PROCS ensures AllClosed(open.fds, p) { assert table[p].status == Unused; }
      running, tables, picks := 0, [], [0];
      open.Standard(0, streams);
      CountedShape(open.fds, open.files);
      forall p: nat | 0 < p < NUM_PROCS ensures AllClosed(open.fds, p) {
        assert AllClosed(old(open.fds), p) && open.fds[p] == old(open.fds[p]);
      }
      ghost var buf, kbase;
      ok, buf, kbase := ProgramLoad.Load(ps, 0, segs, file);
      if !ok { return; }
      Start();
    }

    /** Slot 0 gets the first process. */
    method Start()
      requires ps.Valid() && open.Valid() && running == 0 && tables == [] && picks == [0] && ps.used == {0}
      requires table == NoProcess() && nextPid == 1 && lost == {} &&
        forall p: nat :: 0 < p < NUM_PROCS ==> AllClosed(open.fds, p)
      modifies this`table, this`nextPid, this`halted
      ensures Valid() && !halted && table == NoProcess()[0 := Pcb(1, Running, None, false, 0, 0)] && nextPid == 2
    {
      hide Sane, Counted, ProcessSpaces.Processes.Valid;
      CountedShape(open.fds, open.files);
      FirstSane();
      table := table[0 := Pcb(nextPid, Running, None, false, 0, 0)];
      nextPid := nextPid + 1;
      assert UsedSlots(table) == {0};
      halted := false;
    }

    /** The running process enters the kernel. */
    method Trap()
      requires Valid() && !halted
      modifies this`table
      ensures InKernel() && IsReady(table, running) && table == AfterTrap(old(table), running)
    {
      hide Sane, Counted, ProcessSpaces.Processes.Valid;
      TableSize(AfterTrap(table, running), nextPid, lost);
      SameSlots(table, AfterTrap(table, running), open.fds);
      table := table[running := table[running].(status := Ready)];
    }

    /** `schedule`: the READY process nearest behind the running one goes on, or the machine
        stops. */
    method Schedule()
      requires InKernel() && !halted
      modifies this`table, this`running, this`halted, this`tables, this`picks
      ensures Valid() && Goes(old(table), old(See()), See())
    {
      hide Sane, Counted, ProcessSpaces.Processes.Valid;
      TableSize(table, nextPid, lost);
      var k := Choose(table, running);
      if k.None? { halted := true; return; }
      RunUser(table, nextPid, lost, k.value);
      SameSlots(table, AfterRun(table, k.value), open.fds);
      ScheduledMore(tables, picks, table, k.value);
      tables, picks := tables + [table], picks + [k.value];
      running := k.value;
      table := table[running := table[running].(status := Running)];
    }

    /** The system call returns to the running process. */
    method Return(x: int)
      requires InKernel() && !halted && IsReady(table, running)
      modifies this`table
      ensures Valid() && table == AfterReturn(old(table), running, x)
    {
      hide Sane, Counted, ProcessSpaces.Processes.Valid;
      ReturnSane(table, nextPid, lost, running, x);
      SameSlots(table, AfterReturn(table, running, x), open.fds);
      table := table[running := table[running].(x10 := x)];
      assert AfterTrap(table, running) == table;
    }

    /** The timer interrupt and `sys_yield`. */
    method DoYield()
      requires Valid() && !halted
      modifies this`table, this`running, this`halted, this`tables, this`picks
      ensures Valid() && !halted && Nearest(AfterTrap(old(table), old(running)), old(running), running)
      ensures table == AfterRun(AfterTrap(old(table), old(running)), running)
      ensures Effect(Yield, old(See()), See())
    {
      hide Sane, Counted, ProcessSpaces.Processes.Valid;
      Trap();
      Schedule();
    }

    method FreeSlot() returns (c: Option<nat>)
      requires |table| == NUM_PROCS
      ensures c.None? <==> AllUsed(table)
      ensures c.Some? ==> FirstUnused(table, c.value)
    {
      for i: nat := 0 to NUM_PROCS
        invariant forall j: nat :: j < i ==> table[j].status != Unused
      {
        if table[i].status == Unused { return Some(i); }
      }
      c := None;
    }

    /** The scan of `sys_waitpid`. */
    method FindChild(pid: int) returns (c: Option<nat>)
      requires |table| == NUM_PROCS
      ensures c.None? ==> forall i: nat :: !Match(table, running, pid, i)
      ensures c.Some? ==> Match(table, running, pid, c.value)
    {
      c := None;
      for i: nat := 0 to NUM_PROCS
        invariant c.None? ==> forall j: nat :: j < i ==> !Match(table, running, pid, j)
        invariant c.Some? ==> Match(table, running, pid, c.value)
      {
        if table[i].pid == pid && table[i].parent == Some(running) { c := Some(i); }
      }
    }

    /** The part of `sys_fork` that fills slot `c`. False is a panic. */
    method ForkInto(c: nat) returns (ok: bool)
      requires InKernel() && !halted && IsReady(table, running) && c < |table| && table[c].status == Unused &&
        nextPid < PID_MAX
      modifies this`table, this`nextPid, open
      modifies ps`procs, ps`used, ps.u, ps.u.alloc, ps.u.alloc.space, ps.u.alloc.dma, ps.u.alloc.kva
      ensures !ok ==> ps.u.alloc.space.Exhausted()
      ensures ok ==>
        InKernel() && table == AfterFork(old(table), running, c, old(nextPid)) && nextPid == old(nextPid) + 1
      ensures ok ==> ps.used == old(ps.used) + {c} && ps.procs == old(ps.procs)[c := ps.procs[c]]
      ensures ok ==>
        ProcessSpaces.ForkedUser(ps.u.m, ps.u.Frames(), old(ps.u.alloc.dma.live), ps.procs[running].space,
        ps.procs[c].space)
      ensures ok ==> CopiedFds(open.fds, old(open.fds), running, c)
      ensures ok ==> Undisturbed(ps.procs, old(ps.procs), ps.used, old(ps.used), running, Now(ps.u), old(Now(ps.u)))
    {
      hide Sane, Counted, Scheduled, ProcessSpaces.Processes.Valid, ProcessSpaces.Forked, ProcessSpaces.ForkedUser;
      hide ProcessSpaces.Isolated;
      hide Region.Frames, UserMemory.Frames, OnlySpace, BytesKept, LiveWithout, Undisturbed, Nearest;
      TableSize(table, nextPid, lost);
      CountedShape(open.fds, open.files);
      DmaValid(ps);
      ghost var t0, procs, used := Now(ps.u), ps.procs, ps.used;
      assert c !in used;
      ok := ps.Fork(running, c);
      if !ok { return; }
      DmaValid(ps);
      IsolatedOthers(ps.procs, procs, ps.used, used, running, c, Now(ps.u), t0);
      ForkedUserNow(ps, old(ps.u.alloc.dma.live), running, c);
      open.CopyAll(running, c);
      CountedShape(open.fds, open.files);
      Enter(c);
    }

    /** Slot `c`, whose memory and descriptors are there, becomes a READY child. */
    method Enter(c: nat)
      requires ps.Valid() && open.Valid() && Scheduled(tables, picks) && picks[|tables|] == running &&
        Sane(table, nextPid, lost)
      requires running < NUM_PROCS && IsReady(table, running) && c < |table| && table[c].status == Unused &&
        nextPid < PID_MAX
      requires ps.used == UsedSlots(table) + {c} && Shape(open.fds)
      requires forall p: nat :: p < |table| && p != c && (table[p].status == Unused || table[p].status == Zombie) ==>
        AllClosed(open.fds, p)
      modifies this`table, this`nextPid
      ensures InKernel() && table == AfterFork(old(table), running, c, old(nextPid)) && nextPid == old(nextPid) + 1
    {
      hide Sane, Counted, Scheduled, ProcessSpaces.Processes.Valid;
      TableSize(table, nextPid, lost);
      ForkSane(table, nextPid, lost, running, c);
      table := table[c := Pcb(nextPid, Ready, Some(running), false, table[c].exitCode, 0)];
      nextPid := nextPid + 1;
      assert UsedSlots(table) == UsedSlots(old(table)) + {c};
    }

    /** `sys_fork`: -1 if all slots are used. The child is READY with result 0, its memory is a
        copy, trap frame aside, and its descriptors are those of the parent. False is a panic. */
    method DoFork() returns (ok: bool, r: int, ghost child: nat)
      requires Valid() && !halted && !Spent(Fork, See())
      modifies this`table, this`nextPid, open
      modifies ps`procs, ps`used, ps.u, ps.u.alloc, ps.u.alloc.space, ps.u.alloc.dma, ps.u.alloc.kva
      ensures !ok ==> ps.u.alloc.space.Exhausted()
      ensures ok ==> Valid() && Effect(Fork, old(See()), See())
      ensures ok ==> (r == -1 <==> forall i: nat :: i < NUM_PROCS ==> old(table)[i].status != Unused)
      ensures ok && r == -1 ==> ps.used == old(ps.used)
      ensures ok && r != -1 ==>
        && r == old(nextPid) && FirstUnused(old(table), child) && child != running
        && table == AfterReturn(AfterFork(AfterTrap(old(table), running), running, child, r), running, r)
        && ps.used == old(ps.used) + {child} && ps.procs == old(ps.procs)[child := ps.procs[child]]
        && ProcessSpaces.ForkedUser(ps.u.m, ps.u.Frames(), old(ps.u.alloc.dma.live), ps.procs[running].space,
          ps.procs[child].space)
        && CopiedFds(open.fds, old(open.fds), running, child)
      ensures ok ==> Undisturbed(ps.procs, old(ps.procs), ps.used, old(ps.used), running, Now(ps.u), old(Now(ps.u)))
    {
      hide Sane, Counted, Scheduled, ProcessSpaces.Processes.Valid, ProcessSpaces.ForkedUser, Region.Frames;
      hide UserMemory.Frames, FreeAreClosed;
      hide Undisturbed, CopiedFds;
      ghost var t := AfterTrap(table, running);
      Trap();
      TableSize(table, nextPid, lost);
      NotMoved(ps, running);
      var free := FreeSlot();
      if free.None? {
        forall i: nat | i < NUM_PROCS ensures old(table)[i].status != Unused { assert table[i].status != Unused; }
        Return(-1);
        return true, -1, 0;
      }
      child := free.value;
      forall i: nat | i < child ensures old(table)[i].status != Unused { assert t[i].status != Unused; }
      r := nextPid;
      ok := ForkInto(free.value);
      if !ok { return; }
      Return(r);
      assert Forks(t, child, old(See()), See());
    }

    /** `unload_process`. False is the panic for a process that is not TERMINATED. */
    method Unload(i: nat) returns (ok: bool)
      requires ps.Valid() && ProcessSpaces.InUse(ps.used, i) && i < |table|
      modifies this`table, ps`used, ps.u, ps.u.alloc, ps.u.alloc.space, ps.u.alloc.dma, ps.u.alloc.kva
      ensures ok <==> old(table)[i].status == Terminated
      ensures ok ==> ps.Valid() && ps.used == old(ps.used) - {i}
      ensures ok ==> table == old(table)[i := old(table)[i].(status := Unused)]
      ensures ok ==>
        forall r: nat :: Undisturbed(ps.procs, ps.procs, ps.used, old(ps.used), r, Now(ps.u), old(Now(ps.u)))
    {
      hide ProcessSpaces.Processes.Valid, Region.Frames, UserMemory.Frames, OnlySpace, LiveWithout;
      hide ProcessSpaces.Isolated, Undisturbed;
      if table[i].status != Terminated { return false; }
      DmaValid(ps);
      ghost var t0, used := Now(ps.u), ps.used;
      ps.Free(i);
      DmaValid(ps);
      forall r: nat ensures Undisturbed(ps.procs, ps.procs, ps.used, used, r, Now(ps.u), t0) {
        IsolatedOthers(ps.procs, ps.procs, ps.used, used, r, i, Now(ps.u), t0);
      }
      ok := true;
      table := table[i := table[i].(status := Unused)];
    }

    /** The branch of `sys_exit` for a parent that waits: it becomes READY with the exit status as
        its result, and the memory of the process is given back. */
    method Wake(x: int)
      requires InKernel() && !halted && IsReady(table, running) && table[running].waited && AllClosed(open.fds, running)
      modifies this`table, ps`used, ps.u, ps.u.alloc, ps.u.alloc.space, ps.u.alloc.dma, ps.u.alloc.kva
      ensures InKernel() && ps.used == old(ps.used) - {running}
      ensures old(table)[running].parent.Some? && IsBlocked(old(table), old(table)[running].parent.value)
      ensures old(table)[running].parent.value !in lost
      ensures table == AfterWake(old(table), running, old(table)[running].parent.value, x)
      ensures Undisturbed(ps.procs, ps.procs, ps.used, old(ps.used), running, Now(ps.u), old(Now(ps.u)))
    {
      hide Sane, Counted, Scheduled, ProcessSpaces.Processes.Valid, Undisturbed, Region.Frames, UserMemory.Frames;
      var r := running;
      DmaValid(ps);
      ghost var t0 := Now(ps.u);
      WakeSane(table, nextPid, lost, r, x);
      FlaggedHasWaiter(table, nextPid, lost, r);
      var p := table[r].parent.value;
      table := table[p := table[p].(status := Ready, x10 := x)];
      table := table[r := table[r].(status := Terminated)];
      assert Now(ps.u) == t0;
      var ok := Unload(r);
      assert table == AfterWake(old(table), r, p, x);
      assert UsedSlots(table) == UsedSlots(old(table)) - {r};
    }

    /** The other branch: the process becomes a zombie. */
    method Zombify(x: int)
      requires InKernel() && !halted && IsReady(table, running) && !table[running].waited &&
        AllClosed(open.fds, running)
      modifies this`table
      ensures InKernel() && table == AfterZombie(old(table), running, x)
    {
      hide Sane, Counted, Scheduled, ProcessSpaces.Processes.Valid;
      ZombieSane(table, nextPid, lost, running, x);
      table := table[running := table[running].(status := Zombie, exitCode := x)];
      SameSlots(old(table), table, open.fds);
    }

    /** `sys_exit`: all files are closed. A parent that waits is woken up; otherwise the process
        becomes a zombie. */
    method DoExit(x: int)
      requires Valid() && !halted
      modifies this`table, this`running, this`halted, this`tables, this`picks, open
      modifies ps`used, ps.u, ps.u.alloc, ps.u.alloc.space, ps.u.alloc.dma, ps.u.alloc.kva
      ensures Valid() && Effect(Exit(x), old(See()), See())
      ensures old(table)[old(running)].waited ==>
        old(table)[old(running)].parent.Some? && old(table)[old(running)].parent.value !in lost
      ensures ps.used == (if old(table)[old(running)].waited then old(ps.used) - {old(running)} else old(ps.used))
      ensures Undisturbed(ps.procs, old(ps.procs), ps.used, old(ps.used), old(running), Now(ps.u), old(Now(ps.u)))
    {
      hide Sane, Counted, Scheduled, ProcessSpaces.Processes.Valid, Undisturbed, Goes, Region.Frames, UserMemory.Frames;
      DmaValid(ps);
      ghost var t0 := Now(ps.u);
      NotMoved(ps, running);
      Trap();
      ghost var t := table;
      TableSize(table, nextPid, lost);
      var r := running;
      CountedShape(open.fds, open.files);
      open.CloseAll(r);
      CountedShape(open.fds, open.files);
      assert Now(ps.u) == t0;
      if table[r].waited {
        Wake(x);
      } else {
        Zombify(x);
        assert Now(ps.u) == t0;
      }
      ghost var v := See();
      Schedule();
      GoesFrom(v.table, v, With(old(See()), See()), See());
    }

    /** The branch of `sys_waitpid` for a child that has exited. */
    method Reap(c: nat)
      requires InKernel() && !halted && IsReady(table, running) && c < |table| && table[c].status == Zombie
      modifies this`table, ps`used, ps.u, ps.u.alloc, ps.u.alloc.space, ps.u.alloc.dma, ps.u.alloc.kva
      ensures Valid() && ps.used == old(ps.used) - {c}
      ensures table == AfterReturn(AfterReap(old(table), c), running, 0)
      ensures Undisturbed(ps.procs, ps.procs, ps.used, old(ps.used), running, Now(ps.u), old(Now(ps.u)))
    {
      hide Sane, Counted, Scheduled, ProcessSpaces.Processes.Valid, Undisturbed, Region.Frames, UserMemory.Frames;
      ReapSane(table, nextPid, lost, c);
      DmaValid(ps);
      ghost var t0 := Now(ps.u);
      table := table[c := table[c].(status := Terminated)];
      assert Now(ps.u) == t0;
      var ok := Unload(c);
      assert table == AfterReap(old(table), c);
      assert UsedSlots(table) == UsedSlots(old(table)) - {c};
      Return(0);
    }

    /** The branch of `sys_waitpid` for any other child. */
    method Block(c: nat)
      requires InKernel() && !halted && IsReady(table, running)
      requires c < |table| && table[c].parent == Some(running) && table[c].status != Zombie
      modifies this`table, this`running, this`halted, this`lost, this`tables, this`picks
      ensures Valid() && Waits(old(table), c, old(See()), See())
    {
      hide Sane, Counted, Scheduled, ProcessSpaces.Processes.Valid;
      BlockSane(table, nextPid, lost, running, c);
      lost := if table[c].status == Unused then lost + {running} else lost;
      table := table[c := table[c].(waited := true)];
      table := table[running := table[running].(status := Blocked)];
      SameSlots(old(table), table, open.fds);
      Schedule();
    }

    /** `sys_waitpid`. `child` is the slot found. A zombie is reaped and the result is 0. A child
        that has not exited makes the parent wait for it. A slot whose process was already
        reaped still matches, and then, and only then, the parent is lost. */
    method DoWait(pid: int) returns (ghost child: Option<nat>)
      requires Valid() && !halted
      modifies this`table, this`running, this`halted, this`lost, this`tables, this`picks
      modifies ps`used, ps.u, ps.u.alloc, ps.u.alloc.space, ps.u.alloc.dma, ps.u.alloc.kva
      ensures Valid() && Effect(Wait(pid), old(See()), See())
      ensures child.None? <==> forall i: nat :: !Match(old(table), old(running), pid, i)
      ensures child.Some? ==> child.value != old(running) && Match(old(table), old(running), pid, child.value)
      ensures lost == (if Stale(Wait(pid), old(See())) then old(lost) + {old(running)} else old(lost))
      ensures child.Some? ==>
        ps.used == (if old(table)[child.value].status == Zombie then old(ps.used) - {child.value} else old(ps.used))
      ensures Undisturbed(ps.procs, ps.procs, ps.used, old(ps.used), old(running), Now(ps.u), old(Now(ps.u)))
    {
      hide Sane, Valid, InKernel, ProcessSpaces.Processes.Valid, Scheduled, UsedSlots, Undisturbed, Goes, Waits, Effect;
      hide Stale, Region.Frames, UserMemory.Frames;
      History();
      Trap();
      Inside();
      ghost var v := See();
      TableSize(table, nextPid, lost);
      DmaValid(ps);
      ghost var t0 := Now(ps.u);
      NotMoved(ps, running);
      var found := FindChild(pid);
      child := found;
      assert forall i: nat :: Match(old(table), running, pid, i) <==> Match(v.table, running, pid, i);
      if found.None? {
        Return(-1);
        NoMatchEffect(pid, old(See()), See());
        return;
      }
      var c := found.value;
      ParentApart(table, nextPid, lost, c);
      OnlyMatch(v.table, nextPid, lost, running, pid, c);
      if table[c].status == Zombie {
        Reap(c);
        ReapWaits(c, v, See());
      } else {
        Block(c);
        assert Now(ps.u) == t0;
      }
      WaitsFrom(v.table, c, v, old(See()), See());
      WaitEffect(pid, c, old(See()), See());
    }

    /** The memory of the running process is replaced. False is a panic. */
    method Reload(segs: seq<Segment>, file: Block) returns (ok: bool)
      requires InKernel() && !halted && IsReady(table, running) && Loadable(segs)
      modifies ps`procs, ps`used, ps.u, ps.u.alloc, ps.u.alloc.space, ps.u.alloc.dma, ps.u.alloc.kva
      ensures !ok ==> ps.u.alloc.space.Exhausted()
      ensures ok ==> InKernel() && ps.used == old(ps.used) && ps.procs == old(ps.procs)[running := ps.procs[running]]
      ensures ok ==> Maps(ps.u.m, ps.u.Frames(), ps.procs[running].space, Layout(segs))
      ensures ok ==> ProgramImage(ps.u.m, ps.procs[running].space, segs, file, ps.trampoline)
      ensures ok ==> Undisturbed(ps.procs, old(ps.procs), ps.used, old(ps.used), running, Now(ps.u), old(Now(ps.u)))
    {
      hide Sane, Counted, Scheduled, ProcessSpaces.Processes.Valid, Maps, Layout, Loadable, ProcessSpaces.Isolated;
      hide Undisturbed, ProgramImage, Filled, FreeAreClosed;
      hide Region.Frames, UserMemory.Frames, OnlySpace, LiveWithout, WithBuffer, Overlapping;
      DmaValid(ps);
      ghost var t0, procs, used, buf, kbase := Now(ps.u), ps.procs, ps.used, 0, map[];
      ok, buf, kbase := ProgramLoad.Exec(ps, running, segs, file);
      if !ok { return; }
      DmaValid(ps);
      IsolatedOthers(ps.procs, procs, ps.used, used, running, running, Now(ps.u), t0);
    }

    /** `sys_execve` once the program is found: the memory is replaced and the call returns the
        number of arguments. False is a panic. */
    method DoExec(segs: seq<Segment>, file: Block, argc: int) returns (ok: bool)
      requires Valid() && !halted && Loadable(segs)
      modifies this`table, ps`procs, ps`used, ps.u, ps.u.alloc, ps.u.alloc.space, ps.u.alloc.dma, ps.u.alloc.kva
      ensures !ok ==> ps.u.alloc.space.Exhausted()
      ensures ok ==> Valid() && Effect(Exec(segs, file, argc), old(See()), See())
      ensures ok ==> ps.used == old(ps.used) && ps.procs == old(ps.procs)[running := ps.procs[running]]
      ensures ok ==> Maps(ps.u.m, ps.u.Frames(), ps.procs[running].space, Layout(segs))
      ensures ok ==> ProgramImage(ps.u.m, ps.procs[running].space, segs, file, ps.trampoline)
      ensures ok ==> Undisturbed(ps.procs, old(ps.procs), ps.used, old(ps.used), running, Now(ps.u), old(Now(ps.u)))
    {
      hide Sane, Counted, Scheduled, ProcessSpaces.Processes.Valid, Maps, Layout, Loadable, Undisturbed, ProgramImage;
      hide Region.Frames, UserMemory.Frames, FreeAreClosed;
      Trap();
      ok := Reload(segs, file);
      if !ok { return; }
      Return(argc);
    }

    /** `sys_openat`. False if the reference counts do not survive. */
    method DoOpen(flags: bv32, dir: bool, found: Lookup) returns (ok: bool, x: int)
      requires Valid() && !halted && Acceptable(Open(flags, dir, found), open.files)
      modifies this`table, open
      ensures ok ==> Valid()
      ensures !ok <==> Miscounts(Open(flags, dir, found), old(open.fds[running]))
      ensures Handles(Open(flags, dir, found), x, AfterTrap(old(table), running), old(See()), See())
    {
      hide Sane, Counted, Scheduled, ProcessSpaces.Processes.Valid;
      Trap();
      CountedShape(open.fds, open.files);
      ghost var own := open.fds[running];
      var fd, slot := open.Open(running, flags, dir, found);
      x := if fd.Some? then fd.value else -1;
      ok := fd.Some? || slot.None? || open.fds[running][slot.value].file.kind == Device;
      if slot.Some? {
        assert FirstFree(own, slot.value);
        assert open.fds == SetFd(old(open.fds), running, slot.value, open.fds[running][slot.value]);
      }
      if ok { Return(x); } else { table := table[running := table[running].(x10 := x)]; }
      assert slot.Some? ==> OpenedAt(slot.value, flags, dir, found, x, running, old(See()), See());
    }

    /** `sys_close`. */
    method DoClose(fd: nat) returns (x: int)
      requires Valid() && !halted && fd < NUM_FILES
      modifies this`table, open
      ensures Valid() && Handles(Close(fd), x, AfterTrap(old(table), running), old(See()), See())
      ensures var d := old(open.fds[running][fd]);
        d.occupied && d.file.kind != Device ==> d.file.super in old(open.files) && old(open.files)[d.file.super] > 0
    {
      hide Sane, Counted, Scheduled, ProcessSpaces.Processes.Valid;
      Trap();
      CountedShape(open.fds, open.files);
      var closed := open.Close(running, fd);
      x := if closed then 0 else -1;
      Return(x);
    }

    /** `sys_dup`. */
    method DoDup(fd: nat) returns (x: int)
      requires Valid() && !halted && fd < NUM_FILES
      modifies this`table, open
      ensures Valid() && Handles(Dup(fd), x, AfterTrap(old(table), running), old(See()), See())
    {
      hide Sane, Counted, Scheduled, ProcessSpaces.Processes.Valid;
      Trap();
      CountedShape(open.fds, open.files);
      ghost var own := open.fds[running];
      var dup := open.Dup(running, fd);
      x := if dup then 0 else -1;
      if dup {
        ghost var i: nat :| i < NUM_FILES && !own[i].occupied && open.fds == SetFd(old(open.fds), running, i, own[fd])
                            && forall j: nat :: j < i ==> own[j].occupied;
        assert FirstFree(own, i);
      }
      Return(x);
    }

    /** `sys_dup3`. False if the reference counts do not survive. */
    method DoDup3(from: nat, to: nat, mask: bv32) returns (ok: bool, x: int)
      requires Valid() && !halted && from < NUM_FILES && to < NUM_FILES
      modifies this`table, open
      ensures ok ==> Valid()
      ensures !ok <==> Miscounts(Dup3(from, to, mask), old(open.fds[running]))
      ensures Handles(Dup3(from, to, mask), x, AfterTrap(old(table), running), old(See()), See())
    {
      hide Sane, Counted, Scheduled, ProcessSpaces.Processes.Valid, Masked, Retargeted;
      Trap();
      CountedShape(open.fds, open.files);
      ghost var d := open.fds[running][from];
      var device := open.fds[running][from].file.kind == Device;
      var dup, safe := open.Dup3(running, from, to, mask);
      x := if dup then 0 else -1;
      ok := !dup || from != to || device;
      assert dup ==>
        open.fds == SetFd(old(open.fds), running, to, d.(occupied := from != to, flags := Masked(d.flags, mask)));
      if ok { Return(x); } else { table := table[running := table[running].(x10 := x)]; }
    }

    /** A call on descriptors. */
    method StepFiles(op: Op) returns (ok: bool)
      requires Valid() && !halted && Acceptable(op, open.files) && (op.Open? || op.Close? || op.Dup? || op.Dup3?)
      modifies this`table, open
      ensures ok ==> Valid()
      ensures !ok <==> Miscounts(op, Own(old(See())))
      ensures Effect(op, old(See()), See())
    {
      hide Sane, Counted, Scheduled, ProcessSpaces.Processes.Valid, Handles;
      CountedShape(open.fds, open.files);
      ok := true;
      var x;
      match op {
        case Open(flags, dir, found) => ok, x := DoOpen(flags, dir, found);
        case Close(fd) => x := DoClose(fd);
        case Dup(fd) => x := DoDup(fd);
        case Dup3(from, to, mask) => ok, x := DoDup3(from, to, mask);
      }
      assert Handles(op, x, AfterTrap(old(table), running), old(See()), See());
    }

    /** A fork would need a process id and there is none. */
    method OutOfIds() returns (spent: bool)
      requires |table| == NUM_PROCS
      ensures spent <==> Spent(Fork, See())
    {
      var free := FreeSlot();
      spent := free.Some? && nextPid >= PID_MAX;
    }

    /** One operation of the running process. It panics only when a fork or an exec finds the
        memory exhausted. The memory of every other process stays as it is. */
    method Step(op: Op) returns (e: Outcome)
      requires Valid() && !halted
      modifies this, open, ps`procs, ps`used, ps.u, ps.u.alloc, ps.u.alloc.space, ps.u.alloc.dma, ps.u.alloc.kva
      ensures e.Refused? <==> !Acceptable(op, old(open.files))
      ensures e.Miscount? <==> Acceptable(op, old(open.files)) && Miscounts(op, Own(old(See())))
      ensures e.NoPid? <==> Spent(op, old(See()))
      ensures e.Panic? ==> (op.Fork? || op.Exec?) && ps.u.alloc.space.Exhausted()
      ensures e.Done? ==> Valid() && Effect(op, old(See()), See())
      ensures e.Done? ==> lost == (if Stale(op, old(See())) then old(lost) + {old(running)} else old(lost))
      ensures e.Done? ==>
        Undisturbed(ps.procs, old(ps.procs), ps.used, old(ps.used), old(running), Now(ps.u), old(Now(ps.u)))
    {
      hide Sane, Counted, Scheduled, Nearest, ProcessSpaces.Processes.Valid, Maps, Layout, Region.Frames;
      hide UserMemory.Frames;
      hide ProcessSpaces.ForkedUser, Effect, Undisturbed, Valid, Loadable, CopiedFds, UsedSlots, AfterTrap;
      hide FirstUnused, AllUsed;
      if !Acceptable(op, open.files) { return Refused; }
      History();
      NotMoved(ps, running);
      var ok := true;
      match op {
        case Yield => DoYield();
        case Fork =>
          var spent := OutOfIds();
          if spent { return NoPid; }
          var r;
          ghost var child;
          ok, r, child := DoFork();
        case Exit(x) => DoExit(x);
        case Wait(pid) => ghost var child := DoWait(pid);
        case Exec(segs, file, argc) => ok := DoExec(segs, file, argc);
        case _ =>
          ok := StepFiles(op);
          return if ok then Done else Miscount;
      }
      if !ok { return Panic; }
      if !op.Wait? { EffectLost(op, old(See()), See()); }
      e := Done;
    }

    /** One iteration of a run that began with `trail[0]`, `procs0` and `t0`. */
    method RunOne(ops: seq<Op>, i: nat, ghost trail: seq<View>, ghost procs0: seq<ProcessSpaces.Proc>, ghost t0: Snap)
      returns (e: Outcome, ghost trail': seq<View>)
      requires Valid() && !halted && i < |ops| && Trail(ops, trail) && |trail| == i + 1 && trail[i] == See()
      requires KeptSlept(trail[0], See(), ps.procs, procs0, Now(ps.u), t0)
      modifies this, open, ps`procs, ps`used, ps.u, ps.u.alloc, ps.u.alloc.space, ps.u.alloc.dma, ps.u.alloc.kva
      ensures e.Done? ==> Valid() && trail' == trail + [See()] && Trail(ops, trail')
      ensures e.Done? ==> KeptSlept(trail[0], See(), ps.procs, procs0, Now(ps.u), t0)
      ensures e.Panic? ==> (ops[i].Fork? || ops[i].Exec?) && ps.u.alloc.space.Exhausted()
      ensures Ended(e, ops[i], trail[i])
    {
      hide Valid, ProcessSpaces.Processes.Valid, Scheduled, UsedSlots, Effect, Undisturbed, Same, Acceptable, Miscounts;
      hide Stale, Spent;
      hide Slept, StaysLive, Trail, KeptSlept, Region.Frames, UserMemory.Frames, Own;
      trail' := trail;
      History();
      DmaValid(ps);
      ghost var t, before, used := Now(ps.u), ps.procs, ps.used;
      e := Step(ops[i]);
      if e.Done? {
        History();
        DmaValid(ps);
        TrailMore(ops, trail, See());
        trail' := trail + [See()];
        KeptOn(ops, trail', i + 1, ps.procs, before, procs0, ps.used, used, Now(ps.u), t, t0);
      }
    }

    /** Any run, `trail` being its states: it ends at the first operation that is not done, when
        the machine halts, or at the end of `ops`. Every process that did not run is still there
        and has the memory it had. */
    method Run(ops: seq<Op>) returns (e: Outcome, ghost trail: seq<View>)
      requires Valid()
      modifies this, open, ps`procs, ps`used, ps.u, ps.u.alloc, ps.u.alloc.space, ps.u.alloc.dma, ps.u.alloc.kva
      ensures Trail(ops, trail) && trail[0] == old(See())
      ensures e.Done? ==> Valid() && trail[|trail| - 1] == See() && (halted || |trail| == |ops| + 1)
      ensures !e.Done? ==> |trail| <= |ops| && !trail[|trail| - 1].halted
      ensures e.Panic? ==> (ops[|trail| - 1].Fork? || ops[|trail| - 1].Exec?) && ps.u.alloc.space.Exhausted()
      ensures !e.Done? ==> Ended(e, ops[|trail| - 1], trail[|trail| - 1])
      ensures e.Done? ==> KeptSlept(old(See()), See(), ps.procs, old(ps.procs), Now(ps.u), old(Now(ps.u)))
      ensures e.Done? ==> Fairly(old(See()), See()) && old(lost) <= lost
      ensures e.Done? && (forall i: nat :: i + 1 < |trail| ==> !Stale(ops[i], trail[i])) ==> lost == old(lost)
    {
      hide Valid, ProcessSpaces.Processes.Valid, Effect, Trail, KeptSlept, Fairly, Stale, Scheduled, Chosen, UsedSlots;
      hide Region.Frames, UserMemory.Frames;
      e, trail := Done, [See()];
      History();
      DmaValid(ps);
      StartTrail(ops, See());
      ghost var t0, procs := Now(ps.u), ps.procs;
      StartKept(See(), ps.procs, ps.used, t0);
      for i: nat := 0 to |ops|
        invariant e == Done && Valid() && Trail(ops, trail) && |trail| == i + 1 && trail[0] == old(See()) &&
          trail[i] == See()
        invariant ps.u.alloc.dma.Valid() && KeptSlept(old(See()), See(), ps.procs, procs, Now(ps.u), t0)
      {
        if halted { break; }
        ghost var trail';
        e, trail' := RunOne(ops, i, trail, procs, t0);
        if !e.Done? { return; }
        trail := trail';
        History();
        DmaValid(ps);
      }
      History();
      TrailEnds(ops, trail, |trail| - 1);
    }
  }
}
