/**
 * The process system calls as steps of the process table and the history of scheduler calls,
 * and what every run of them keeps.
 */
module KernelSteps {
  import opened Limits
  import opened OpenFlags
  import opened Paging
  import opened ProcessTable
  import opened Descriptors
  import opened ProgramLoad
  import opened ProcessSpaces
  import opened UserTable
  import opened SpaceCopy

  datatype Op =
    | Yield
    | Fork
    | Exit(status: int)
    | Wait(pid: int)
    | Exec(segs: seq<Segment>, file: Block, argc: int)
    | Open(flags: bv32, dir: bool, found: Lookup)
    | Close(fd: nat)
    | Dup(fd: nat)
    | Dup3(from: nat, to: nat, mask: bv32)

  /** What the steps are about: `tables` are the tables the scheduler saw, `picks` the running slot
      before each of its calls and after the last; `fds` and `files` are the descriptors of all
      processes and the counts of the files. */
  datatype View = View(table: seq<Pcb>, running: nat, next: nat, halted: bool, lost: set<nat>,
                       tables: seq<seq<Pcb>>, picks: seq<nat>, fds: Fds, files: map<nat, nat>)

  /** The largest process id, an `int`. */
  const PID_MAX := 0x7fff_ffff

  /** `v` with the open files of `v'`. */
  function With(v: View, v': View): View {
    v.(fds := v'.fds, files := v'.files)
  }

  /** The descriptors of the running process. */
  function Own(v: View): seq<Fd> {
    if v.running < |v.fds| then v.fds[v.running] else []
  }

  /** The scheduler goes on from table `t`: it chooses the nearest READY process, or the machine
      halts if there is none. */
  ghost predicate Goes(t: seq<Pcb>, v: View, v': View) {
    if forall q: nat :: !IsReady(t, q) then v' == v.(table := t, halted := true)
    else
      && Nearest(t, v.running, v'.running)
      && v' == v.(table := AfterRun(t, v'.running), running := v'.running,
                  tables := v.tables + [t], picks := v.picks + [v'.running])
  }

  lemma GoesFrom(t: seq<Pcb>, v: View, v0: View, v': View)
    requires Goes(t, v, v') && v == v0.(table := v.table)
    ensures Goes(t, v0, v')
  {
  }

  /** The system call returns `x` to the running process, with table `t` otherwise. */
  ghost predicate Comes(t: seq<Pcb>, x: int, v: View, v': View) {
    v.running < |t| && v' == v.(table := AfterReturn(t, v.running, x))
  }

  /** `c` is the first UNUSED slot. */
  predicate FirstUnused(t: seq<Pcb>, c: nat) {
    c < |t| && t[c].status == Unused && forall i: nat :: i < c ==> t[i].status != Unused
  }

  predicate AllUsed(t: seq<Pcb>) {
    forall i: nat :: i < |t| ==> t[i].status != Unused
  }

  /** Slot `c` is a child of `r` with that process id. */
  predicate Match(t: seq<Pcb>, r: nat, pid: int, c: nat) {
    c < |t| && t[c].pid == pid && t[c].parent == Some(r)
  }

  /** The child has a copy of each descriptor of the parent. */
  ghost predicate CopiedFds(fds': Fds, fds: Fds, parent: nat, child: nat) {
    && Shape(fds) && Shape(fds') && parent < NUM_PROCS && child < NUM_PROCS
    && (forall q: nat :: q < NUM_PROCS && q != child ==> fds'[q] == fds[q])
    && (forall i: nat :: i < NUM_FILES ==>
          && fds'[child][i].occupied == fds[parent][i].occupied
          && (fds[parent][i].occupied ==> fds'[child][i] == fds[parent][i]))
  }

  ghost predicate Forks(t: seq<Pcb>, c: nat, v: View, v': View) {
    && FirstUnused(t, c) && v.running < |t| && v.next < PID_MAX && CopiedFds(v'.fds, v.fds, v.running, c)
    && v' == With(v, v').(table := AfterReturn(AfterFork(t, v.running, c, v.next), v.running, v.next), next :=
      v.next + 1)
  }

  /** All descriptors of `r` are closed and nobody else's change. */
  ghost predicate ClosedFds(fds': Fds, fds: Fds, r: nat) {
    && Shape(fds) && Shape(fds') && AllClosed(fds', r)
    && forall q: nat :: q < NUM_PROCS && q != r ==> fds'[q] == fds[q]
  }

  /** `sys_openat` takes descriptor `i` of `r` and returns `x`. */
  predicate OpenedAt(i: nat, flags: bv32, dir: bool, found: Lookup, x: int, r: nat, v: View, v': View)
    requires Shape(v.fds) && r < NUM_PROCS
  {
    && FirstFree(v.fds[r], i)
    && var file := if found.Found? then found.file else v.fds[r][i].file;
    && v'.fds == SetFd(v.fds, r, i, Fd(true, flags, file, 0))
    && if found.Found? && (file.kind == Directory <==> dir) then x == i && v'.files == Raised(v.files, file)
       else
         && x == -1
         && v'.files == if (file.kind == Directory <==>
           dir) || file.kind == Device then v.files else v.files - {file.super}
  }

  /** What a call on descriptors, returning `x`, does to the open files. */
  ghost predicate FdsAfter(op: Op, x: int, v: View, v': View) {
    && Shape(v.fds) && v.running < NUM_PROCS
    && var r, own := v.running, v.fds[v.running];
    match op
    case Open(flags, dir, found) =>
      if forall i: nat :: !FirstFree(own, i) then x == -1 && v'.fds == v.fds && v'.files == v.files
      else exists i: nat :: OpenedAt(i, flags, dir, found, x, r, v, v')
    case Close(fd) =>
      && fd < NUM_FILES
      && if !own[fd].occupied then x == -1 && v'.fds == v.fds && v'.files == v.files
         else
           && x == 0 && v'.fds == SetFd(v.fds, r, fd, own[fd].(occupied := false))
           && v'.files == Lowered(v.files, own[fd].file)
    case Dup(fd) =>
      && fd < NUM_FILES
      && if !own[fd].occupied || forall i: nat :: !FirstFree(own,
        i) then x == -1 && v'.fds == v.fds && v'.files == v.files
         else
           && x == 0 && v'.files == Raised(v.files, own[fd].file)
           && exists i: nat :: FirstFree(own, i) && v'.fds == SetFd(v.fds, r, i, own[fd])
    case Dup3(from, to, mask) =>
      && from < NUM_FILES && to < NUM_FILES
      && if !own[from].occupied then x == -1 && v'.fds == v.fds && v'.files == v.files
         else
           && x == 0 && v'.files == Retargeted(v.files, own, from, to)
           && v'.fds == SetFd(v.fds, r, to, own[from].(occupied := from != to, flags := Masked(own[from].flags, mask)))
    case _ => false
  }

  /** A call on descriptors returns `x`. */
  ghost predicate Handles(op: Op, x: int, t: seq<Pcb>, v: View, v': View) {
    Comes(t, x, With(v, v'), v') && FdsAfter(op, x, v, v')
  }

  ghost predicate Waits(t: seq<Pcb>, c: nat, v: View, v': View)
    requires v.running < |t| && c < |t|
  {
    if t[c].status == Zombie then Comes(AfterReap(t, c), 0, v, v')
    else Goes(AfterBlock(t, v.running, c), v.(lost := if t[c].status == Unused then v.lost + {v.running} else v.lost),
      v')
  }

  lemma WaitsFrom(t: seq<Pcb>, c: nat, v: View, v0: View, v': View)
    requires v.running < |t| && c < |t| && Waits(t, c, v, v') && v == v0.(table := v.table)
    ensures Waits(t, c, v0, v')
  {
  }

  lemma WaitEffect(pid: int, c: nat, v: View, v': View)
    requires v.running < |v.table| && c != v.running && Match(v.table, v.running, pid, c)
    requires Waits(AfterTrap(v.table, v.running), c, v, v')
    requires forall i: nat :: Match(v.table, v.running, pid, i) ==> i == c
    ensures Effect(Wait(pid), v, v') && v'.lost == (if Stale(Wait(pid), v) then v.lost + {v.running} else v.lost)
  {
    assert Match(AfterTrap(v.table, v.running), v.running, pid, c);
  }

  lemma ReapWaits(c: nat, v: View, v': View)
    requires v.running < |v.table| && c < |v.table| && v.table[c].status == Zombie &&
      Comes(AfterReap(v.table, c), 0, v, v')
    ensures Waits(v.table, c, v, v')
  {
  }

  lemma NoMatchEffect(pid: int, v: View, v': View)
    requires v.running < |v.table| && Comes(AfterTrap(v.table, v.running), -1, v, v')
    requires forall i: nat :: !Match(v.table, v.running, pid, i)
    ensures Effect(Wait(pid), v, v') && !Stale(Wait(pid), v)
  {
    assert forall i: nat :: Match(AfterTrap(v.table, v.running), v.running, pid, i) ==>
      Match(v.table, v.running, pid, i);
  }

  /** What an operation of the running process does. */
  ghost predicate Effect(op: Op, v: View, v': View) {
    && v.running < |v.table|
    && var r, t := v.running, AfterTrap(v.table, v.running);
    match op
    case Yield => Goes(t, v, v')
    case Fork => if AllUsed(t) then Comes(t, -1, v, v') else exists c: nat :: Forks(t, c, v, v')
    case Exit(x) =>
      if t[r].waited then
        && t[r].parent.Some? && IsBlocked(t, t[r].parent.value) && ClosedFds(v'.fds, v.fds, r)
        && Goes(AfterWake(t, r, t[r].parent.value, x), With(v, v'), v')
      else ClosedFds(v'.fds, v.fds, r) && Goes(AfterZombie(t, r, x), With(v, v'), v')
    case Wait(pid) =>
      if forall c: nat :: !Match(t, r, pid, c) then Comes(t, -1, v, v')
      else exists c: nat :: c != r && Match(t, r, pid, c) && Waits(t, c, v, v')
    case Exec(_, _, argc) => Comes(t, argc, v, v')
    case _ => exists x: int :: Handles(op, x, t, v, v')
  }

  /** A wait that matched a slot already reaped. */
  ghost predicate Stale(op: Op, v: View) {
    op.Wait? && exists c: nat :: Match(v.table, v.running, op.pid, c) && v.table[c].status == Unused
  }

  /** The states of a run of `ops`, which ends early only by halting: no operation in it was refused
      or broke the counts. */
  ghost predicate Trail(ops: seq<Op>, trail: seq<View>) {
    && 0 < |trail| <= |ops| + 1
    && forall k: nat :: k + 1 < |trail| ==>
         && !trail[k].halted && Effect(ops[k], trail[k], trail[k + 1])
         && Acceptable(ops[k], trail[k].files) && !Miscounts(ops[k], Own(trail[k])) && !Spent(ops[k], trail[k])
  }

  // ----- what steps keep -----

  /** Everyone but `r` who was READY still is, with the same result to be returned. */
  ghost predicate Keeps(t: seq<Pcb>, t': seq<Pcb>, r: nat) {
    |t'| == |t| && forall q: nat :: IsReady(t, q) && q != r ==> IsReady(t', q) && t'[q].x10 == t[q].x10
  }

  /** One operation, with at most one call of the scheduler at its end, which sees `mid`. */
  ghost predicate Advanced(v: View, v': View) {
    || (v'.tables == v.tables && v'.picks == v.picks && v'.running == v.running && Keeps(v.table, v'.table, v.running))
    || exists mid: seq<Pcb> :: Called(mid, v, v')
  }

  ghost predicate Called(mid: seq<Pcb>, v: View, v': View) {
    && v'.tables == v.tables + [mid] && v'.picks == v.picks + [v'.running] && Keeps(v.table, mid, v.running)
    && v'.running < |mid| && v'.table == AfterRun(mid, v'.running)
  }

  lemma GoesAdvances(t: seq<Pcb>, v: View, v0: View, v': View)
    requires Keeps(v0.table, t, v0.running) && Goes(t, v, v') &&
      v == v0.(lost := v.lost, fds := v.fds, files := v.files)
    ensures Advanced(v0, v')
  {
    if !v'.halted || v.halted { assert (exists q: nat :: IsReady(t, q)) ==> Called(t, v0, v'); }
  }

  lemma EffectAdvances(op: Op, v: View, v': View)
    requires Effect(op, v, v')
    ensures Advanced(v, v')
  {
    hide Goes, Advanced;
    var r, t := v.running, AfterTrap(v.table, v.running);
    match op
    case Yield => GoesAdvances(t, v, v, v');
    case Fork => ForkAdvances(t, v, v');
    case Exit(x) =>
      GoesAdvances(if t[r].waited then AfterWake(t, r, t[r].parent.value, x)
        else AfterZombie(t, r, x), With(v, v'), v, v');
    case Wait(pid) =>
      if exists c: nat :: Match(t, r, pid, c) {
        var c: nat :| c != r && Match(t, r, pid, c) && Waits(t, c, v, v');
        if t[c].status == Zombie { ComesAdvances(AfterReap(t, c), 0, v, v, v'); }
        else { GoesAdvances(AfterBlock(t, r, c), v.(lost := if t[c].status == Unused then v.lost + {r} else v.lost), v,
          v'); }
      } else {
        ComesAdvances(t, -1, v, v, v');
      }
    case Exec(_, _, argc) => ComesAdvances(t, argc, v, v, v');
    case _ =>
      var x: int :| Handles(op, x, t, v, v');
      ComesAdvances(t, x, With(v, v'), v, v');
  }

  lemma ForkAdvances(t: seq<Pcb>, v: View, v': View)
    requires v.running < |v.table| && t == AfterTrap(v.table, v.running)
    requires if AllUsed(t) then Comes(t, -1, v, v') else exists c: nat :: Forks(t, c, v, v')
    ensures Advanced(v, v')
  {
  }

  lemma ComesAdvances(t: seq<Pcb>, x: int, v: View, v0: View, v': View)
    requires Comes(t, x, v, v') && Keeps(v.table, t, v.running) && v == v0.(fds := v.fds, files := v.files)
    ensures Advanced(v0, v')
  {
  }

  /** What holds of a READY process `q` since the history had the length `from`: it was chosen,
      or it has been READY at every call since and its result is unchanged. */
  ghost predicate Awaits(q: nat, x: int, from: nat, v: View) {
    && from <= |v.tables| && |v.picks| == |v.tables| + 1
    && (q in v.picks[from + 1..]
        || (AlwaysReady(v.tables[from..], q) && IsReady(v.table, q) && q != v.running && v.table[q].x10 == x))
  }

  lemma AwaitsOn(q: nat, x: int, from: nat, v: View, v': View)
    requires Awaits(q, x, from, v) && Advanced(v, v')
    ensures Awaits(q, x, from, v')
  {
    if !(v'.tables == v.tables && v'.picks == v.picks && v'.running == v.running &&
      Keeps(v.table, v'.table, v.running)) {
      var mid :| Called(mid, v, v');
      assert v'.picks[from + 1..] == v.picks[from + 1..] + [v'.running] &&
        v'.tables[from..] == v.tables[from..] + [mid];
    }
  }

  /** In every run, a process READY at the start and not running is chosen, or stays READY with
      its result unchanged. */
  lemma {:induction false} TrailAwaits(ops: seq<Op>, trail: seq<View>, q: nat, k: nat)
    requires Trail(ops, trail) && k < |trail| && |trail[0].picks| == |trail[0].tables| + 1
    requires IsReady(trail[0].table, q) && q != trail[0].running
    ensures Awaits(q, trail[0].table[q].x10, |trail[0].tables|, trail[k])
  {
    hide Effect, Advanced;
    if k > 0 {
      TrailAwaits(ops, trail, q, k - 1);
      assert Effect(ops[k - 1], trail[k - 1], trail[k - 1 + 1]);
      EffectAdvances(ops[k - 1], trail[k - 1], trail[k]);
      AwaitsOn(q, trail[0].table[q].x10, |trail[0].tables|, trail[k - 1], trail[k]);
    }
  }

  /** It is chosen within 256 calls of the scheduler. */
  lemma TrailFair(ops: seq<Op>, trail: seq<View>, q: nat, k: nat)
    requires Trail(ops, trail) && k < |trail| && |trail[0].picks| == |trail[0].tables| + 1
    requires IsReady(trail[0].table, q) && q != trail[0].running && q < NUM_PROCS
    requires Scheduled(trail[k].tables, trail[k].picks) && |trail[k].tables| >= |trail[0].tables| + NUM_PROCS
    ensures q in trail[k].picks[|trail[0].tables| + 1..]
  {
    hide Trail;
    TrailAwaits(ops, trail, q, k);
    var tables, picks, from := trail[k].tables, trail[k].picks, |trail[0].tables|;
    if AlwaysReady(tables[from..], q) {
      assert tables[from..][..NUM_PROCS] == tables[from..from + NUM_PROCS];
      var j := FairWithin256(tables, picks, from, q);
      assert picks[from + 1..][j - from - 1] == q;
    }
  }

  /** Every process READY in `v` and not running has been chosen by `v'`, or has been READY all the
      time with its result unchanged; after 256 calls of the scheduler it has been chosen. */
  ghost predicate Fairly(v: View, v': View) {
    forall q: nat :: IsReady(v.table, q) && q != v.running ==>
      && Awaits(q, v.table[q].x10, |v.tables|, v')
      && (|v'.tables| >= |v.tables| + NUM_PROCS ==> q in v'.picks[|v.tables| + 1..])
  }

  /** What every run of the machine comes to. */
  lemma TrailEnds(ops: seq<Op>, trail: seq<View>, k: nat)
    requires Trail(ops, trail) && k < |trail| && Chosen(trail[0]) && |trail[0].table| == NUM_PROCS
    requires Scheduled(trail[k].tables, trail[k].picks)
    ensures Fairly(trail[0], trail[k]) && trail[0].lost <= trail[k].lost
    ensures (forall i: nat :: i < k ==> !Stale(ops[i], trail[i])) ==> trail[k].lost == trail[0].lost
  {
    hide Trail, Awaits;
    TrailLost(ops, trail, k);
    forall q: nat | IsReady(trail[0].table, q) && q != trail[0].running
      ensures Awaits(q, trail[0].table[q].x10, |trail[0].tables|, trail[k])
      ensures |trail[k].tables| >= |trail[0].tables| + NUM_PROCS ==> q in trail[k].picks[|trail[0].tables| + 1..]
    {
      TrailAwaits(ops, trail, q, k);
      if |trail[k].tables| >= |trail[0].tables| + NUM_PROCS { TrailFair(ops, trail, q, k); }
    }
  }

  /** The running process is the last one chosen. */
  predicate Chosen(v: View) {
    |v.picks| == |v.tables| + 1 && v.picks[|v.tables|] == v.running
  }

  /** `j` has a process in both tables, with the same process id. */
  predicate StaysLive(t: seq<Pcb>, t': seq<Pcb>, j: nat) {
    Live(t, j) && Live(t', j) && t'[j].pid == t[j].pid
  }

  lemma GoesLive(t0: seq<Pcb>, t: seq<Pcb>, v: View, v': View, j: nat)
    requires Goes(t, v, v') && StaysLive(t0, t, j)
    ensures StaysLive(t0, v'.table, j)
  {
  }

  lemma ComesLive(t0: seq<Pcb>, t: seq<Pcb>, x: int, v: View, v': View, j: nat)
    requires Comes(t, x, v, v') && StaysLive(t0, t, j)
    ensures StaysLive(t0, v'.table, j)
  {
  }

  /** A step ends or replaces no process but the running one. */
  lemma EffectLive(op: Op, v: View, v': View, j: nat)
    requires Effect(op, v, v') && Live(v.table, j) && j != v.running
    ensures StaysLive(v.table, v'.table, j)
  {
    hide Goes, Comes;
    var r, t := v.running, AfterTrap(v.table, v.running);
    match op
    case Yield => GoesLive(v.table, t, v, v', j);
    case Fork =>
      if AllUsed(t) { ComesLive(v.table, t, -1, v, v', j); } else { var c: nat :| Forks(t, c, v, v'); }
    case Exit(x) =>
      GoesLive(v.table, if t[r].waited then AfterWake(t, r, t[r].parent.value, x)
        else AfterZombie(t, r, x), With(v, v'), v', j);
    case Wait(pid) =>
      if exists c: nat :: Match(t, r, pid, c) {
        var c: nat :| c != r && Match(t, r, pid, c) && Waits(t, c, v, v');
        if t[c].status == Zombie { ComesLive(v.table, AfterReap(t, c), 0, v, v', j); }
        else { GoesLive(v.table, AfterBlock(t, r, c),
          v.(lost := if t[c].status == Unused then v.lost + {r} else v.lost), v', j); }
      } else {
        ComesLive(v.table, t, -1, v, v', j);
      }
    case Exec(_, _, argc) => ComesLive(v.table, t, argc, v, v', j);
    case _ =>
      var x: int :| Handles(op, x, t, v, v');
      ComesLive(v.table, t, x, With(v, v'), v', j);
  }

  lemma EffectChosen(op: Op, v: View, v': View)
    requires Effect(op, v, v') && Chosen(v)
    ensures Chosen(v') && v.picks <= v'.picks && |v.tables| <= |v'.tables|
  {
    hide Effect, Keeps;
    EffectAdvances(op, v, v');
  }

  lemma {:induction false} TrailChosen(ops: seq<Op>, trail: seq<View>, k: nat)
    requires Trail(ops, trail) && k < |trail| && Chosen(trail[0])
    ensures Chosen(trail[k]) && trail[0].picks <= trail[k].picks
  {
    hide Effect;
    if k > 0 {
      TrailChosen(ops, trail, k - 1);
      assert Effect(ops[k - 1], trail[k - 1], trail[k - 1 + 1]);
      EffectChosen(ops[k - 1], trail[k - 1], trail[k]);
    }
  }

  /** Slot `j` has a process that has not run since the history had the length it has in `v`. */
  ghost predicate Slept(j: nat, v: View, v': View) {
    && Live(v.table, j) && j != v.running && Chosen(v) && Chosen(v') && v.picks <= v'.picks
    && j !in v'.picks[|v.picks|..]
  }

  /** A process that did not run is still there at the end of the run. */
  lemma {:induction false} TrailLive(ops: seq<Op>, trail: seq<View>, k: nat, j: nat)
    requires Trail(ops, trail) && k < |trail| && Slept(j, trail[0], trail[k])
    ensures StaysLive(trail[0].table, trail[k].table, j) && j != trail[k].running
    ensures k > 0 ==> Slept(j, trail[0], trail[k - 1])
  {
    hide Effect;
    if k > 0 {
      SleptBefore(ops, trail, k, j);
      TrailLive(ops, trail, k - 1, j);
      EffectLive(ops[k - 1], trail[k - 1], trail[k], j);
    }
    var n := |trail[k].picks| - 1;
    if n >= |trail[0].picks| { assert trail[k].picks[|trail[0].picks|..][n - |trail[0].picks|] == trail[k].running; }
  }

  lemma SleptBefore(ops: seq<Op>, trail: seq<View>, k: nat, j: nat)
    requires Trail(ops, trail) && 0 < k < |trail| && Slept(j, trail[0], trail[k])
    ensures Slept(j, trail[0], trail[k - 1]) && Effect(ops[k - 1], trail[k - 1], trail[k])
  {
    hide Effect;
    TrailChosen(ops, trail, k - 1);
    assert Effect(ops[k - 1], trail[k - 1], trail[k - 1 + 1]);
    EffectChosen(ops[k - 1], trail[k - 1], trail[k]);
    var n := |trail[0].picks|;
    forall x | x in trail[k - 1].picks[n..] ensures x in trail[k].picks[n..] {
      var i :| 0 <= i < |trail[k - 1].picks[n..]| && trail[k - 1].picks[n..][i] == x;
      assert trail[k].picks[n..][i] == x;
    }
  }

  /** Nobody is lost without a wait for a child already reaped. */
  lemma EffectLost(op: Op, v: View, v': View)
    requires Effect(op, v, v')
    ensures v.lost <= v'.lost <= v.lost + {v.running}
    ensures !Stale(op, v) ==> v'.lost == v.lost
  {
    hide Nearest;
    match op
    case Wait(pid) =>
      var r, t := v.running, AfterTrap(v.table, v.running);
      if exists c: nat :: Match(t, r, pid, c) {
        var c: nat :| c != r && Match(t, r, pid, c) && Waits(t, c, v, v');
        if t[c].status == Unused { assert Match(v.table, r, pid, c); }
      }
    case _ =>
  }

  lemma {:induction false} TrailLost(ops: seq<Op>, trail: seq<View>, k: nat)
    requires Trail(ops, trail) && k < |trail|
    ensures trail[0].lost <= trail[k].lost
    ensures (forall i: nat :: i < k ==> !Stale(ops[i], trail[i])) ==> trail[k].lost == trail[0].lost
  {
    hide Effect, Stale;
    if k > 0 {
      TrailLost(ops, trail, k - 1);
      assert Effect(ops[k - 1], trail[k - 1], trail[k - 1 + 1]);
      EffectLost(ops[k - 1], trail[k - 1], trail[k]);
    }
  }

  lemma TrailMore(ops: seq<Op>, trail: seq<View>, v: View)
    requires Trail(ops, trail) && |trail| <= |ops| && !trail[|trail| - 1].halted
    requires Effect(ops[|trail| - 1], trail[|trail| - 1], v) && !Spent(ops[|trail| - 1], trail[|trail| - 1])
    requires Acceptable(ops[|trail| - 1], trail[|trail| - 1].files) &&
      !Miscounts(ops[|trail| - 1], Own(trail[|trail| - 1]))
    ensures Trail(ops, trail + [v])
  {
    hide Effect;
  }

  // ----- what is refused, and which calls the reference counts do not survive -----

  /** Calls outside this model: descriptor numbers and segments the kernel does not check, and a
      lookup that yields a file already open. */
  predicate Acceptable(op: Op, files: map<nat, nat>) {
    match op
    case Exec(segs, _, _) => Loadable(segs)
    case Open(_, _, found) => found.Found? && found.file.kind != Device ==> found.file.super !in files
    case Close(fd) => fd < NUM_FILES
    case Dup(fd) => fd < NUM_FILES
    case Dup3(from, to, _) => from < NUM_FILES && to < NUM_FILES
    case _ => true
  }

  /** A fork that needs a process id when there is none left: the counter is an `int`. */
  predicate Spent(op: Op, v: View) {
    op.Fork? && v.next >= PID_MAX && !AllUsed(v.table)
  }

  /** An open that fails after it took a descriptor, which then points to a file without being
      counted, and a dup3 of a counted descriptor onto itself. */
  ghost predicate Miscounts(op: Op, own: seq<Fd>) {
    match op
    case Open(_, dir, found) =>
      exists i: nat :: FirstFree(own, i)
        && (if found.Found? then (found.file.kind == Directory <==> !dir) && found.file.kind != Device
            else own[i].file.kind != Device)
    case Dup3(from, to, _) => from == to && from < |own| && own[from].occupied && own[from].file.kind != Device
    case _ => false
  }

  // ----- memory -----

  /** Every process that is there before and after, except that of slot `r`, has the memory it had. */
  ghost predicate Undisturbed(procs': seq<Proc>, procs: seq<Proc>, used': set<nat>, used: set<nat>, r: nat, t': Snap,
                              t: Snap)
  {
    forall j: nat {:trigger InUse(used, j)} :: InUse(used, j) && InUse(used', j) && j != r ==>
      Same(procs', procs, j, t', t)
  }

  ghost predicate Same(procs': seq<Proc>, procs: seq<Proc>, j: nat, t': Snap, t: Snap) {
    j < |procs| && j < |procs'| && procs'[j] == procs[j] && SameMemory(t', t, procs[j].space)
  }

  lemma IsolatedOthers(procs': seq<Proc>, procs: seq<Proc>, used': set<nat>, used: set<nat>, r: nat, id: nat, t': Snap,
                       t: Snap)
    requires Isolated(procs', used, id, t', t) && |procs'| == |procs| && (id == r || id !in used || id !in used')
    requires forall j: nat :: j < |procs| && j != id ==> procs'[j] == procs[j]
    ensures Undisturbed(procs', procs, used', used, r, t', t)
  {
    hide SameMemory;
    forall j: nat | InUse(used, j) && InUse(used', j) && j != r ensures Same(procs', procs, j, t', t) { }
  }

  lemma NobodyMoved(procs: seq<Proc>, used': set<nat>, used: set<nat>, r: nat, t: Snap)
    requires forall j: nat :: j in used ==> j < |procs|
    ensures Undisturbed(procs, procs, used', used, r, t, t)
  {
  }

  lemma SameTwice(procs0: seq<Proc>, procs1: seq<Proc>, procs2: seq<Proc>, j: nat, t0: Snap, t1: Snap, t2: Snap)
    requires Same(procs1, procs0, j, t1, t0) && Same(procs2, procs1, j, t2, t1)
    ensures Same(procs2, procs0, j, t2, t0)
  {
    SameMemoryTrans(t0, t1, t2, procs0[j].space);
  }

  /** Whoever slept has the memory it had. */
  ghost predicate KeptSlept(v: View, v': View, procs': seq<Proc>, procs: seq<Proc>, t': Snap, t: Snap) {
    forall j: nat :: Slept(j, v, v') ==> StaysLive(v.table, v'.table, j) && Same(procs', procs, j, t', t)
  }

  ghost function UsedSlots(t: seq<Pcb>): set<nat> {
    set i: nat | i < |t| && t[i].status != Unused
  }

  lemma StartKept(v: View, procs: seq<Proc>, used: set<nat>, t: Snap)
    requires used == UsedSlots(v.table) && forall j: nat :: j in used ==> j < |procs|
    ensures KeptSlept(v, v, procs, procs, t, t)
  {
    hide SameMemory;
    forall j: nat | Slept(j, v, v) ensures Same(procs, procs, j, t, t) {
      assert j in used;
      SameMemoryRefl(t, procs[j].space);
    }
  }

  lemma SameMemoryRefl(t: Snap, s: Space)
    ensures SameMemory(t, t, s)
  {
  }

  /** One more step keeps the memory of whoever did not run. */
  lemma KeptOn(ops: seq<Op>, trail: seq<View>, k: nat, procs2: seq<Proc>, procs1: seq<Proc>, procs0: seq<Proc>,
               used2: set<nat>, used1: set<nat>, t2: Snap, t1: Snap, t0: Snap)
    requires Trail(ops, trail) && 0 < k < |trail| && KeptSlept(trail[0], trail[k - 1], procs1, procs0, t1, t0)
    requires used1 == UsedSlots(trail[k - 1].table) && used2 == UsedSlots(trail[k].table)
    requires Undisturbed(procs2, procs1, used2, used1, trail[k - 1].running, t2, t1)
    ensures KeptSlept(trail[0], trail[k], procs2, procs0, t2, t0)
  {
    hide Trail, Slept, Same, Effect;
    forall j: nat | Slept(j, trail[0], trail[k])
      ensures StaysLive(trail[0].table, trail[k].table, j) && Same(procs2, procs0, j, t2, t0)
    {
      TrailLive(ops, trail, k, j);
      TrailLive(ops, trail, k - 1, j);
      assert InUse(used1, j) && InUse(used2, j);
      SameTwice(procs0, procs1, procs2, j, t0, t1, t2);
    }
  }

  lemma StartTrail(ops: seq<Op>, v: View)
    ensures Trail(ops, [v])
  {
  }

  // ----- a second wait for the same child -----

  lemma OnlyMatch(t: seq<Pcb>, next: nat, lost: set<nat>, r: nat, pid: int, c: nat)
    requires Sane(t, next, lost) && Match(t, r, pid, c)
    ensures forall i: nat :: Match(t, r, pid, i) ==> i == c
  {
    forall i: nat | Match(t, r, pid, i) ensures i == c { OneMatch(t, next, lost, r, pid, i, c); }
  }

  /** Whatever the state, a second wait for a child that the first one reaped loses the parent. */
  lemma SecondWaitLoses(v: View, v1: View, v2: View, pid: int, c: nat)
    requires InUser(v.table, v.running, v.next, v.lost) && Match(v.table, v.running, pid, c) &&
      v.table[c].status == Zombie
    requires Effect(Wait(pid), v, v1) && Effect(Wait(pid), v1, v2)
    ensures v1.running == v.running && v2.lost == v.lost + {v.running} && IsReady(v1.table, v.running)
  {
    hide Sane, Goes;
    var r, t := v.running, AfterTrap(v.table, v.running);
    assert Match(t, r, pid, c);
    OnlyMatch(t, v.next, v.lost, r, pid, c);
    var c1: nat :| c1 != r && Match(t, r, pid, c1) && Waits(t, c1, v, v1);
    var t' := AfterTrap(v1.table, r);
    assert forall i: nat :: Match(t', r, pid, i) <==> Match(t, r, pid, i);
    var c2: nat :| c2 != r && Match(t', r, pid, c2) && Waits(t', c2, v1, v2);
    GoesLost(AfterBlock(t', r, c2), v1.(lost := v1.lost + {r}), v2);
  }

  lemma GoesLost(t: seq<Pcb>, v: View, v': View)
    requires Goes(t, v, v')
    ensures v'.lost == v.lost
  {
  }

  function NoProcess(): seq<Pcb> {
    seq(NUM_PROCS, _ => Pcb(0, Unused, None, false, 0, 0))
  }

  lemma NoProcessSize()
    ensures |NoProcess()| == NUM_PROCS
  {
  }

  /** A table with a process in slot 0 and its child in slot 1. */
  function Pair(a: Pcb, b: Pcb): seq<Pcb> {
    NoProcess()[0 := a][1 := b]
  }

  function Init(s: Status, x10: int): Pcb {
    Pcb(1, s, None, false, 0, x10)
  }

  function Child(s: Status, waited: bool, code: int): Pcb {
    Pcb(2, s, Some(0), waited, code, 0)
  }

  lemma PairReady(a: Pcb, b: Pcb)
    ensures forall q: nat :: IsReady(Pair(a, b), q) <==> (q == 0 && a.status == Ready) || (q == 1 && b.status == Ready)
  {
  }

  /** The descriptors of slot 1 after a fork from slot 0, and after its exit. */
  function ForkedFds(fds: Fds): Fds
    requires Shape(fds)
  {
    fds[1 := fds[0]]
  }

  function ExitedFds(fds: Fds): Fds
    requires Shape(fds)
  {
    fds[1 := seq(NUM_FILES, i requires 0 <= i < NUM_FILES => fds[0][i].(occupied := false))]
  }

  /** The first process forks, and waits twice for the child, which has exited: the second wait
      matches the slot that was already reaped, and nothing will ever run again. */
  lemma SecondWaitHangs(fds: Fds, files: map<nat, nat>) returns (trail: seq<View>)
    requires Shape(fds)
    ensures Trail([Fork, Yield, Exit(7), Wait(2), Wait(2)], trail) && |trail| == 6
    ensures trail[0] == View(NoProcess()[0 := Init(Running, 0)], 0, 2, false, {}, [], [0], fds, files)
    ensures IsReady(trail[4].table, 0) && trail[4].table[0].x10 == 0 && trail[4].lost == {}
    ensures trail[5].halted && IsBlocked(trail[5].table, 0) && trail[5].lost == {0}
  {
    hide Effect, NoProcess, ForkedFds, ExitedFds;
    NoProcessSize();
    var v0 := View(NoProcess()[0 := Init(Running, 0)], 0, 2, false, {}, [], [0], fds, files);
    var t1 := Pair(Init(Ready, 2), Child(Ready, false, 0));
    var v1 := v0.(table := t1, next := 3, fds := ForkedFds(fds));
    var v2 := v1.(table := AfterRun(t1, 1), running := 1, tables := [t1], picks := [0, 1]);
    var t3 := Pair(Init(Ready, 2), Child(Zombie, false, 7));
    var v3 := v2.(table := AfterRun(t3, 0), running := 0, tables := [t1, t3], picks := [0, 1, 0], fds :=
      ExitedFds(fds));
    var v4 := v3.(table := Pair(Init(Ready, 0), Child(Unused, false, 7)));
    var t5 := Pair(Init(Blocked, 0), Child(Unused, true, 7));
    var v5 := v4.(table := t5, halted := true, lost := {0});
    trail := [v0, v1, v2, v3, v4, v5];
    ForkStep(v0, v1);
    YieldStep(v1, v2, t1);
    ExitStep(v2, v3, t3, fds);
    ReapStep(v3, v4, t3);
    LostStep(v4, v5, t5);
  }

  lemma ForkStep(v0: View, v1: View)
    requires Shape(v0.fds) && v0 == View(NoProcess()[0 := Init(Running, 0)], 0, 2, false, {}, [], [0], v0.fds, v0.files)
    requires v1 == v0.(table := Pair(Init(Ready, 2), Child(Ready, false, 0)), next := 3, fds := ForkedFds(v0.fds))
    ensures Effect(Fork, v0, v1)
  {
    var t := AfterTrap(v0.table, 0);
    assert FirstUnused(t, 1);
    assert v1.table == AfterReturn(AfterFork(t, 0, 1, 2), 0, 2);
    assert Forks(t, 1, v0, v1);
  }

  lemma ExitStep(v2: View, v3: View, t3: seq<Pcb>, fds: Fds)
    requires v2.table == AfterRun(Pair(Init(Ready, 2), Child(Ready, false, 0)), 1) && v2.running == 1
    requires t3 == Pair(Init(Ready, 2), Child(Zombie, false, 7)) && Shape(fds) && v2.fds == ForkedFds(fds)
    requires v3 == v2.(table := AfterRun(t3, 0), running := 0, tables := v2.tables + [t3], picks := v2.picks + [0],
                       fds := ExitedFds(fds))
    ensures Effect(Exit(7), v2, v3)
  {
    var t := AfterTrap(v2.table, 1);
    assert AfterZombie(t, 1, 7) == t3;
    PairReady(Init(Ready, 2), Child(Zombie, false, 7));
    assert IsReady(t3, 0);
  }

  lemma YieldStep(v1: View, v2: View, t1: seq<Pcb>)
    requires t1 == Pair(Init(Ready, 2), Child(Ready, false, 0)) && v1.table == t1 && v1.running == 0
    requires v2 == v1.(table := AfterRun(t1, 1), running := 1, tables := v1.tables + [t1], picks := v1.picks + [1])
    ensures Effect(Yield, v1, v2)
  {
    assert AfterTrap(t1, 0) == t1;
    PairReady(Init(Ready, 2), Child(Ready, false, 0));
    assert IsReady(t1, 1);
  }

  lemma ReapStep(v3: View, v4: View, t3: seq<Pcb>)
    requires t3 == Pair(Init(Ready, 2), Child(Zombie, false, 7)) && v3.table == AfterRun(t3, 0) && v3.running == 0
    requires v4 == v3.(table := Pair(Init(Ready, 0), Child(Unused, false, 7)))
    ensures Effect(Wait(2), v3, v4)
  {
    var t := AfterTrap(v3.table, 0);
    assert t == t3 && Match(t, 0, 2, 1);
    assert v4.table == AfterReturn(AfterReap(t, 1), 0, 0);
    assert Waits(t, 1, v3, v4);
  }

  lemma LostStep(v4: View, v5: View, t5: seq<Pcb>)
    requires t5 == Pair(Init(Blocked, 0), Child(Unused, true, 7)) && v4.running == 0 && v4.lost == {}
    requires v4.table == Pair(Init(Ready, 0), Child(Unused, false, 7)) &&
      v5 == v4.(table := t5, halted := true, lost := {0})
    ensures Effect(Wait(2), v4, v5)
  {
    var t := AfterTrap(v4.table, 0);
    assert t == v4.table && Match(t, 0, 2, 1) && AfterBlock(t, 0, 1) == t5;
    PairReady(Init(Blocked, 0), Child(Unused, true, 7));
    assert Waits(t, 1, v4, v5);
  }
}
