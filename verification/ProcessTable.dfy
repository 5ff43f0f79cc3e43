/**
 * The process table: round-robin scheduling, and the waiting of parents for children.
 *
 * A parent is a slot, as in the source (a pointer into the table), so the parent of a process
 * may have been replaced by another process in the same slot. `lost` is the set of processes
 * that block in `sys_waitpid` without a child that will wake them up.
 */
module ProcessTable {
  import opened Limits
  import opened Paging

  datatype Status = Unused | Ready | Running | Blocked | Zombie | Terminated

  /** The fields of a process control block the state machine uses. `x10` is the register of the
      trap frame in which system calls return their result. */
  datatype Pcb = Pcb(pid: nat, status: Status, parent: Option<nat>, waited: bool, exitCode: int, x10: int)

  predicate IsReady(t: seq<Pcb>, i: nat) {
    i < |t| && t[i].status == Ready
  }

  /** Slot `i` has a process that has not exited. */
  predicate Live(t: seq<Pcb>, i: nat) {
    i < |t| && t[i].status != Unused && t[i].status != Zombie
  }

  predicate IsBlocked(t: seq<Pcb>, p: nat) {
    p < |t| && t[p].status == Blocked
  }

  /** `c` has not exited and slot `p` waits for it. */
  predicate WaitedChild(t: seq<Pcb>, c: nat, p: nat) {
    Live(t, c) && t[c].waited && t[c].parent == Some(p)
  }

  /** What a slot holds while the kernel runs, `next` being the next process id. */
  predicate SlotOk(t: seq<Pcb>, next: nat, i: nat)
    requires i < |t|
  {
    var p := t[i];
    && p.pid < next && (p.pid == 0 ==> p.status == Unused && p.parent.None?)
    && p.status != Running && p.status != Terminated
    && (p.parent.Some? ==> p.parent.value < |t| && p.parent.value != i)
    && (p.status == Zombie ==> !p.waited)
    && (p.waited && Live(t, i) ==> p.parent.Some? && IsBlocked(t, p.parent.value))
  }

  ghost predicate SlotsOk(t: seq<Pcb>, next: nat) {
    forall i: nat :: i < |t| ==> SlotOk(t, next, i)
  }

  /** No two slots ever used have the same process id. */
  ghost predicate Distinct(t: seq<Pcb>) {
    forall i: nat, j: nat :: i < |t| && j < |t| && t[i].pid == t[j].pid && t[i].pid != 0 ==> i == j
  }

  /** A slot has at most one child it waits for. */
  ghost predicate OneEach(t: seq<Pcb>) {
    forall c: nat, d: nat, p: nat :: WaitedChild(t, c, p) && WaitedChild(t, d, p) ==> c == d
  }

  ghost predicate Answered(t: seq<Pcb>, p: nat) {
    exists c: nat :: WaitedChild(t, c, p)
  }

  /** The blocked processes no child will wake up are those of `lost`. */
  ghost predicate LostAre(t: seq<Pcb>, lost: set<nat>) {
    forall p: nat :: p in lost <==> IsBlocked(t, p) && !Answered(t, p)
  }

  /** Between the entry of a trap and the choice of the next process. */
  ghost predicate Sane(t: seq<Pcb>, next: nat, lost: set<nat>) {
    && |t| == NUM_PROCS && next > 0
    && SlotsOk(t, next) && Distinct(t) && OneEach(t) && LostAre(t, lost)
  }

  /** While slot `r` runs in user mode: its status is RUNNING, or READY after a system call that
      did not change the process. */
  ghost predicate InUser(t: seq<Pcb>, r: nat, next: nat, lost: set<nat>) {
    && r < |t| && (t[r].status == Running || t[r].status == Ready)
    && Sane(AfterTrap(t, r), next, lost)
  }

  /** Every blocked process that is not lost has exactly one child that has not exited and is
      flagged, and each such flagged child has a blocked parent. */
  lemma NoLostWakeUp(t: seq<Pcb>, next: nat, lost: set<nat>, p: nat) returns (c: nat)
    requires Sane(t, next, lost) && IsBlocked(t, p) && p !in lost
    ensures WaitedChild(t, c, p) && forall d: nat :: WaitedChild(t, d, p) ==> d == c
  {
    assert Answered(t, p);
    c :| WaitedChild(t, c, p);
  }

  lemma FlaggedHasWaiter(t: seq<Pcb>, next: nat, lost: set<nat>, c: nat)
    requires Sane(t, next, lost) && Live(t, c) && t[c].waited
    ensures t[c].parent.Some? && IsBlocked(t, t[c].parent.value) && t[c].parent.value !in lost
  {
    assert SlotOk(t, next, c) && WaitedChild(t, c, t[c].parent.value);
  }

  // ----- the steps -----

  function AfterTrap(t: seq<Pcb>, r: nat): seq<Pcb>
    requires r < |t|
  {
    t[r := t[r].(status := Ready)]
  }

  /** The system call of `r` returns `x`. */
  function AfterReturn(t: seq<Pcb>, r: nat, x: int): seq<Pcb>
    requires r < |t|
  {
    t[r := t[r].(x10 := x)]
  }

  /** `r` forks a child with id `pid` into slot `c`. */
  function AfterFork(t: seq<Pcb>, r: nat, c: nat, pid: nat): seq<Pcb>
    requires c < |t|
  {
    t[c := Pcb(pid, Ready, Some(r), false, t[c].exitCode, 0)]
  }

  /** `r` exits with `x` and `p` waits for it. */
  function AfterWake(t: seq<Pcb>, r: nat, p: nat, x: int): seq<Pcb>
    requires r < |t| && p < |t|
  {
    t[p := t[p].(status := Ready, x10 := x)][r := t[r].(status := Unused)]
  }

  /** `r` exits with `x` and nobody waits. */
  function AfterZombie(t: seq<Pcb>, r: nat, x: int): seq<Pcb>
    requires r < |t|
  {
    t[r := t[r].(status := Zombie, exitCode := x)]
  }

  function AfterReap(t: seq<Pcb>, c: nat): seq<Pcb>
    requires c < |t|
  {
    t[c := t[c].(status := Unused)]
  }

  /** `r` waits for `c`. */
  function AfterBlock(t: seq<Pcb>, r: nat, c: nat): seq<Pcb>
    requires r < |t| && c < |t|
  {
    var flagged := t[c := t[c].(waited := true)];
    flagged[r := flagged[r].(status := Blocked)]
  }

  function AfterRun(t: seq<Pcb>, k: nat): seq<Pcb>
    requires k < |t|
  {
    t[k := t[k].(status := Running)]
  }

  /** Steps that change no one's waiting keep who waits for whom. */
  lemma SameWaits(t: seq<Pcb>, t': seq<Pcb>, lost: set<nat>)
    requires OneEach(t) && LostAre(t, lost)
    requires forall c: nat, p: nat :: WaitedChild(t', c, p) <==> WaitedChild(t, c, p)
    requires forall p: nat :: IsBlocked(t', p) <==> IsBlocked(t, p)
    ensures OneEach(t') && LostAre(t', lost)
  {
    forall p: nat ensures Answered(t', p) <==> Answered(t, p) {
      if Answered(t, p) { var c: nat :| WaitedChild(t, c, p); assert WaitedChild(t', c, p); }
      if Answered(t', p) { var c: nat :| WaitedChild(t', c, p); assert WaitedChild(t, c, p); }
    }
  }

  lemma ReturnSane(t: seq<Pcb>, next: nat, lost: set<nat>, r: nat, x: int)
    requires Sane(t, next, lost) && IsReady(t, r)
    ensures Sane(AfterReturn(t, r, x), next, lost)
  {
    var t' := AfterReturn(t, r, x);
    SameWaits(t, t', lost);
    forall i: nat | i < |t'| ensures SlotOk(t', next, i) { assert SlotOk(t, next, i); }
  }

  lemma ForkSane(t: seq<Pcb>, next: nat, lost: set<nat>, r: nat, c: nat)
    requires Sane(t, next, lost) && IsReady(t, r) && c < |t| && t[c].status == Unused
    ensures Sane(AfterFork(t, r, c, next), next + 1, lost)
  {
    var t', after := AfterFork(t, r, c, next), next + 1;
    SameWaits(t, t', lost);
    forall i: nat | i < |t'| ensures SlotOk(t', after, i) && (i != c ==> t'[i].pid < next) {
      assert SlotOk(t, next, i);
    }
  }

  /** The exit of a waited child wakes its parent up with the exit status; nobody else's waiting
      changes. */
  lemma WakeSane(t: seq<Pcb>, next: nat, lost: set<nat>, r: nat, x: int)
    requires Sane(t, next, lost) && IsReady(t, r) && t[r].waited
    ensures t[r].parent.Some? && IsBlocked(t, t[r].parent.value) && t[r].parent.value != r
    ensures var p := t[r].parent.value; var t' := AfterWake(t, r, p, x);
            Sane(t', next, lost) && IsReady(t', p) && t'[p].x10 == x
  {
    assert SlotOk(t, next, r);
    var p := t[r].parent.value;
    var t' := AfterWake(t, r, p, x);
    assert WaitedChild(t, r, p);
    forall c: nat, q: nat ensures WaitedChild(t', c, q) <==> WaitedChild(t, c, q) && q != p {
      if WaitedChild(t, c, p) { assert c == r; }
    }
    forall q: nat ensures Answered(t', q) <==> Answered(t, q) && q != p {
      if Answered(t, q) && q != p { var c: nat :| WaitedChild(t, c, q); assert WaitedChild(t', c, q); }
      if Answered(t', q) { var c: nat :| WaitedChild(t', c, q); assert WaitedChild(t, c, q); }
    }
    forall i: nat | i < |t'| ensures SlotOk(t', next, i) {
      assert SlotOk(t, next, i);
      if t'[i].waited && Live(t', i) { assert WaitedChild(t', i, t'[i].parent.value); }
    }
  }

  lemma ZombieSane(t: seq<Pcb>, next: nat, lost: set<nat>, r: nat, x: int)
    requires Sane(t, next, lost) && IsReady(t, r) && !t[r].waited
    ensures Sane(AfterZombie(t, r, x), next, lost)
  {
    var t' := AfterZombie(t, r, x);
    SameWaits(t, t', lost);
    forall i: nat | i < |t'| ensures SlotOk(t', next, i) { assert SlotOk(t, next, i); }
  }

  lemma ReapSane(t: seq<Pcb>, next: nat, lost: set<nat>, c: nat)
    requires Sane(t, next, lost) && c < |t| && t[c].status == Zombie
    ensures Sane(AfterReap(t, c), next, lost)
  {
    var t' := AfterReap(t, c);
    SameWaits(t, t', lost);
    forall i: nat | i < |t'| ensures SlotOk(t', next, i) { assert SlotOk(t, next, i); }
  }

  /** Waiting for a child that has not exited blocks the parent until that child exits. Waiting
      for a child that was already reaped loses the parent. */
  lemma BlockSane(t: seq<Pcb>, next: nat, lost: set<nat>, r: nat, c: nat)
    requires Sane(t, next, lost) && IsReady(t, r) && c < |t| && t[c].parent == Some(r) && t[c].status != Zombie
    ensures c != r && Sane(AfterBlock(t, r, c), next, if t[c].status == Unused then lost + {r} else lost)
  {
    assert SlotOk(t, next, c);
    var t' := AfterBlock(t, r, c);
    forall d: nat ensures !WaitedChild(t, d, r) {
      if d < |t| { assert SlotOk(t, next, d); }
    }
    forall d: nat, q: nat ensures WaitedChild(t', d, q) <==> WaitedChild(t, d, q) || (d == c && q == r && Live(t, c)) {}
    forall q: nat ensures Answered(t', q) <==> Answered(t, q) || (q == r && Live(t, c)) {
      if Answered(t, q) { var d: nat :| WaitedChild(t, d, q); assert WaitedChild(t', d, q); }
      if Answered(t', q) { var d: nat :| WaitedChild(t', d, q); assert WaitedChild(t, d, q) || d == c; }
      if q == r && Live(t, c) { assert WaitedChild(t', c, q); }
    }
    forall i: nat | i < |t'| ensures SlotOk(t', next, i) { assert SlotOk(t, next, i); }
  }

  lemma RunUser(t: seq<Pcb>, next: nat, lost: set<nat>, k: nat)
    requires Sane(t, next, lost) && IsReady(t, k)
    ensures InUser(AfterRun(t, k), k, next, lost)
  {
    assert AfterTrap(AfterRun(t, k), k) == t;
  }

  /** At most one slot is a child of `r` with process id `pid`. */
  lemma OneMatch(t: seq<Pcb>, next: nat, lost: set<nat>, r: nat, pid: nat, i: nat, j: nat)
    requires Sane(t, next, lost) && i < |t| && j < |t|
    requires t[i].pid == pid && t[i].parent == Some(r) && t[j].pid == pid && t[j].parent == Some(r)
    ensures i == j
  {
    assert SlotOk(t, next, i);
  }

  /** If the scheduler finds nobody, all have exited, or some are lost, or some process waits for
      one with a smaller process id. */
  lemma NobodyReady(t: seq<Pcb>, next: nat, lost: set<nat>, p: nat)
    requires Sane(t, next, lost) && lost == {} && (forall i: nat :: !IsReady(t, i)) && IsBlocked(t, p)
    ensures exists c: nat, q: nat :: WaitedChild(t, c, q) && IsBlocked(t, q) && t[c].pid < t[q].pid
    decreases next - t[p].pid
  {
    var c := NoLostWakeUp(t, next, lost, p);
    assert SlotOk(t, next, c) && SlotOk(t, next, p) && !IsReady(t, c);
    if t[c].pid > t[p].pid { NobodyReady(t, next, lost, c); }
    else { assert t[c].pid != t[p].pid; }
  }

  // ----- the scheduler -----

  /** How many slots are looked at before `k` when the scan starts behind `r`. */
  function Distance(r: nat, k: nat): nat
    requires r < NUM_PROCS && k < NUM_PROCS
  {
    if k > r then k - r - 1 else k + NUM_PROCS - 1 - r
  }

  /** The scan goes upward and wraps around: slot r + 1 + d modulo 256 is looked at after d
      others, and every slot is reached so. */
  lemma DistanceUpward(r: nat, d: nat)
    requires r < NUM_PROCS && d < NUM_PROCS
    ensures Distance(r, (r + 1 + d) % 256) == d
    ensures forall k: nat {:trigger Distance(r, k)} :: k < NUM_PROCS ==> Distance(r, k) == (k - r - 1) % 256
  {
    var n := r + 1 + d;
    if n < NUM_PROCS { assert n % 256 == n; } else { assert n % 256 == n - 256; }
    forall k: nat | k < NUM_PROCS ensures Distance(r, k) == (k - r - 1) % 256 {
      if k > r { assert (k - r - 1) % 256 == k - r - 1; } else { assert (k - r - 1) % 256 == k - r - 1 + 256; }
    }
  }

  /** `k` is the READY slot nearest behind `r`, `r` itself being the farthest. */
  ghost predicate Nearest(t: seq<Pcb>, r: nat, k: nat) {
    && |t| == NUM_PROCS && r < NUM_PROCS && IsReady(t, k)
    && forall q: nat :: IsReady(t, q) ==> Distance(r, k) <= Distance(r, q)
  }

  /** A history of scheduler calls: `tables` are the process tables they saw, and `picks` the
      running slot before each call and after the last. */
  ghost predicate Scheduled(tables: seq<seq<Pcb>>, picks: seq<nat>) {
    && |picks| == |tables| + 1 && picks[0] < NUM_PROCS
    && forall j: nat :: j < |tables| ==> Nearest(tables[j], picks[j], picks[j + 1])
  }

  ghost predicate AlwaysReady(tables: seq<seq<Pcb>>, q: nat) {
    forall j: nat :: j < |tables| ==> IsReady(tables[j], q)
  }

  lemma ScheduledMore(tables: seq<seq<Pcb>>, picks: seq<nat>, t: seq<Pcb>, k: nat)
    requires Scheduled(tables, picks) && Nearest(t, picks[|tables|], k)
    ensures Scheduled(tables + [t], picks + [k])
  {
  }

  lemma ScheduledPart(tables: seq<seq<Pcb>>, picks: seq<nat>, a: nat, b: nat)
    requires Scheduled(tables, picks) && a <= b <= |tables|
    ensures Scheduled(tables[a..b], picks[a..b + 1])
  {
    assert a > 0 ==> Nearest(tables[a - 1], picks[a - 1], picks[a - 1 + 1]);
  }

  /** A process that is READY at every call of the scheduler comes nearer at each call. */
  lemma {:induction false} Fair(tables: seq<seq<Pcb>>, picks: seq<nat>, q: nat)
    requires Scheduled(tables, picks) && q < NUM_PROCS && AlwaysReady(tables, q) && |tables| > Distance(picks[0], q)
    ensures q in picks[1..]
    decreases Distance(picks[0], q)
  {
    assert Nearest(tables[0], picks[0], picks[0 + 1]);
    if picks[1] != q {
      ScheduledPart(tables, picks, 1, |tables|);
      assert tables[1..|tables|] == tables[1..] && picks[1..|tables| + 1] == picks[1..];
      Fair(tables[1..], picks[1..], q);
    }
  }

  /** In every run, a process that is READY at 256 calls of the scheduler in a row is chosen by
      one of them. */
  lemma FairWithin256(tables: seq<seq<Pcb>>, picks: seq<nat>, from: nat, q: nat) returns (j: nat)
    requires Scheduled(tables, picks) && q < NUM_PROCS && from + NUM_PROCS <= |tables|
    requires AlwaysReady(tables[from..from + NUM_PROCS], q)
    ensures from < j <= from + NUM_PROCS && picks[j] == q
  {
    var some, after := tables[from..from + NUM_PROCS], picks[from..from + NUM_PROCS + 1];
    ScheduledPart(tables, picks, from, from + NUM_PROCS);
    Fair(some, after, q);
    var i :| 0 <= i < |after[1..]| && after[1..][i] == q;
    j := from + 1 + i;
  }

  /** The scan of `schedule`. None means that nobody is READY. */
  method Choose(t: seq<Pcb>, r: nat) returns (k: Option<nat>)
    requires |t| == NUM_PROCS && r < NUM_PROCS
    ensures k.None? <==> forall q: nat :: !IsReady(t, q)
    ensures k.Some? ==> Nearest(t, r, k.value)
    ensures k.Some? ==> forall q: nat :: IsReady(t, q) ==> (k.value - r - 1) % 256 <= (q - r - 1) % 256
  {
    var target: nat, flag := (r + 1) % NUM_PROCS, false;
    ghost var d: nat := 0;
    while !flag || target != (r + 1) % NUM_PROCS
      invariant target < NUM_PROCS && d <= NUM_PROCS && (flag <==> d == NUM_PROCS)
      invariant d == NUM_PROCS ==> target == (r + 1) % NUM_PROCS
      invariant d < NUM_PROCS ==> Distance(r, target) == d
      invariant forall q: nat :: IsReady(t, q) ==> Distance(r, q) >= d
      decreases NUM_PROCS - d
    {
      if t[target].status == Ready {
        assert IsReady(t, target);
        DistanceUpward(r, d);
        return Some(target);
      }
      if target == r { flag := true; }
      target := (target + 1) % NUM_PROCS;
      d := d + 1;
    }
    k := None;
  }

  /** With slot 0 running and slots 1 and 2 READY, slot 1 runs next. */
  lemma LowerFirst(t: seq<Pcb>, k: nat)
    requires |t| == NUM_PROCS && IsReady(t, 1) && IsReady(t, 2) && Nearest(t, 0, k)
    ensures k == 1
  {
    assert Distance(0, k) <= Distance(0, 1);
  }
}
