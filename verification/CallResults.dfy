/**
 * What the process system calls give to whom, slot by slot, and that it reaches them: the result
 * of a fork, the exit status of a child someone waits for, and nothing for anybody else.
 */
module CallResults {
  import opened Limits
  import opened Paging
  import opened ProcessTable
  import opened Descriptors
  import opened KernelSteps

  /** Outside `changed` the table is as before, except that `chosen` may run now. */
  ghost predicate OthersStay(t: seq<Pcb>, t': seq<Pcb>, changed: set<nat>, chosen: nat) {
    && |t'| == |t|
    && forall q: nat :: q < |t| && q !in changed ==>
         t'[q] == t[q] || (q == chosen && t[q].status == Ready && t'[q] == t[q].(status := Running))
  }

  /** `q` is READY or runs, and its call gives `x`. */
  ghost predicate Gets(v: View, q: nat, x: int) {
    && q < |v.table| && v.table[q].x10 == x
    && (v.table[q].status == Ready || (v.table[q].status == Running && v.running == q))
  }

  /** The caller goes on at once, and its call gives `x`. */
  ghost predicate GoesBack(v: View, v': View, x: int) {
    && v.running < |v.table| == |v'.table| && v'.running == v.running && v'.halted == v.halted && v'.lost == v.lost
    && v'.table[v.running] == v.table[v.running].(status := Ready, x10 := x)
  }

  /** `sys_fork` fills the first UNUSED slot: the child is READY with the next process id and gets 0,
      the caller gets that id; if there is no such slot, the caller gets -1. Nobody else changes. */
  lemma ForkResult(v: View, v': View) returns (c: nat)
    requires Effect(Fork, v, v') && v.table[v.running].status != Unused
    ensures forall i: nat :: i < c && i < |v.table| ==> v.table[i].status != Unused
    ensures c < |v.table| ==>
      && v.table[c].status == Unused && v'.table[c].status == Ready && v'.table[c].pid == v.next
      && v'.table[c].parent == Some(v.running) && !v'.table[c].waited && v'.table[c].x10 == 0
      && GoesBack(v, v', v.next) && v'.next == v.next + 1 && OthersStay(v.table, v'.table, {c, v.running}, c)
    ensures c >= |v.table| ==>
      GoesBack(v, v', -1) && v'.next == v.next && OthersStay(v.table, v'.table, {v.running}, v.running)
  {
    var t := AfterTrap(v.table, v.running);
    assert forall i: nat :: i < |v.table| && i != v.running ==> t[i] == v.table[i];
    if AllUsed(t) { c := |v.table|; } else { c :| Forks(t, c, v, v'); }
  }

  /** `sys_exit` of a process someone waits for: the parent is READY, or runs at once, and its
      call gives the exit status; the slot is UNUSED and has no open file. */
  lemma ExitWakes(x: int, v: View, v': View)
    requires Effect(Exit(x), v, v') && v.table[v.running].waited && !v.halted
    ensures v.table[v.running].parent.Some?
    ensures var p := v.table[v.running].parent.value;
            && p < |v.table| && v.table[p].status == Blocked && p != v.running && Gets(v', p, x)
            && v'.table[v.running].status == Unused && OthersStay(v.table, v'.table, {p, v.running}, v'.running)
    ensures v.running < |v'.fds| && forall i: nat :: i < NUM_FILES ==> !v'.fds[v.running][i].occupied
  {
  }

  /** `sys_exit` otherwise: the slot is a ZOMBIE that keeps the exit status. */
  lemma ExitLeaves(x: int, v: View, v': View)
    requires Effect(Exit(x), v, v') && !v.table[v.running].waited && !v.halted
    ensures |v'.table| == |v.table| && v'.table[v.running].status == Zombie && v'.table[v.running].exitCode == x
    ensures OthersStay(v.table, v'.table, {v.running}, v'.running)
    ensures v.running < |v'.fds| && forall i: nat :: i < NUM_FILES ==> !v'.fds[v.running][i].occupied
  {
  }

  lemma ReapResult(c: nat, v: View, v': View)
    requires v.running < |v.table| && c < |v.table| && c != v.running && v.table[c].status == Zombie
    requires Waits(AfterTrap(v.table, v.running), c, v, v')
    ensures GoesBack(v, v', 0) && v'.table[c] == v.table[c].(status := Unused)
    ensures OthersStay(v.table, v'.table, {c, v.running}, c)
  {
  }

  lemma BlockResult(c: nat, v: View, v': View)
    requires v.running < |v.table| && c < |v.table| && c != v.running && v.table[c].status != Zombie && !v.halted
    requires Waits(AfterTrap(v.table, v.running), c, v, v')
    ensures |v'.table| == |v.table| && v'.table[v.running].status == Blocked && v'.table[c].waited
    ensures v'.table[v.running].x10 == v.table[v.running].x10 && (v'.halted || v'.running != v.running)
    ensures OthersStay(v.table, v'.table, {c, v.running}, v'.running)
  {
  }

  /** `sys_waitpid` for child `c`. A ZOMBIE is reaped: its slot is UNUSED and the call gives 0. Any
      other child is flagged and the caller is BLOCKED. Without a child of that id it gives -1. */
  lemma WaitResult(pid: int, v: View, v': View) returns (c: nat)
    requires Effect(Wait(pid), v, v') && !v.halted
    ensures c < |v.table| ==> c != v.running && v.table[c].pid == pid && v.table[c].parent == Some(v.running)
    ensures c < |v.table| && v.table[c].status == Zombie ==>
      && GoesBack(v, v', 0) && v'.table[c] == v.table[c].(status := Unused)
      && OthersStay(v.table, v'.table, {c, v.running}, c)
    ensures c < |v.table| && v.table[c].status != Zombie ==>
      && |v'.table| == |v.table| && v'.table[v.running].status == Blocked && v'.table[c].waited
      && v'.table[v.running].x10 == v.table[v.running].x10 && (v'.halted || v'.running != v.running)
      && OthersStay(v.table, v'.table, {c, v.running}, v'.running)
    ensures c >= |v.table| ==>
      && (forall i: nat :: i < |v.table| ==> v.table[i].pid != pid || v.table[i].parent != Some(v.running))
      && GoesBack(v, v', -1) && OthersStay(v.table, v'.table, {v.running}, v.running)
  {
    hide Waits, OthersStay;
    var r, t := v.running, AfterTrap(v.table, v.running);
    if exists c: nat :: Match(t, r, pid, c) {
      c :| c != r && Match(t, r, pid, c) && Waits(t, c, v, v');
      if v.table[c].status == Zombie { ReapResult(c, v, v'); } else { BlockResult(c, v, v'); }
    } else {
      c := |v.table|;
      forall i: nat | i < |v.table| ensures v.table[i].pid != pid || v.table[i].parent != Some(r) {
        assert !Match(t, r, pid, i);
      }
      ComesBack(t, -1, v, v');
    }
  }

  lemma ComesBack(t: seq<Pcb>, x: int, v: View, v': View)
    requires v.running < |v.table| && t == AfterTrap(v.table, v.running) && Comes(t, x, v, v')
    ensures GoesBack(v, v', x) && OthersStay(v.table, v'.table, {v.running}, v.running)
  {
  }

  /** `sys_yield` and the timer: the caller is READY again or goes on. */
  lemma YieldResult(v: View, v': View)
    requires Effect(Yield, v, v') && !v.halted
    ensures |v'.table| == |v.table| && Gets(v', v.running, v.table[v.running].x10) && !v'.halted
    ensures OthersStay(v.table, v'.table, {v.running}, v'.running)
  {
    assert IsReady(AfterTrap(v.table, v.running), v.running);
  }

  /** `sys_execve` gives the number of arguments. */
  lemma ExecResult(op: Op, v: View, v': View)
    requires Effect(op, v, v') && op.Exec?
    ensures GoesBack(v, v', op.argc) && OthersStay(v.table, v'.table, {v.running}, v.running)
  {
  }

  // ----- over runs -----

  /** A process that is READY with result `x` still is, or has run. */
  lemma {:induction false} StaysReady(ops: seq<Op>, trail: seq<View>, i: nat, k: nat, q: nat)
    requires Trail(ops, trail) && i <= k < |trail| && IsReady(trail[i].table, q)
    requires forall j: nat {:trigger trail[j]} :: i <= j <= k ==> trail[j].running != q
    ensures IsReady(trail[k].table, q) && trail[k].table[q].x10 == trail[i].table[q].x10
    decreases k
  {
    hide Effect;
    if i < k {
      StaysReady(ops, trail, i, k - 1, q);
      assert Effect(ops[k - 1], trail[k - 1], trail[k - 1 + 1]);
      EffectAdvances(ops[k - 1], trail[k - 1], trail[k]);
    }
  }

  /** The first time it runs it gets that result. */
  lemma FirstRun(ops: seq<Op>, trail: seq<View>, i: nat, k: nat, q: nat)
    requires Trail(ops, trail) && i < k < |trail| && IsReady(trail[i].table, q) && trail[k].running == q
    requires forall j: nat {:trigger trail[j]} :: i <= j < k ==> trail[j].running != q
    ensures Gets(trail[k], q, trail[i].table[q].x10)
  {
    hide Effect;
    StaysReady(ops, trail, i, k - 1, q);
    assert Effect(ops[k - 1], trail[k - 1], trail[k - 1 + 1]);
    EffectAdvances(ops[k - 1], trail[k - 1], trail[k]);
  }

  /** The exit status arrives: if the process that exits in step `i` of a run is waited for, the
      parent gets the status the first time it runs again. */
  lemma StatusArrives(ops: seq<Op>, trail: seq<View>, i: nat, k: nat)
    requires Trail(ops, trail) && i < k < |trail| && ops[i].Exit? && trail[i].running < |trail[i].table|
    requires trail[i].table[trail[i].running].waited
    requires trail[i].table[trail[i].running].parent == Some(trail[k].running)
    requires forall j: nat {:trigger trail[j]} :: i < j < k ==> trail[j].running != trail[k].running
    ensures Gets(trail[k], trail[k].running, ops[i].status)
  {
    hide Effect;
    assert Effect(ops[i], trail[i], trail[i + 1]);
    ExitWakes(ops[i].status, trail[i], trail[i + 1]);
    if i + 1 < k { FirstRun(ops, trail, i + 1, k, trail[k].running); }
  }

  /** A child forked in step `i` gets 0 the first time it runs. */
  lemma ChildGetsZero(ops: seq<Op>, trail: seq<View>, i: nat, k: nat)
    requires Trail(ops, trail) && i < k < |trail| && ops[i].Fork? && trail[k].running < |trail[i].table|
    requires trail[i].running < |trail[i].table| && trail[i].table[trail[i].running].status != Unused
    requires trail[i].table[trail[k].running].status == Unused && trail[i + 1].table[trail[k].running].status == Ready
    requires forall j: nat {:trigger trail[j]} :: i < j < k ==> trail[j].running != trail[k].running
    ensures Gets(trail[k], trail[k].running, 0)
  {
    hide Effect;
    assert Effect(ops[i], trail[i], trail[i + 1]);
    var c := ForkResult(trail[i], trail[i + 1]);
    FirstRun(ops, trail, i + 1, k, trail[k].running);
  }
}
