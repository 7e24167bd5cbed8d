/** The failure branch of `sys_fork`: when it is taken, what it undoes, and what it leaves behind. */
module ForkFailure {
  import opened Kernel
  import opened KernelTypes
  import opened Ownership
  import opened Paging
  import opened Scheduler
  import opened Seqs

  /** A state in which a process calls fork with a free slot, whatever the bytemap looks like. */
  ghost predicate ForkCalled(k: Sys, now: Clock) {
    && SysShape(k) && Enabled(k, Fork(now)) && k.s.free != [] && NoDup(k.s.free) && k.s.cur !in k.s.free
    && k.s.task[k.s.cur].dir != k.s.free[0] < NR_TASKS && k.s.lastPid >= 1000
  }

  /** Fork returns -EAGAIN exactly when fewer than 20 usable frames are free. */
  lemma FailsForWantOfFrames(k: Sys, now: Clock)
    requires ForkCalled(k, now)
    ensures ForkResult(k) == -EAGAIN <==> |FreeFrames(k.m.phys)| < NUM_PAG_DATA
  {
    AllocCount(k.m.phys, NUM_PAG_DATA);
  }

  /** Rollback: whenever the allocation fails, after however many pages, the frame contents, the
      TLB, every page table but the child's, the ready and blocked queues and every other task are
      as they were, the child's table has lost the data entries that had been set, as many as there
      were free frames, and the free queue has its head moved to its tail. The bytemap is restored
      exactly if frame 256 was in use. */
  lemma RollbackUndoes(k: Sys, now: Clock)
    requires ForkCalled(k, now) && ForkResult(k) == -EAGAIN
    ensures var r, child := Step(k, Fork(now)), k.s.free[0];
            && r.m.ram == k.m.ram && r.m.tlb == k.m.tlb && r.m.cr3 == k.m.cr3
            && (forall j :: 0 <= j < NR_TASKS && j != child ==> r.m.pt[j] == k.m.pt[j])
            && r.m.pt[child] == ClearRange(k.m.pt[child], PAG_LOG_INIT_DATA, |FreeFrames(k.m.phys)|)
            && r.s.free == k.s.free[1..] + [child] && r.s.ready == k.s.ready && r.s.blocked == k.s.blocked
            && r.s.cur == k.s.cur && r.s.rq == k.s.rq && r.s.lastPid == k.s.lastPid
            && (forall i: nat :: i < NR_TASKS && i != child ==> r.s.task[i] == k.s.task[i])
            && (r.m.phys == k.m.phys <==> k.m.phys[NUM_PAG_KERNEL])
  {
    RollbackRestores(k.m.phys, NUM_PAG_DATA);
    AllocCount(k.m.phys, NUM_PAG_DATA);
  }

  /** The child's data entries are all empty afterwards exactly when those that the allocation did
      not reach were empty before. */
  lemma RollbackEmptiesEntries(k: Sys, now: Clock)
    requires ForkCalled(k, now) && ForkResult(k) == -EAGAIN
    ensures MemShape(Step(k, Fork(now)).m)
    ensures (forall d :: 0 <= d < NUM_PAG_DATA ==> DataEntry(Step(k, Fork(now)).m, k.s.free[0], d) == EMPTY_ENTRY) <==>
            (forall d :: |FreeFrames(k.m.phys)| <= d < NUM_PAG_DATA ==> DataEntry(k.m, k.s.free[0], d) == EMPTY_ENTRY)
  {
    RollbackUndoes(k, now);
    var r, child, n := Step(k, Fork(now)), k.s.free[0], |FreeFrames(k.m.phys)|;
    assert forall d :: 0 <= d < NUM_PAG_DATA ==>
        DataEntry(r.m, child, d) == if d < n then EMPTY_ENTRY else DataEntry(k.m, child, d);
  }

  /** The page tables are all restored exactly when the data entries that the allocation reached were
      empty before, as they are in every free slot of a run. */
  lemma RollbackRestoresTables(k: Sys, now: Clock)
    requires ForkCalled(k, now) && ForkResult(k) == -EAGAIN
    ensures Step(k, Fork(now)).m.pt == k.m.pt <==>
            (forall d :: 0 <= d < NUM_PAG_DATA && d < |FreeFrames(k.m.phys)| ==>
                DataEntry(k.m, k.s.free[0], d) == EMPTY_ENTRY)
  {
    RollbackUndoes(k, now);
    FailsForWantOfFrames(k, now);
    var r, child, n := Step(k, Fork(now)), k.s.free[0], |FreeFrames(k.m.phys)|;
    var row := ClearRange(k.m.pt[child], PAG_LOG_INIT_DATA, n);
    if forall d :: 0 <= d < NUM_PAG_DATA && d < n ==> DataEntry(k.m, child, d) == EMPTY_ENTRY {
      forall p | 0 <= p < TOTAL_PAGES
        ensures row[p] == k.m.pt[child][p]
      {
        if PAG_LOG_INIT_DATA <= p < PAG_LOG_INIT_DATA + n {
          assert DataEntry(k.m, child, p - PAG_LOG_INIT_DATA) == EMPTY_ENTRY;
        }
      }
      assert row == k.m.pt[child];
    } else {
      var d :| 0 <= d < NUM_PAG_DATA && d < n && DataEntry(k.m, child, d) != EMPTY_ENTRY;
      assert row[PAG_LOG_INIT_DATA + d] == EMPTY_ENTRY;
    }
  }

  /** What a failed fork leaves behind: the parent's PID in the slot that goes back to the free queue.
      So of a fork by a process from a state in which every free slot holds -1, they all hold -1 afterwards
      exactly when there were enough frames. Theorem Runs.ForkOutcome shows that in every run there
      are. */
  lemma FailedForkLeavesParentPid(k: Sys, now: Clock)
    requires ForkCalled(k, now) && k.s.task[k.s.cur].pid >= 0
    requires forall i :: i in k.s.free ==> k.s.task[i].pid == -1
    ensures Shape(Step(k, Fork(now)).s)
    ensures ForkResult(k) == -EAGAIN ==>
              && k.s.free[0] in Step(k, Fork(now)).s.free
              && Step(k, Fork(now)).s.task[k.s.free[0]] == k.s.task[k.s.cur].(dir := k.s.free[0])
    ensures (forall i :: i in Step(k, Fork(now)).s.free ==> Step(k, Fork(now)).s.task[i].pid == -1)
            <==> |FreeFrames(k.m.phys)| >= NUM_PAG_DATA
  {
    FailsForWantOfFrames(k, now);
    TailMembers(k.s.free);
    var r, child := Step(k, Fork(now)), k.s.free[0];
    if ForkResult(k) == -EAGAIN {
      assert child in r.s.free;
    } else {
      assert r.s.free == k.s.free[1..];
    }
  }
}
