/**
 The kernel as one state machine: the scheduling and the memory half together, one event per
 atomic kernel entry, and one per hardware or user action that touches the modelled state.
 Interrupts are off inside the kernel, so entries do not interleave.
 */
module Kernel {
  import opened KernelTypes
  import opened Ownership
  import opened Paging
  import opened Scheduler
  import opened Seqs
  import opened TaskQueues

  datatype Sys = Sys(s: Sched, m: Mem)

  datatype Event =
    | Tick(now: Clock)                 // clock interrupt: schedule()
    | Yield(now: Clock)
    | Block(now: Clock)                // block_process on the block queue
    | Unblock(t: nat, now: Clock)      // unblock_process(&task[t])
    | Fork(now: Clock)
    | Exit(now: Clock)
    | EnterSystem(at: Word)            // user_to_system
    | LeaveSystem(at: Word)            // system_to_user
    | GetStats(pid: int)
    | Store(page: nat, off: nat, b: Byte)  // the current process writes to a user page
    | KernelStore(page: nat, r: Sys)   // and to a kernel page, where paging lets it: anything may follow
    | TlbChange(tlb: map<nat, nat>)    // the processor caches or forgets translations

  ghost predicate SysShape(k: Sys) {
    Shape(k.s) && MemShape(k.m) && k.s.task[k.s.cur].dir < NR_TASKS
  }

  /** `set_cr3(get_DIR(t))` when a dispatch follows, and nothing otherwise. */
  function Finish(m: Mem, p: Prep, now: Clock): Sys
    requires Shape(p.s)
  {
    if p.dispatch then
      var s := Dispatch(p.s, now);
      Sys(s, SetCr3(m, s.task[s.cur].dir))
    else Sys(p.s, m)
  }

  /** The scan of `sys_get_stats`: the first slot from `i` on with that PID, or -1. */
  function FindPid(task: seq<Task>, pid: int, i: nat): (r: int)
    requires i <= |task|
    ensures r == -1 ==> forall j :: i <= j < |task| ==> task[j].pid != pid
    ensures r != -1 ==> i <= r < |task| && task[r].pid == pid && forall j :: i <= j < r ==> task[j].pid != pid
    decreases |task| - i
  {
    if i == |task| then -1
    else if task[i].pid == pid then i
    else FindPid(task, pid, i + 1)
  }

  /** `remaining_ticks = remaining_quantum`, an int stored in an unsigned long. */
  function RecordQuantum(x: Task, rq: int): Task {
    x.(stats := x.stats.(remaining := rq % WORD_MOD))
  }

  function Step(k: Sys, e: Event): Sys
    requires SysShape(k) && Enabled(k, e)
  {
    match e
    case Tick(now) => Finish(k.m, TickPrep(k.s, now), now)
    case Yield(now) => Finish(k.m, YieldPrep(k.s, now), now)
    case Block(now) => Finish(k.m, BlockPrep(k.s, now), now)
    case Unblock(t, now) => Finish(k.m, UnblockPrep(k.s, t, now), now)
    case Exit(now) => Finish(ReleaseMem(k.m, k.s.task[k.s.cur].dir), ExitPrep(k.s), now)
    case Fork(now) =>
      if k.s.free == [] then k
      else
        assert k.s.free[0] in k.s.free;
        var (m, ok) := ForkMem(k.m, k.s.task[k.s.cur].dir, k.s.free[0]);
        Sys(ForkTask(k.s, ok, now), m)
    case EnterSystem(at) => k.(s := ChargeTask(k.s, k.s.cur, UserTicks, at, at))
    case LeaveSystem(at) => k.(s := ChargeTask(k.s, k.s.cur, SystemTicks, at, at))
    case GetStats(pid) =>
      var i := FindPid(k.s.task, pid, 0);
      if pid < 0 || i == -1 then k
      else k.(s := SetTask(k.s, i, RecordQuantum(k.s.task[i], k.s.rq)))
    case Store(page, off, b) => k.(m := StoreMem(k.m, page, off, b))
    case KernelStore(_, r) => r
    case TlbChange(tlb) => k.(m := k.m.(tlb := tlb))
  }

  /** What `sys_fork` returns. */
  function ForkResult(k: Sys): int
    requires SysShape(k)
  {
    if k.s.free == [] then -ENOMEM
    else
      assert k.s.free[0] in k.s.free;
      if ForkMem(k.m, k.s.task[k.s.cur].dir, k.s.free[0]).1 then k.s.lastPid + 1 else -EAGAIN
  }

  /** The page table in force lets a user program write to `page`. */
  ghost predicate UserMayStore(m: Mem, page: nat)
    requires MemShape(m)
  {
    page < TOTAL_PAGES && UserWritable(m.pt[m.cr3][page])
  }

  /** The user program stays out of the kernel's pages, whether paging makes it or not. The kernel
      pages hold all the structures of this model, so that nothing can be promised without this. */
  predicate StaysOut(e: Event) {
    !e.KernelStore?
  }

  /** `cpu_idle` makes no system call and no store; a PID counter at its maximum is outside the
      model; and the processor only ever caches present mappings of the current page table. */
  ghost predicate Enabled(k: Sys, e: Event)
    requires SysShape(k)
  {
    match e
    case Tick(_) => true
    case Yield(_) => k.s.cur != k.s.idle
    case Block(_) => k.s.cur != k.s.idle
    case Unblock(t, _) => t in k.s.blocked
    case Exit(_) => k.s.cur != k.s.idle
    case Fork(_) => k.s.cur != k.s.idle && k.s.lastPid < MAX_INT
    case EnterSystem(_) => true
    case LeaveSystem(_) => true
    case GetStats(_) => true
    case Store(page, off, _) => k.s.cur != k.s.idle && UserMayStore(k.m, page) && NUM_PAG_KERNEL <= page &&
        off < PAGE_SIZE
    case KernelStore(page, _) => k.s.cur != k.s.idle && UserMayStore(k.m, page) && page < NUM_PAG_KERNEL
    case TlbChange(tlb) => TlbMayBecome(k.m, tlb)
  }

  ghost predicate TlbMayBecome(m: Mem, tlb: map<nat, nat>)
    requires MemShape(m)
  {
    forall p :: p in tlb ==>
      (p in m.tlb && m.tlb[p] == tlb[p]) || (p < TOTAL_PAGES && Maps(m.pt[m.cr3][p], tlb[p]))
  }

  ghost predicate RamShape(ram: seq<seq<Byte>>) {
    |ram| == TOTAL_PAGES && forall f :: 0 <= f < TOTAL_PAGES ==> |ram[f]| == PAGE_SIZE
  }

  // ---------------------------------------------------------------- invariant

  /** Everything that holds at every kernel boundary. */
  ghost predicate KernelInv(k: Sys) {
    Inv(k.s) && MemInv(k.m, Procs(k.s)) && k.m.cr3 == k.s.cur
  }

  lemma InvShape(k: Sys)
    requires KernelInv(k)
    ensures SysShape(k)
    ensures k.s.cur in Live(k.s) && k.s.task[k.s.cur].dir == k.s.cur
    ensures k.s.cur != k.s.idle ==> k.s.cur in Procs(k.s)
    ensures forall i :: i in k.s.free ==> i !in Procs(k.s)
  {
    assert k.s.cur in {k.s.cur};
  }

  // ---------------------------------------------------------------- preservation

  /** From an empty processor and exactly owned frames, a dispatch restores the whole invariant:
      the new cr3 empties the TLB, so nothing stale survives. */
  lemma FinishKeepsInv(m: Mem, p: Prep, now: Clock)
    requires p.dispatch && Core(p.s, {}) && OwnInv(m, Procs(p.s))
    ensures KernelInv(Finish(m, p, now))
  {
    DispatchKeepsInv(p.s, now);
    var s := Dispatch(p.s, now);
    assert Procs(s) == Procs(p.s);
    assert s.cur in {s.cur};
    assert s.task[s.cur].dir == s.cur;
    var r := SetCr3(m, s.task[s.cur].dir);
    SameRows(m, r, Procs(s));
  }

  /** Ownership speaks of the bytemap, the page tables and the size of the frames only. */
  lemma SameRows(m: Mem, r: Mem, procs: set<nat>)
    requires OwnInv(m, procs) && r.phys == m.phys && r.pt == m.pt && RamShape(r.ram) && r.cr3 < NR_TASKS
    ensures OwnInv(r, procs)
  {
    assert forall i, d :: 0 <= i < NR_TASKS && 0 <= d < NUM_PAG_DATA ==> DataEntry(r, i, d) == DataEntry(m, i, d);
    assert forall i, c :: 0 <= i < NR_TASKS && 0 <= c < NUM_PAG_CODE ==> CodeEntry(r, i, c) == CodeEntry(m, i, c);
    forall f | NUM_PAG_KERNEL <= f < TOTAL_PAGES && r.phys[f]
      ensures IsCodeFrame(f) || Owned(r, procs, f)
    {
      if !IsCodeFrame(f) {
        assert Owned(m, procs, f);
        var i, d :| i in procs && i < NR_TASKS && 0 <= d < NUM_PAG_DATA && DataFrame(m, i, d) == f;
        assert DataFrame(r, i, d) == f;
      }
    }
  }

  /** A timer tick without a switch only moves the quantum counter, and keeps it in range. */
  lemma TimerKeepsInv(s: Sched, now: Clock)
    requires Inv(s) && !TickPrep(s, now).dispatch
    ensures Inv(TickPrep(s, now).s) && Procs(TickPrep(s, now).s) == Procs(s)
  {
    assert s.cur in {s.cur};
    RqKeepsCore(s, s.rq - 1);
    RqKeepsCore(s, DEFAULT_QUANTUM);
  }

  lemma RqKeepsCore(s: Sched, rq: int)
    requires Core(s, {s.cur})
    ensures Core(s.(rq := rq), {s.cur})
  {
    IdentityKept(s, s.(rq := rq));
  }

  lemma PreemptionParks(s: Sched, now: Clock)
    requires Inv(s) && TickPrep(s, now).dispatch
    ensures Core(TickPrep(s, now).s, {}) && Procs(TickPrep(s, now).s) == Procs(s)
  {
    RqKeepsCore(s, s.rq - 1);
    ParkCurrent(s.(rq := s.rq - 1), ToReady, now.a);
  }

  lemma TickKeepsInv(k: Sys, now: Clock)
    requires KernelInv(k)
    ensures SysShape(k) && KernelInv(Step(k, Tick(now)))
  {
    InvShape(k);
    if TickPrep(k.s, now).dispatch {
      PreemptionParks(k.s, now);
      FinishKeepsInv(k.m, TickPrep(k.s, now), now);
    } else {
      TimerKeepsInv(k.s, now);
    }
  }

  lemma YieldKeepsInv(k: Sys, now: Clock)
    requires KernelInv(k)
    ensures SysShape(k) && KernelInv(Finish(k.m, YieldPrep(k.s, now), now))
  {
    InvShape(k);
    var p := YieldPrep(k.s, now);
    ParkCurrent(k.s, ToReady, now.a);
    assert Procs(p.s) == Procs(k.s);
    FinishKeepsInv(k.m, p, now);
  }

  lemma BlockKeepsInv(k: Sys, now: Clock)
    requires KernelInv(k) && k.s.cur != k.s.idle
    ensures SysShape(k) && KernelInv(Step(k, Block(now)))
  {
    InvShape(k);
    var p := BlockPrep(k.s, now);
    var s1 := UpdateProcessState(k.s, k.s.cur, ToBlocked, now.a);
    ParkCurrent(k.s, ToBlocked, now.a);
    ChargeKeepsCore(s1, k.s.cur, SystemTicks, now.a, now.b, {});
    assert Procs(p.s) == Procs(k.s);
    FinishKeepsInv(k.m, p, now);
  }

  /** Unblocking never reaches the scheduler under round robin: the quantum is not zero. */
  lemma UnblockKeepsInv(k: Sys, t: nat, now: Clock)
    requires KernelInv(k) && t in k.s.blocked
    ensures SysShape(k) && KernelInv(Step(k, Unblock(t, now)))
    ensures !UnblockPrep(k.s, t, now).dispatch
  {
    InvShape(k);
    UnblockIsUpdate(k.s, t, now);
    UnblockedInv(k.s, t, now);
  }

  /** Under the invariant `unblock_process` is its charge and its queue move, and no more. */
  lemma UnblockIsUpdate(s: Sched, t: nat, now: Clock)
    requires Inv(s) && t in s.blocked
    ensures t < NR_TASKS && UnblockPrep(s, t, now) ==
        Prep(UpdateProcessState(ChargeTask(s, t, BlockedTicks, now.a, now.b), t, ToReady, now.c), false)
  {
  }

  lemma UnblockedInv(s: Sched, t: nat, now: Clock)
    requires Inv(s) && t in s.blocked && t < NR_TASKS
    ensures var r := UpdateProcessState(ChargeTask(s, t, BlockedTicks, now.a, now.b), t, ToReady, now.c);
            Inv(r) && Procs(r) == Procs(s) && r.cur == s.cur
  {
    var s1 := ChargeTask(s, t, BlockedTicks, now.a, now.b);
    ChargeKeepsCore(s, t, BlockedTicks, now.a, now.b, {s.cur});
    UnblockKeepsCore(s1, t, now.c);
    UnblockMoves(s1, t, now.c);
  }

  lemma ExitKeepsInv(k: Sys, now: Clock)
    requires KernelInv(k) && k.s.cur != k.s.idle
    ensures SysShape(k) && KernelInv(Step(k, Exit(now)))
  {
    InvShape(k);
    var p := ExitPrep(k.s);
    ExitParks(k.s);
    assert Procs(p.s) == Procs(k.s) - {k.s.cur};
    ReleaseKeepsOwnInv(k.m, Procs(k.s), k.s.cur);
    FinishKeepsInv(ReleaseMem(k.m, k.s.cur), p, now);
  }

  lemma LiveCount(s: Sched)
    requires AllSlots(s.free)
    ensures |Live(s)| + |Elements(s.free)| == NR_TASKS
  {
    var live, free := Live(s), Elements(s.free);
    assert live !! free;
    forall i | i in Slots(NR_TASKS)
      ensures i in live + free
    {
    }
    assert live + free == Slots(NR_TASKS);
  }

  /** Slots are conserved: idle, the processes, and the free queue make up the task array. */
  lemma SlotCount(s: Sched)
    requires Shape(s) && NoDup(s.free) && s.idle !in s.free
    ensures |Procs(s)| + |s.free| == NR_TASKS - 1
  {
    NoDupCount(s.free);
    LiveCount(s);
    assert s.idle in Live(s);
    assert |Live(s) - {s.idle}| == |Live(s)| - 1;
  }

  /** In every state that satisfies the invariant, a fork with a free slot obtains its 20 pages. */
  lemma ForkAllocates(k: Sys)
    requires KernelInv(k) && k.s.free != [] && k.s.cur != k.s.idle
    ensures SysShape(k) && k.s.free[0] < NR_TASKS && ForkMem(k.m, k.s.cur, k.s.free[0]).1
  {
    InvShape(k);
    assert k.s.free[0] in k.s.free;
    ForkGetsItsPages(k.m, Procs(k.s));
  }

  lemma ForkProcs(s: Sched, now: Clock)
    requires Shape(s) && NoDup(s.free) && s.free != [] && s.idle !in s.free
    ensures Procs(ForkTask(s, true, now)) == Procs(s) + {s.free[0]}
  {
    assert s.free[0] in s.free;
    TailMembers(s.free);
  }

  lemma ForkKeepsInv(k: Sys, now: Clock)
    requires KernelInv(k) && k.s.cur != k.s.idle && k.s.lastPid < MAX_INT
    ensures SysShape(k) && KernelInv(Step(k, Fork(now)))
  {
    InvShape(k);
    if k.s.free != [] {
      ForkStep(k, now);
      ForkedInv(k.s, k.m, now);
    }
  }

  /** Under the invariant a fork with a free slot takes its success branch. */
  lemma ForkStep(k: Sys, now: Clock)
    requires KernelInv(k) && k.s.free != [] && k.s.cur != k.s.idle && k.s.lastPid < MAX_INT
    ensures SysShape(k) && k.s.free[0] < NR_TASKS && ForkMem(k.m, k.s.cur, k.s.free[0]).1
    ensures Step(k, Fork(now)) == Sys(ForkTask(k.s, true, now), ForkMem(k.m, k.s.cur, k.s.free[0]).0)
  {
    InvShape(k);
    ForkAllocates(k);
  }

  lemma ForkedInv(s: Sched, m: Mem, now: Clock)
    requires KernelInv(Sys(s, m)) && s.free != [] && s.cur != s.idle && s.lastPid < MAX_INT
    requires s.free[0] < NR_TASKS && MemShape(m) && ForkMem(m, s.cur, s.free[0]).1
    ensures KernelInv(Sys(ForkTask(s, true, now), ForkMem(m, s.cur, s.free[0]).0))
  {
    InvShape(Sys(s, m));
    assert s.free[0] in s.free;
    ForkKeepsCore(s, now);
    ForkProcs(s, now);
    ForkKeepsMemInv(m, Procs(s), s.cur, s.free[0]);
  }

  lemma StatsKeepInv(k: Sys, t: nat, bucket: Bucket, at: Word)
    requires KernelInv(k) && t < NR_TASKS
    ensures KernelInv(k.(s := ChargeTask(k.s, t, bucket, at, at)))
  {
    ChargeKeepsCore(k.s, t, bucket, at, at, {k.s.cur});
    assert Procs(ChargeTask(k.s, t, bucket, at, at)) == Procs(k.s);
  }

  lemma GetStatsKeepsInv(k: Sys, pid: int)
    requires KernelInv(k)
    ensures SysShape(k) && KernelInv(Step(k, GetStats(pid)))
  {
    InvShape(k);
    var i := FindPid(k.s.task, pid, 0);
    if pid >= 0 && i != -1 {
      StatsKeepCore(k.s, i, RecordQuantum(k.s.task[i], k.s.rq).stats, {k.s.cur});
      assert Procs(Step(k, GetStats(pid)).s) == Procs(k.s);
    }
  }

  /** A user store changes the contents of one frame only. */
  lemma StoreKeepsInv(k: Sys, page: nat, off: nat, b: Byte)
    requires KernelInv(k) && SysShape(k) && Enabled(k, Store(page, off, b))
    ensures KernelInv(Step(k, Store(page, off, b)))
  {
    SameRows(k.m, StoreMem(k.m, page, off, b), Procs(k.s));
  }

  lemma TlbChangeKeepsInv(k: Sys, tlb: map<nat, nat>)
    requires KernelInv(k) && TlbMayBecome(k.m, tlb)
    ensures SysShape(k) && KernelInv(Step(k, TlbChange(tlb)))
  {
    InvShape(k);
    SameRows(k.m, k.m.(tlb := tlb), Procs(k.s));
  }

  /** Every enabled event but a store to a kernel page keeps the whole kernel invariant. */
  lemma StepKeepsInv(k: Sys, e: Event)
    requires KernelInv(k) && SysShape(k) && Enabled(k, e) && StaysOut(e)
    ensures KernelInv(Step(k, e)) && SysShape(Step(k, e))
  {
    match e
    case Tick(now) => TickKeepsInv(k, now);
    case Yield(now) => YieldKeepsInv(k, now);
    case Block(now) => BlockKeepsInv(k, now);
    case Unblock(t, now) => UnblockKeepsInv(k, t, now);
    case Exit(now) => ExitKeepsInv(k, now);
    case Fork(now) => ForkKeepsInv(k, now);
    case EnterSystem(at) => StatsKeepInv(k, k.s.cur, UserTicks, at);
    case LeaveSystem(at) => StatsKeepInv(k, k.s.cur, SystemTicks, at);
    case GetStats(pid) => GetStatsKeepsInv(k, pid);
    case Store(page, off, b) => StoreKeepsInv(k, page, off, b);
    case TlbChange(tlb) => TlbChangeKeepsInv(k, tlb);
    InvShape(Step(k, e));
  }
}
