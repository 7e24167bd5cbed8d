/**
 sched.c and sys.c on the state they update in place: the task array, the linked queues and the
 memory of the machine. Every kernel entry is proved equal to its value in modules Scheduler,
 Paging and Kernel, so every theorem about runs holds of these methods.
 */
module KernelMachine {
  import opened BootState
  import opened Kernel
  import opened KernelTypes
  import opened MemoryManager
  import opened Paging
  import opened Runs
  import opened Scheduler
  import opened Seqs
  import opened TaskQueues

  class Machine {
    const q: Queues
    const mm: Memory
    const task: array<Task>
    var current: nat
    var idle_task: nat
    var remaining_quantum: int
    var global_PID: int

    ghost predicate Valid()
      reads this, q, q.heap.next, q.heap.prev, mm, mm.phys_mem, mm.pagusr_table, mm.ram, task
    {
      q.Valid() && mm.Valid() && task.Length == NR_TASKS && current < NR_TASKS && idle_task < NR_TASKS
    }

    ghost function S(): Sched
      reads this, q, task
    {
      Sched(task[..], q.free, q.ready, q.blocked, current, idle_task, remaining_quantum, global_PID)
    }

    /** The state of the machine as a value. */
    ghost function Abs(): Sys
      reads this, q, mm, mm.phys_mem, mm.pagusr_table, mm.ram, task
    {
      Sys(S(), mm.M())
    }

    /** The initialisation that `main` runs before it enters user mode: `init_mm`, `init_sched`,
        `init_idle` and `init_task1`. */
    constructor (b: BootArgs)
      requires RamShape(b.ram) && b.guard0 < TOTAL_PAGES && b.guard1 < TOTAL_PAGES
      ensures Valid() && Abs() == BootSys(b) && KernelInv(Abs())
    {
      q := new Queues();
      mm := new Memory(b.ram);
      task := new Task[NR_TASKS](_ => Task(0, RUN, 0, 0, ZERO_STATS));
      current, idle_task, remaining_quantum, global_PID := 0, 0, 0, 1000;
      new;
      hide KernelInv, MapRange, KernelRow, Task1Row, Inv;
      mm.InitMm(b.guard0, b.guard1);
      InitFreequeue();
      InitIdle(b.i0, b.i1);
      InitTask1(b.t0, b.t1);
      BootTasks(b, S());
      BootTables(b, mm.M());
      BootInv(b);
    }

    /** `init_freequeue`. */
    method InitFreequeue()
      requires Valid() && q.free == [] && q.ready == [] && q.blocked == []
      requires forall i :: 0 <= i < NR_TASKS ==> task[i] == FREE_TASK.(pid := 0)
      modifies task, q, q.heap.next, q.heap.prev
      ensures Valid() && q.ready == [] && q.blocked == []
      ensures q.free == FirstSlots(NR_TASKS)
      ensures forall i :: 0 <= i < NR_TASKS ==> task[i] == Task(-1, RUN, 0, 0, Stats(0, 0, 0, 0, 0, 0, 0))
    {
      var i := 0;
      while i < NR_TASKS
        invariant 0 <= i <= NR_TASKS && Valid() && q.ready == [] && q.blocked == []
        invariant q.free == FirstSlots(i)
        invariant forall j :: 0 <= j < NR_TASKS ==> task[j] == if j < i then FREE_TASK else FREE_TASK.(pid := 0)
      {
        task[i] := task[i].(pid := -1);
        assert i !in FirstSlots(i);
        q.AddTail(i, FreeQueue);
        assert FirstSlots(i + 1) == FirstSlots(i) + [i];
        i := i + 1;
      }
    }

    /** Takes the first slot off the free queue, as `init_idle` and `init_task1` do. */
    method TakeFree() returns (t: nat)
      requires Valid() && q.free != []
      modifies q, q.heap.next, q.heap.prev
      ensures Valid() && t == old(q.free)[0] && t < NR_TASKS && !q.Linked(t)
      ensures q.free == old(q.free)[1..] && q.ready == old(q.ready) && q.blocked == old(q.blocked)
    {
      t := q.First(FreeQueue);
      FreeHead(t);
      q.Del(t);
    }

    /** `init_idle`. */
    method InitIdle(a: Word, b: Word)
      requires Valid() && q.free != []
      modifies this`idle_task, task, q, q.heap.next, q.heap.prev
      ensures Valid() && idle_task == old(q.free)[0]
      ensures q.free == old(q.free)[1..] && q.ready == old(q.ready) && q.blocked == old(q.blocked)
      ensures var state := old(task[..])[idle_task].state;
              task[..] == old(task[..])[idle_task := Task(0, state, 10, idle_task, Stats(0, 0, 0, 0, a, 0, b))]
    {
      var c := TakeFree();
      task[c] := task[c].(pid := 0);
      task[c] := task[c].(quantum := DEFAULT_QUANTUM);
      task[c] := task[c].(stats := InitStats(a, b));
      task[c] := task[c].(dir := c);
      idle_task := c;
    }

    /** `init_task1`; afterwards the processor belongs to it. */
    method InitTask1(a: Word, b: Word)
      requires Valid() && q.free != [] && mm.phys_mem[..] == BootPhys(0)
      modifies this, task, q, q.heap.next, q.heap.prev, mm, mm.phys_mem, mm.pagusr_table
      ensures Valid() && current == old(q.free)[0] && remaining_quantum == DEFAULT_QUANTUM
      ensures idle_task == old(idle_task) && global_PID == old(global_PID)
      ensures q.free == old(q.free)[1..] && q.ready == old(q.ready) && q.blocked == old(q.blocked)
      ensures task[..] == old(task[..])[current := Task(1, RUN, 10, current, Stats(0, 0, 0, 0, a, 0, b))]
      ensures mm.tlb == map[] && mm.cr3 == current && mm.phys_mem[..] == BootPhys(NUM_PAG_CODE + NUM_PAG_DATA)
      ensures mm.pagusr_table[..] == old(mm.pagusr_table[..])[current :=
                MapRange(MapRange(old(mm.pagusr_table[..])[current],
                                  PAG_LOG_INIT_CODE, BootFrames(0, NUM_PAG_CODE), false),
                         PAG_LOG_INIT_DATA, BootFrames(NUM_PAG_CODE, NUM_PAG_DATA), true)]
    {
      var c := TakeFree();
      task[c] := task[c].(pid := 1);
      task[c] := task[c].(quantum := DEFAULT_QUANTUM);
      task[c] := task[c].(state := RUN);
      remaining_quantum := task[c].quantum;
      task[c] := task[c].(stats := InitStats(a, b));
      task[c] := task[c].(dir := c);
      mm.SetUserPages(task[c].dir);
      mm.SetCr3(task[c].dir);
      current := c;
    }

    lemma FreeHead(t: nat)
      requires q.Valid() && q.free != [] && t == q.free[0]
      ensures t in q.free && Without(q.free, t) == q.free[1..] && Without(q.ready, t) == q.ready &&
          Without(q.blocked, t) == q.blocked
    {
      WithoutAt(q.free, 0);
      assert t in q.free;
      WithoutAbsent(q.ready, t);
      WithoutAbsent(q.blocked, t);
    }

    /** `update_stats` on a counter of task `t`; `get_ticks` returned `now`. */
    method UpdateStats(t: nat, bucket: Bucket, now: Word)
      requires t < task.Length
      modifies task
      ensures task[..] == old(task[..])[t := old(task[t]).(stats := Charge(old(task[t]).stats, bucket, now))]
    {
      var st := task[t].stats;
      match bucket {
        case UserTicks => st := st.(user := Add32(st.user, Sub32(now, st.elapsed)));
        case SystemTicks => st := st.(system := Add32(st.system, Sub32(now, st.elapsed)));
        case BlockedTicks => st := st.(blocked := Add32(st.blocked, Sub32(now, st.elapsed)));
        case ReadyTicks => st := st.(ready := Add32(st.ready, Sub32(now, st.elapsed)));
      }
      st := st.(elapsed := now);
      task[t] := task[t].(stats := st);
    }

    /** The second half of `update_process_state_rr`. */
    method Enqueue(t: nat, dest: Dest, now: Word)
      requires Valid() && t < NR_TASKS && !q.Linked(t)
      modifies task, q, q.heap.next, q.heap.prev
      ensures Valid() && S() == Enqueued(old(S()), t, dest, now)
    {
      match dest {
        case ToBlocked =>
          q.AddTail(t, BlockQueue);
          task[t] := task[t].(state := BLOCKED);
        case ToReady =>
          q.AddTail(t, ReadyQueue);
          UpdateStats(t, SystemTicks, now);
          task[t] := task[t].(state := READY);
        case Nowhere =>
          task[t] := task[t].(state := RUN);
      }
    }

    /** `update_process_state_rr`. A task that is not running must be on some queue: it is unlinked
        from it, whichever it is. */
    method UpdateProcessState(t: nat, dest: Dest, now: Word)
      requires Valid() && t < NR_TASKS
      requires task[t].state == RUN <==> !q.Linked(t)
      modifies task, q, q.heap.next, q.heap.prev
      ensures Valid()
      ensures S() == Scheduler.UpdateProcessState(old(S()), t, dest, now)
    {
      if task[t].state != RUN {
        q.Del(t);
      }
      Enqueue(t, dest, now);
    }

    /** `needs_sched_rr`. */
    method NeedsSched() returns (need: bool)
      requires Valid()
      modifies this`remaining_quantum
      ensures Valid() && (need, S()) == Scheduler.NeedsSched(old(S()))
    {
      var empty := q.Empty(ReadyQueue);
      if remaining_quantum == 0 && !empty {
        return true;
      }
      if remaining_quantum == 0 {
        remaining_quantum := task[current].quantum;
      }
      return false;
    }

    /** The choice of `sched_next_rr`: the head of the ready queue, unlinked, or the idle task. */
    method TakeReady() returns (t: nat)
      requires Valid()
      modifies q, q.heap.next, q.heap.prev
      ensures Valid() && t == Chosen(old(S())) && t < NR_TASKS
      ensures q.ready == (if old(q.ready) != [] then Rest(old(q.ready)) else [])
      ensures q.free == old(q.free) && q.blocked == old(q.blocked)
    {
      t := idle_task;
      var empty := q.Empty(ReadyQueue);
      if !empty {
        t := q.First(ReadyQueue);
        ReadyHead(t);
        q.Del(t);
      }
    }

    /** `sched_next_rr`, with `task_switch` as the change of the current task and of cr3. */
    method SchedNext(now: Clock)
      requires Valid()
      modifies this`current, this`remaining_quantum, task, q, q.heap.next, q.heap.prev, mm
      ensures Valid()
      ensures S() == Dispatch(old(S()), now)
      ensures mm.M() == SetCr3(old(mm.M()), S().task[current].dir)
    {
      var t := TakeReady();
      task[t] := task[t].(state := RUN);
      remaining_quantum := task[t].quantum;
      UpdateStats(current, SystemTicks, now.leave);
      UpdateStats(t, ReadyTicks, now.enter);
      task[t] := task[t].(stats := task[t].stats.(trans := Add32(task[t].stats.trans, 1)));
      DispatchInOrder(old(S()), now);
      mm.SetCr3(task[t].dir);
      current := t;
    }

    // -------------------------------------------------------------- kernel entries

    /** What every kernel entry finds: a well-formed state whose current task is running and on no
        queue. */
    ghost predicate Running()
      reads this, q, q.heap.next, q.heap.prev, mm, mm.phys_mem, mm.pagusr_table, mm.ram, task
    {
      Valid() && SysShape(Abs()) && task[current].state == RUN && !q.Linked(current)
    }

    /** `schedule`. */
    method Schedule(now: Clock)
      requires Running()
      modifies this`current, this`remaining_quantum, task, q, q.heap.next, q.heap.prev, mm
      ensures Valid() && SysShape(old(Abs())) && Abs() == Step(old(Abs()), Tick(now))
    {
      remaining_quantum := remaining_quantum - 1;
      var need := NeedsSched();
      if need {
        UpdateProcessState(current, ToReady, now.a);
        SchedNext(now);
      }
    }

    /** `sys_yield`, that is `force_task_switch`. */
    method SysYield(now: Clock)
      requires Running() && current != idle_task
      modifies this`current, this`remaining_quantum, task, q, q.heap.next, q.heap.prev, mm
      ensures Valid() && SysShape(old(Abs())) && Abs() == Step(old(Abs()), Yield(now))
    {
      UpdateProcessState(current, ToReady, now.a);
      SchedNext(now);
    }

    /** `st->counter += get_ticks() - st->elapsed_total_ticks; st->elapsed_total_ticks = get_ticks()`,
        with its two clock reads. */
    method ChargeTwoReads(t: nat, bucket: Bucket, a: Word, b: Word)
      requires t < task.Length
      modifies task
      ensures task[..] == old(task[..])[t := old(task[t]).(stats := ChargeSplit(old(task[t]).stats, bucket, a, b))]
    {
      UpdateStats(t, bucket, a);
      task[t] := task[t].(stats := task[t].stats.(elapsed := b));
    }

    /** `block_process` on the block queue. */
    method BlockProcess(now: Clock)
      requires Running() && current != idle_task
      modifies this`current, this`remaining_quantum, task, q, q.heap.next, q.heap.prev, mm
      ensures Valid() && SysShape(old(Abs())) && Abs() == Step(old(Abs()), Block(now))
    {
      UpdateProcessState(current, ToBlocked, now.a);
      ChargeTwoReads(current, SystemTicks, now.a, now.b);
      SchedNext(now);
    }

    /** `unblock_process`. */
    method UnblockProcess(t: nat, now: Clock)
      requires Running() && t in q.blocked && task[t].state != RUN
      modifies this`current, this`remaining_quantum, task, q, q.heap.next, q.heap.prev, mm
      ensures Valid() && SysShape(old(Abs())) && Abs() == Step(old(Abs()), Unblock(t, now))
    {
      hide Dispatch;
      ChargeTwoReads(t, BlockedTicks, now.a, now.b);
      UpdateProcessState(t, ToReady, now.c);
      var need := NeedsSched();
      if need {
        UpdateProcessState(current, ToReady, now.d);
        SchedNext(now);
      }
    }

    /** `sys_exit`. */
    method SysExit(now: Clock)
      requires Running() && current != idle_task
      modifies this`current, this`remaining_quantum, task, q, q.heap.next, q.heap.prev, mm, mm.phys_mem, mm.pagusr_table
      ensures Valid() && SysShape(old(Abs())) && Abs() == Step(old(Abs()), Exit(now))
    {
      hide Dispatch;
      mm.ReleaseData(task[current].dir);
      q.AddTail(current, FreeQueue);
      task[current] := task[current].(pid := -1);
      SchedNext(now);
    }

    /** The start of `sys_fork`: a free slot gets a copy of the parent's task structure and a page
        directory of its own. */
    method CloneTask() returns (child: nat)
      requires Valid() && q.free != []
      modifies task, q, q.heap.next, q.heap.prev
      ensures Valid() && child == old(q.free)[0] && child < NR_TASKS && !q.Linked(child)
      ensures S() == SetTask(old(S()).(free := Rest(old(q.free))), child, old(task[..])[current].(dir := child))
    {
      child := TakeFree();
      task[child] := task[current];
      q.CopyLink(current, child);
      task[child] := task[child].(dir := child);
    }

    /** The end of `sys_fork`: the child gets its PID and fresh statistics and becomes ready. */
    method AdmitChild(child: nat, now: Clock)
      requires Valid() && child < NR_TASKS && !q.Linked(child)
      modifies this`global_PID, task, q, q.heap.next, q.heap.prev
      ensures Valid()
      ensures var pid := old(global_PID) + 1;
              S() == SetTask(old(S()).(ready := old(q.ready) + [child], lastPid := pid), child,
                             old(task[child]).(pid := pid, state := READY, stats := Stats(0, 0, 0, 0, now.a, 0, now.b)))
    {
      global_PID := global_PID + 1;
      task[child] := task[child].(pid := global_PID);
      task[child] := task[child].(stats := InitStats(now.a, now.b));
      task[child] := task[child].(state := READY);
      q.AddTail(child, ReadyQueue);
    }

    /** `sys_fork`. It does not rely on there being enough free frames. */
    method SysFork(now: Clock) returns (r: int)
      requires Running() && Enabled(Abs(), Fork(now))
      requires q.free != [] ==> ForkReady(mm.M(), task[current].dir, q.free[0])
      modifies this`global_PID, task, q, q.heap.next, q.heap.prev, mm, mm.phys_mem, mm.pagusr_table, mm.ram
      ensures Valid() && Abs() == Step(old(Abs()), Fork(now)) && r == ForkResult(old(Abs()))
    {
      hide ForkMem, ForkReady, TlbCoherent;
      var empty := q.Empty(FreeQueue);
      if empty {
        return -ENOMEM;
      }
      assert q.free[0] in q.free;
      var child := CloneTask();
      var ok := mm.ForkMemory(task[current].dir, task[child].dir);
      if !ok {
        q.AddTail(child, FreeQueue);
        return -EAGAIN;
      }
      AdmitChild(child, now);
      return task[child].pid;
    }

    /** The kernel invariant gives every entry what it asks for: blocked tasks are unlinkable, and
        fork finds its data pages mapped and the temporary ones free and uncached. */
    lemma InvIsEnough()
      requires Valid() && KernelInv(Abs())
      ensures Running()
      ensures forall t :: t in q.blocked ==> task[t].state != RUN
      ensures current != idle_task && q.free != [] ==> ForkReady(mm.M(), task[current].dir, q.free[0])
    {
      InvShape(Abs());
      assert current in {current};
      if current != idle_task && q.free != [] {
        assert q.free[0] in q.free;
        var m := mm.M();
        forall d | 0 <= d < NUM_PAG_DATA
          ensures DataEntry(m, current, d).present && m.phys[DataFrame(m, current, d)]
        {
        }
      }
    }

    /** `user_to_system` and `system_to_user`. */
    method CrossBoundary(bucket: Bucket, at: Word)
      requires Valid()
      modifies task
      ensures Valid() && S() == ChargeTask(old(S()), current, bucket, at, at) && mm.M() == old(mm.M())
    {
      UpdateStats(current, bucket, at);
    }

    /** `sys_get_stats`; `accessible` is the verdict of `access_ok` on the user's buffer. */
    method SysGetStats(pid: int, accessible: bool) returns (r: int, st: Stats)
      requires Valid() && SysShape(Abs())
      modifies task
      ensures Valid()
      ensures r == if !accessible then -EFAULT else if pid < 0 then -EINVAL
                   else if FindPid(old(task[..]), pid, 0) == -1 then -ESRCH else 0
      ensures if accessible then Abs() == Step(old(Abs()), GetStats(pid)) else Abs() == old(Abs())
      ensures r == 0 ==>
                var i := FindPid(old(task[..]), pid, 0);
                && task[..][i].stats == st == old(task[..])[i].stats.(remaining := remaining_quantum % 0x1_0000_0000)
                && forall j :: 0 <= j < NR_TASKS && j != i ==> task[j] == old(task[..])[j]
    {
      st := ZERO_STATS;
      if !accessible {
        return -EFAULT, st;
      }
      if pid < 0 {
        return -EINVAL, st;
      }
      var i := 0;
      while i < NR_TASKS
        invariant 0 <= i <= NR_TASKS
        invariant task[..] == old(task[..])
        invariant FindPid(task[..], pid, 0) == FindPid(task[..], pid, i)
      {
        if task[i].pid == pid {
          task[i] := RecordQuantum(task[i], remaining_quantum);
          return 0, task[i].stats;
        }
        i := i + 1;
      }
      return -ESRCH, st;
    }

    /** A store of the running process to one of its user pages, through the MMU. */
    method UserStore(page: nat, off: nat, b: Byte)
      requires Valid() && KernelInv(Abs()) && SysShape(Abs()) && Enabled(Abs(), Store(page, off, b))
      modifies mm`tlb, mm.ram
      ensures Valid() && S() == old(S()) && SysShape(old(Abs()))
      ensures mm.M() == StoreMem(old(mm.M()), page, off, b).(tlb := mm.tlb) && TlbMayBecome(old(mm.M()), mm.tlb)
    {
      ghost var bytes := mm.ram[mm.pagusr_table[mm.cr3][page].frame];
      assert bytes[..off] + [b] + bytes[off + 1..] == bytes[off := b];
      mm.Write(page, off, [b]);
    }

    /** The machine runs as the state machine says: from a state that satisfies the kernel invariant,
        performing any enabled event other than a store to a kernel page leads to its `Step` and
        keeps the invariant and the linked lists well formed; a store may change the TLB as well, in a
        way the machine allows. */
    method Perform(e: Event)
      requires Valid() && KernelInv(Abs()) && SysShape(Abs()) && Enabled(Abs(), e) && StaysOut(e)
      modifies this, task, q, q.heap.next, q.heap.prev, mm, mm.phys_mem, mm.pagusr_table, mm.ram
      ensures Valid() && KernelInv(Abs())
      ensures !e.Store? ==> Abs() == Step(old(Abs()), e)
      ensures e.Store? ==>
                var k := Step(old(Abs()), e);
                SysShape(k) && Enabled(k, TlbChange(mm.tlb)) && Abs() == Step(k, TlbChange(mm.tlb))
    {
      if e.Store? {
        StoreKeepsInv(Abs(), e.page, e.off, e.b);
        UserStore(e.page, e.off, e.b);
        StoreThenTlb(old(Abs()), e.page, e.off, e.b, mm.tlb);
      } else {
        StepKeepsInv(Abs(), e);
        if MaySwitch(e) {
          PerformSwitch(e);
        } else {
          PerformQuiet(e);
        }
      }
    }

    /** The events that can end in another task. */
    predicate MaySwitch(e: Event) {
      e.Tick? || e.Yield? || e.Block? || e.Unblock? || e.Exit?
    }

    method PerformSwitch(e: Event)
      requires Valid() && KernelInv(Abs()) && SysShape(Abs()) && Enabled(Abs(), e) && MaySwitch(e)
      modifies this, task, q, q.heap.next, q.heap.prev, mm, mm.phys_mem, mm.pagusr_table
      ensures Valid() && Abs() == Step(old(Abs()), e)
    {
      InvIsEnough();
      match e {
        case Tick(now) => Schedule(now);
        case Yield(now) => SysYield(now);
        case Block(now) => BlockProcess(now);
        case Unblock(t, now) => UnblockProcess(t, now);
        case Exit(now) => SysExit(now);
      }
    }

    method PerformQuiet(e: Event)
      requires Valid() && KernelInv(Abs()) && SysShape(Abs()) && Enabled(Abs(), e) && StaysOut(e) && !MaySwitch(e) &&
          !e.Store?
      modifies this, task, q, q.heap.next, q.heap.prev, mm, mm.phys_mem, mm.pagusr_table, mm.ram
      ensures Valid() && Abs() == Step(old(Abs()), e)
    {
      InvIsEnough();
      match e {
        case Fork(now) => var _ := SysFork(now);
        case EnterSystem(at) => CrossBoundary(UserTicks, at);
        case LeaveSystem(at) => CrossBoundary(SystemTicks, at);
        case GetStats(pid) => var _, _ := SysGetStats(pid, true);
        case TlbChange(tlb) => mm.tlb := tlb;
      }
    }

    /** The machine runs as the state machine does: from boot, it can perform the events of any run of
        programs that stay out of the kernel, and ends in the state that run ends in, but for what
        the TLB holds. Its own states are a run too, of the same events with changes of the TLB in
        between, so that every theorem about runs holds of the state it ends in. */
    method PerformAll(es: seq<Event>, ghost ks: seq<Sys>) returns (ghost hs: seq<Sys>, ghost fs: seq<Event>)
      requires Valid() && IsRun(ks, es) && KeepsOut(es) && Abs() == ks[0]
      requires forall i :: 0 <= i < |es| ==> !es[i].TlbChange?
      modifies this, task, q, q.heap.next, q.heap.prev, mm, mm.phys_mem, mm.pagusr_table, mm.ram
      ensures Valid() && SameButTlb(ks[|es|], Abs())
      ensures IsRun(hs, fs) && KeepsOut(fs) && hs[0] == ks[0] && hs[|fs|] == Abs() && Calls(fs) == es
    {
      hide IsBoot, Follows, KernelInv, Step, SameButTlb;
      hs, fs := [Abs()], [];
      SameAsItself(Abs());
      for i := 0 to |es|
        invariant Valid() && SameButTlb(ks[i], Abs())
        invariant IsRun(hs, fs) && KeepsOut(fs) && hs[0] == ks[0] && hs[|fs|] == Abs() && Calls(fs) == es[..i]
      {
        RunStep(ks, es, i);
        RunInv(hs, fs, |fs|);
        TlbDoesNotMatter(ks[i], Abs(), es[i]);
        hs, fs := Extended(hs, fs, es[i]);
        Perform(es[i]);
        if es[i].Store? {
          SameAsAfter(ks[i + 1], hs[|fs|], mm.tlb);
          hs, fs := Extended(hs, fs, TlbChange(mm.tlb));
        }
        assert es[..i + 1] == es[..i] + [es[i]];
      }
      assert es[..|es|] == es;
    }

    /** What unlinking the head of the ready queue does to the three queues. */
    lemma ReadyHead(t: nat)
      requires q.Valid() && q.ready != [] && t == q.ready[0]
      ensures t in q.ready && Without(q.ready, t) == q.ready[1..] && Without(q.free, t) == q.free &&
          Without(q.blocked, t) == q.blocked
    {
      WithoutAt(q.ready, 0);
      assert t in q.ready;
      WithoutAbsent(q.free, t);
      WithoutAbsent(q.blocked, t);
    }
  }

  /** Two states that differ at most in the TLB. */
  ghost predicate SameButTlb(k: Sys, r: Sys) {
    r == k.(m := k.m.(tlb := r.m.tlb))
  }

  lemma SameAsItself(k: Sys)
    ensures SameButTlb(k, k)
  {
  }

  lemma SameAsAfter(k: Sys, r: Sys, tlb: map<nat, nat>)
    requires SameButTlb(k, r) && SysShape(r) && Enabled(r, TlbChange(tlb))
    ensures SameButTlb(k, Step(r, TlbChange(tlb)))
  {
  }

  /** What the TLB holds makes no difference to any event. */
  lemma TlbDoesNotMatter(k: Sys, r: Sys, e: Event)
    requires SysShape(k) && SysShape(r) && SameButTlb(k, r) && Enabled(k, e) && StaysOut(e) && !e.TlbChange?
    ensures Enabled(r, e) && SameButTlb(Step(k, e), Step(r, e))
  {
  }

  /** The events of a run other than changes of the TLB. */
  function Calls(es: seq<Event>): seq<Event> {
    if es == [] then []
    else
      var n := |es| - 1;
      if es[n].TlbChange? then Calls(es[..n]) else Calls(es[..n]) + [es[n]]
  }

  /** A store whose translation also changes the TLB is a store followed by a TLB change. */
  lemma StoreThenTlb(k: Sys, page: nat, off: nat, b: Byte, tlb: map<nat, nat>)
    requires KernelInv(k) && SysShape(k) && Enabled(k, Store(page, off, b)) && TlbMayBecome(k.m, tlb)
    ensures var r := Step(k, Store(page, off, b));
            SysShape(r) && Enabled(r, TlbChange(tlb)) && KernelInv(Step(r, TlbChange(tlb)))
  {
    StoreKeepsInv(k, page, off, b);
    var r := Step(k, Store(page, off, b));
    InvShape(r);
    TlbChangeKeepsInv(r, tlb);
  }

  /** The scheduling state that the three initialisation routines leave, put together. */
  lemma BootTasks(b: BootArgs, s: Sched)
    requires s.free == FirstSlots(NR_TASKS)[1..][1..] && s.ready == [] && s.blocked == []
    requires s.cur == 1 && s.idle == 0 && s.rq == DEFAULT_QUANTUM && s.lastPid == 1000 && |s.task| == NR_TASKS
    requires s.task[0] == Task(0, RUN, DEFAULT_QUANTUM, 0, InitStats(b.i0, b.i1))
    requires s.task[1] == Task(1, RUN, DEFAULT_QUANTUM, 1, InitStats(b.t0, b.t1))
    requires forall i :: 2 <= i < NR_TASKS ==> s.task[i] == FREE_TASK
    ensures s == BootSched(b.i0, b.i1, b.t0, b.t1)
  {
    assert s.free == BOOT_FREE;
    assert s.task == BootSched(b.i0, b.i1, b.t0, b.t1).task;
  }

  lemma BootTables(b: BootArgs, m: Mem)
    requires m.phys == BootPhys(NUM_PAG_CODE + NUM_PAG_DATA) && m.ram == b.ram && m.tlb == map[] && m.cr3 == 1
    requires |m.pt| == NR_TASKS && m.pt[1] == Task1Row(b.guard0, b.guard1)
    requires forall i :: 0 <= i < NR_TASKS && i != 1 ==> m.pt[i] == KernelRow(b.guard0, b.guard1)
    ensures m == BootMem(b.guard0, b.guard1, b.ram)
  {
    assert m.pt == BootMem(b.guard0, b.guard1, b.ram).pt;
  }

  /** The five task updates of `sched_next_rr`, in the order it makes them, amount to a dispatch. */
  lemma DispatchInOrder(s: Sched, now: Clock)
    requires Shape(s)
    ensures var t, d := Chosen(s), Dispatch(s, now);
            var a := s.task[t := s.task[t].(state := RUN)];
            var b := a[s.cur := a[s.cur].(stats := Charge(a[s.cur].stats, SystemTicks, now.leave))];
            var c := b[t := b[t].(stats := Charge(b[t].stats, ReadyTicks, now.enter))];
            && d.task == c[t := c[t].(stats := c[t].stats.(trans := Add32(c[t].stats.trans, 1)))]
            && d.task[t].dir == c[t].dir && d.rq == a[t].quantum
  {
    var t, d := Chosen(s), Dispatch(s, now);
    var a := s.task[t := s.task[t].(state := RUN)];
    var b := a[s.cur := a[s.cur].(stats := Charge(a[s.cur].stats, SystemTicks, now.leave))];
    var c := b[t := b[t].(stats := Charge(b[t].stats, ReadyTicks, now.enter))];
    var e := c[t := c[t].(stats := c[t].stats.(trans := Add32(c[t].stats.trans, 1)))];
    forall i | 0 <= i < NR_TASKS
      ensures d.task[i] == e[i]
    {
    }
  }

  function FirstSlots(n: nat): seq<nat> {
    seq<nat>(n, i requires 0 <= i < n => i)
  }
}
