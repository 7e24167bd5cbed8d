/**
 What every event does to the scheduling state, field by field and task by task, in terms of the
 state before it: who joins which queue and where, who gets the processor and for how long, and what
 each task's statistics gain.
 */
module Effects {
  import opened Fairness
  import opened Isolation
  import opened Kernel
  import opened KernelTypes
  import opened Ownership
  import opened Paging
  import opened Scheduler
  import opened Seqs

  /** The event gives the processor away. */
  predicate Switches(s: Sched, e: Event) {
    e.Yield? || e.Block? || e.Exit? || (e.Tick? && s.rq == 1 && s.ready != [])
  }

  lemma SwitchesIsDispatch(k: Sys, e: Event)
    requires KernelInv(k) && SysShape(k) && Enabled(k, e)
    ensures PrepOf(k, e).dispatch <==> Switches(k.s, e)
  {
    if e.Unblock? {
      UnblockIsUpdate(k.s, e.t, e.now);
    }
  }

  /** The tasks the event puts on the ready queue. */
  function Joins(s: Sched, e: Event): seq<nat> {
    if e.Yield? || (e.Tick? && Switches(s, e)) then [s.cur]
    else if e.Unblock? then [e.t]
    else if e.Fork? && s.free != [] then [s.free[0]]
    else []
  }

  /** The queues, the current task and the counters after every event. */
  lemma QueuesAfter(k: Sys, e: Event)
    requires KernelInv(k) && SysShape(k) && Enabled(k, e) && StaysOut(e)
    ensures var s, r, q := k.s, Step(k, e).s, k.s.ready + Joins(k.s, e);
            && r.ready == (if Switches(s, e) && q != [] then q[1..] else q)
            && r.cur == (if !Switches(s, e) then s.cur else if q == [] then s.idle else q[0])
            && r.rq == (if Switches(s, e) || (e.Tick? && s.rq == 1) then 10 else if e.Tick? then s.rq - 1 else s.rq)
            && r.free == (if e.Exit? then s.free + [s.cur] else if e.Fork? && s.free != [] then s.free[1..] else s.free)
            && r.idle == s.idle
            && r.lastPid == (if e.Fork? && s.free != [] then s.lastPid + 1 else s.lastPid)
    ensures !e.Unblock? ==> Step(k, e).s.blocked == if e.Block? then k.s.blocked + [k.s.cur] else k.s.blocked
    ensures e.Unblock? ==>
              forall i :: 0 <= i < |k.s.blocked| && k.s.blocked[i] == e.t ==>
                Step(k, e).s.blocked == k.s.blocked[..i] + k.s.blocked[i + 1..]
  {
    SwitchesIsDispatch(k, e);
    if Switches(k.s, e) {
      DispatchingStep(k, e);
      PreparedState(k, e);
      DispatchFields(PrepOf(k, e).s, e.now);
    } else if e.Unblock? {
      UnblockQueues(k, e.t, e.now);
    } else if e.Fork? {
      if k.s.free != [] {
        ForkStep(k, e.now);
      }
    } else {
      QuietQueues(k, e);
    }
  }

  /** What a dispatch finds: the task that gives up the processor on its queue, and all else as before. */
  lemma PreparedState(k: Sys, e: Event)
    requires KernelInv(k) && SysShape(k) && Enabled(k, e) && Switches(k.s, e)
    ensures var s, p := k.s, PrepOf(k, e).s;
            && p.ready == s.ready + Joins(s, e) && p.cur == s.cur && p.idle == s.idle && p.lastPid == s.lastPid
            && p.free == (if e.Exit? then s.free + [s.cur] else s.free)
            && p.blocked == (if e.Block? then s.blocked + [s.cur] else s.blocked)
    ensures forall i: nat :: i < NR_TASKS ==> PrepOf(k, e).s.task[i].quantum == k.s.task[i].quantum
  {
    assert k.s.cur in {k.s.cur};
  }

  lemma DispatchFields(s: Sched, now: Clock)
    requires Core(s, {})
    ensures var r := Dispatch(s, now);
            && r.ready == (if s.ready == [] then [] else s.ready[1..])
            && r.cur == (if s.ready == [] then s.idle else s.ready[0])
            && r.rq == 10 && r.free == s.free && r.blocked == s.blocked && r.idle == s.idle && r.lastPid == s.lastPid
  {
    assert s.ready != [] ==> s.ready[0] in s.ready;
  }

  lemma UnblockQueues(k: Sys, t: nat, now: Clock)
    requires KernelInv(k) && SysShape(k) && t in k.s.blocked
    ensures var s, r := k.s, Step(k, Unblock(t, now)).s;
            && r.ready == s.ready + [t] && r.free == s.free && r.cur == s.cur && r.idle == s.idle
            && r.rq == s.rq && r.lastPid == s.lastPid
            && forall i :: 0 <= i < |s.blocked| && s.blocked[i] == t ==>
                r.blocked == s.blocked[..i] + s.blocked[i + 1..]
  {
    UnblockIsUpdate(k.s, t, now);
    ChargeKeepsCore(k.s, t, BlockedTicks, now.a, now.b, {k.s.cur});
    UnblockMoves(ChargeTask(k.s, t, BlockedTicks, now.a, now.b), t, now.c);
    forall i | 0 <= i < |k.s.blocked| && k.s.blocked[i] == t
      ensures Step(k, Unblock(t, now)).s.blocked == k.s.blocked[..i] + k.s.blocked[i + 1..]
    {
      WithoutAt(k.s.blocked, i);
    }
  }

  lemma QuietQueues(k: Sys, e: Event)
    requires KernelInv(k) && SysShape(k) && Enabled(k, e) && StaysOut(e) && !Switches(k.s, e) && !e.Unblock? && !e.Fork?
    ensures var s, r := k.s, Step(k, e).s;
            && r.ready == s.ready && r.free == s.free && r.blocked == s.blocked
            && r.cur == s.cur && r.idle == s.idle && r.lastPid == s.lastPid
            && r.rq == (if !e.Tick? then s.rq else if s.rq == 1 then 10 else s.rq - 1)
  {
    assert k.s.cur in {k.s.cur};
  }

  // ---------------------------------------------------------------- tasks

  /** The state, PID, quantum and page directory of every task, live or not, after every event. */
  lemma TasksAfter(k: Sys, e: Event, i: nat)
    requires KernelInv(k) && SysShape(k) && Enabled(k, e) && StaysOut(e) && i < NR_TASKS
    ensures |Step(k, e).s.task| == NR_TASKS
    ensures var s, x, y := k.s, k.s.task[i], Step(k, e).s.task[i];
            var born := e.Fork? && s.free != [] && i == s.free[0];
            && y.pid == (if born then s.lastPid + 1 else if e.Exit? && i == s.cur then -1 else x.pid)
            && y.dir == (if born then i else x.dir)
            && y.quantum == (if born then 10 else x.quantum)
            && y.state == (if Switches(s, e) && i == Step(k, e).s.cur then RUN
                           else if i in Joins(s, e) then READY
                           else if e.Block? && i == s.cur then BLOCKED
                           else x.state)
  {
    hide Dispatch, MemInv;
    SwitchesIsDispatch(k, e);
    if Switches(k.s, e) {
      DispatchingStep(k, e);
      PreparedTask(k, e, i);
      DispatchTasks(PrepOf(k, e).s, e.now);
    } else if e.Unblock? {
      UnblockIsUpdate(k.s, e.t, e.now);
    } else if e.Fork? {
      if k.s.free != [] {
        ForkStep(k, e.now);
        assert k.s.cur in {k.s.cur};
      }
    } else {
      QuietTask(k, e, i);
    }
  }

  lemma PreparedTask(k: Sys, e: Event, i: nat)
    requires KernelInv(k) && SysShape(k) && Enabled(k, e) && Switches(k.s, e) && i < NR_TASKS
    ensures var s, x, y := k.s, k.s.task[i], PrepOf(k, e).s.task[i];
            && y.pid == (if e.Exit? && i == s.cur then -1 else x.pid) && y.dir == x.dir && y.quantum == x.quantum
            && y.state == (if i in Joins(s, e) then READY else if e.Block? && i == s.cur then BLOCKED else x.state)
  {
  }

  lemma QuietTask(k: Sys, e: Event, i: nat)
    requires KernelInv(k) && SysShape(k) && Enabled(k, e) && StaysOut(e) && i < NR_TASKS
    requires !Switches(k.s, e) && !e.Unblock? && !e.Fork?
    ensures |Step(k, e).s.task| == NR_TASKS
    ensures var x, y := k.s.task[i], Step(k, e).s.task[i];
            y.pid == x.pid && y.dir == x.dir && y.quantum == x.quantum && y.state == x.state
  {
  }

  // ---------------------------------------------------------------- statistics

  /** `v` and the ticks from `from` to `to`, on unsigned longs. */
  function Plus(v: Word, from: Word, to: Word): Word {
    (v + to - from) % 0x1_0000_0000
  }

  /** The statistics of every task, live or not, after an event that does not switch. Only the task
      the event is about is charged. */
  lemma StatsAfterQuiet(k: Sys, e: Event, i: nat)
    requires KernelInv(k) && SysShape(k) && Enabled(k, e) && StaysOut(e) && i < NR_TASKS && !Switches(k.s, e)
    ensures |Step(k, e).s.task| == NR_TASKS
    ensures var s, x, y := k.s, k.s.task[i].stats, Step(k, e).s.task[i].stats;
            if e.EnterSystem? && i == s.cur then y == x.(user := Plus(x.user, x.elapsed, e.at), elapsed := e.at)
            else if e.LeaveSystem? &&
                i == s.cur then y == x.(system := Plus(x.system, x.elapsed, e.at), elapsed := e.at)
            else if e.Unblock? && i == e.t then
              y == x.(blocked := Plus(x.blocked, x.elapsed, e.now.a), system := Plus(x.system, e.now.b, e.now.c),
                      elapsed := e.now.c)
            else if e.Fork? && s.free != [] && i == s.free[0] then y == Stats(0, 0, 0, 0, e.now.a, 0, e.now.b)
            else if e.GetStats? && 0 <= e.pid == s.task[i].pid then y == x.(remaining := s.rq)
            else y == x
  {
    SwitchesIsDispatch(k, e);
    match e
    case Unblock(t, now) =>
      UnblockIsUpdate(k.s, t, now);
      UnblockCharges(k.s, t, now, i);
    case Fork(now) =>
      if k.s.free != [] {
        ForkStep(k, now);
      }
    case GetStats(pid) => GetStatsRecords(k, pid, i);
    case _ => QuietCharges(k, e, i);
  }

  lemma UnblockCharges(s: Sched, t: nat, now: Clock, i: nat)
    requires Inv(s) && t in s.blocked && t < NR_TASKS && i < NR_TASKS
    ensures var x := s.task[i].stats;
            var y := UpdateProcessState(ChargeTask(s, t, BlockedTicks, now.a, now.b), t, ToReady, now.c).task[i].stats;
            y == if i != t then x
                 else x.(blocked := Plus(x.blocked, x.elapsed, now.a), system := Plus(x.system, now.b, now.c),
                     elapsed := now.c)
  {
    PlusIsAdd(s.task[t].stats.blocked, s.task[t].stats.elapsed, now.a);
    PlusIsAdd(s.task[t].stats.system, now.b, now.c);
  }

  lemma PlusIsAdd(v: Word, from: Word, to: Word)
    ensures Add32(v, Sub32(to, from)) == Plus(v, from, to)
  {
  }

  lemma QuietCharges(k: Sys, e: Event, i: nat)
    requires KernelInv(k) && SysShape(k) && Enabled(k, e) && StaysOut(e) && i < NR_TASKS && !Switches(k.s, e)
    requires !e.Unblock? && !e.Fork? && !e.GetStats?
    ensures |Step(k, e).s.task| == NR_TASKS
    ensures var s, x, y := k.s, k.s.task[i].stats, Step(k, e).s.task[i].stats;
            if e.EnterSystem? && i == s.cur then y == x.(user := Plus(x.user, x.elapsed, e.at), elapsed := e.at)
            else if e.LeaveSystem? &&
                i == s.cur then y == x.(system := Plus(x.system, x.elapsed, e.at), elapsed := e.at)
            else y == x
  {
    if e.EnterSystem? {
      PlusIsAdd(k.s.task[k.s.cur].stats.user, k.s.task[k.s.cur].stats.elapsed, e.at);
    } else if e.LeaveSystem? {
      PlusIsAdd(k.s.task[k.s.cur].stats.system, k.s.task[k.s.cur].stats.elapsed, e.at);
    }
  }

  /** `sys_get_stats` records the quantum of whoever is current in the one task with that PID. */
  lemma GetStatsRecords(k: Sys, pid: int, i: nat)
    requires KernelInv(k) && SysShape(k) && i < NR_TASKS
    ensures |Step(k, GetStats(pid)).s.task| == NR_TASKS
    ensures var x, y := k.s.task[i], Step(k, GetStats(pid)).s.task[i];
            y == if 0 <= pid == x.pid then x.(stats := x.stats.(remaining := k.s.rq)) else x
  {
    var j := FindPid(k.s.task, pid, 0);
    if 0 <= pid && j != -1 {
      assert j !in k.s.free;
      assert 0 <= pid == k.s.task[i].pid ==> i !in k.s.free;
      assert i < j ==> k.s.task[i].pid != k.s.task[j].pid;
      assert 0 <= pid == k.s.task[i].pid ==> i == j;
    }
  }

  /** And after an event that switches. The task that gives up the processor is charged system ticks up
      to the first clock read of the dispatch, however often it was charged on the way; the one that
      gets it is charged ready ticks up to the second; no other task is charged. */
  lemma StatsAfterSwitch(k: Sys, e: Event, i: nat)
    requires KernelInv(k) && SysShape(k) && Enabled(k, e) && Switches(k.s, e) && i < NR_TASKS
    ensures |Step(k, e).s.task| == NR_TASKS
    ensures var s, x, y := k.s, k.s.task[i].stats, Step(k, e).s.task[i].stats;
            var used := if e.Block? then Plus(Plus(x.system, x.elapsed, e.now.a), e.now.b, e.now.leave)
                        else Plus(x.system, x.elapsed, e.now.leave);
            var left := if i == s.cur then x.(system := used, elapsed := e.now.leave) else x;
            y == if i != Step(k, e).s.cur then left
                 else left.(ready := Plus(left.ready, left.elapsed, e.now.enter), elapsed := e.now.enter,
                            trans := (left.trans + 1) % 0x1_0000_0000)
  {
    hide Dispatch, MemInv, UpdateProcessState;
    SwitchesIsDispatch(k, e);
    DispatchingStep(k, e);
    PreparedStats(k, e, i);
    PreparedState(k, e);
    DispatchCharges(PrepOf(k, e).s, e.now, i);
    var x := k.s.task[i].stats;
    PlusTwice(x.system, x.elapsed, e.now.a, e.now.leave);
  }

  lemma PlusTwice(v: Word, a: Word, b: Word, c: Word)
    ensures Plus(Plus(v, a, b), b, c) == Plus(v, a, c)
  {
  }

  /** Before the dispatch the task that gives up the processor has been charged once, except by an exit. */
  lemma PreparedStats(k: Sys, e: Event, i: nat)
    requires KernelInv(k) && SysShape(k) && Enabled(k, e) && Switches(k.s, e) && i < NR_TASKS
    ensures var x, y := k.s.task[i].stats, PrepOf(k, e).s.task[i].stats;
            y == if i != k.s.cur || e.Exit? then x
                 else x.(system := Plus(x.system, x.elapsed, e.now.a), elapsed := if e.Block? then e.now.b else e.now.a)
  {
    PlusIsAdd(k.s.task[k.s.cur].stats.system, k.s.task[k.s.cur].stats.elapsed, e.now.a);
  }

  lemma DispatchCharges(s: Sched, now: Clock, i: nat)
    requires Shape(s) && i < NR_TASKS
    ensures var x, y := s.task[i].stats, Dispatch(s, now).task[i].stats;
            var left := if i == s.cur then x.(system := Plus(x.system, x.elapsed, now.leave), elapsed := now.leave)
                else x;
            y == if i != Dispatch(s, now).cur then left
                 else left.(ready := Plus(left.ready, left.elapsed, now.enter), elapsed := now.enter,
                            trans := (left.trans + 1) % 0x1_0000_0000)
  {
    var x := s.task[i].stats;
    PlusIsAdd(x.system, x.elapsed, now.leave);
    PlusIsAdd(x.ready, x.elapsed, now.enter);
    PlusIsAdd(x.ready, now.leave, now.enter);
  }

  // ---------------------------------------------------------------- memory

  /** Memory after every event that neither forks, exits nor stores: only a switch touches it, by
      loading the page directory of the task it switches to and emptying the TLB. */
  lemma MemoryAfterQuiet(k: Sys, e: Event)
    requires KernelInv(k) && SysShape(k) && Enabled(k, e) && StaysOut(e)
    requires !e.Fork? && !e.Exit? && !e.Store? && !e.TlbChange?
    ensures var m, r := k.m, Step(k, e).m;
            && r.phys == m.phys && r.pt == m.pt && r.ram == m.ram && r.cr3 == Step(k, e).s.cur
            && r.tlb == if Switches(k.s, e) then map[] else m.tlb
  {
    StepKeepsInv(k, e);
    SwitchesIsDispatch(k, e);
  }

  /** A store changes one byte of the frame its page is mapped to, and nothing else at all. */
  lemma MemoryAfterStore(k: Sys, page: nat, off: nat, b: Byte, f: nat, o: nat)
    requires KernelInv(k) && SysShape(k) && Enabled(k, Store(page, off, b)) && f < TOTAL_PAGES && o < PAGE_SIZE
    ensures var m, r := k.m, Step(k, Store(page, off, b)).m;
            && MemShape(r) && r.phys == m.phys && r.pt == m.pt && r.cr3 == m.cr3 && r.tlb == m.tlb
            && r.ram[f][o] == if Translates(m, page, f) && o == off then b else m.ram[f][o]
  {
    StoreKeepsInv(k, page, off, b);
    var entry := k.m.pt[k.m.cr3][page];
    assert page in k.m.tlb ==> Maps(entry, k.m.tlb[page]);
    assert Translates(k.m, page, f) <==> f == entry.frame;
  }

  /** An exit gives back the data frames of the exiting slot and empties its data entries; no other
      entry, no other frame's use and no byte of memory changes. */
  lemma MemoryAfterExit(k: Sys, now: Clock)
    requires KernelInv(k) && SysShape(k) && Enabled(k, Exit(now))
    ensures var m, r, c := k.m, Step(k, Exit(now)).m, k.s.cur;
            && MemShape(r) && r.ram == m.ram && r.tlb == map[] && r.cr3 == Step(k, Exit(now)).s.cur
            && (forall f :: 0 <= f < TOTAL_PAGES ==> (r.phys[f] <==> m.phys[f] && !Owned(m, {c}, f)))
            && (forall i :: 0 <= i < NR_TASKS && i != c ==> r.pt[i] == m.pt[i])
            && (forall p :: 0 <= p < TOTAL_PAGES ==>
                  r.pt[c][p] == if PAG_LOG_INIT_DATA <= p < PAG_LOG_INIT_DATA + NUM_PAG_DATA then EMPTY_ENTRY
                      else m.pt[c][p])
  {
    InvShape(k);
    ExitKeepsInv(k, now);
    ReleasedMemory(k.m, Procs(k.s), k.s.cur);
    hide ReleaseMem, OwnInv, Inv;
  }

  lemma ReleasedMemory(m: Mem, procs: set<nat>, c: nat)
    requires OwnInv(m, procs) && c in procs && c < NR_TASKS
    ensures var r := ReleaseMem(m, c);
            && |r.phys| == TOTAL_PAGES && |r.pt| == NR_TASKS && |r.pt[c]| == TOTAL_PAGES
            && r.ram == m.ram && r.cr3 == m.cr3 && r.tlb == m.tlb
            && (forall f :: 0 <= f < TOTAL_PAGES ==> (r.phys[f] <==> m.phys[f] && !Owned(m, {c}, f)))
            && (forall i :: 0 <= i < NR_TASKS && i != c ==> r.pt[i] == m.pt[i])
            && (forall p :: 0 <= p < TOTAL_PAGES ==>
                  r.pt[c][p] == if PAG_LOG_INIT_DATA <= p < PAG_LOG_INIT_DATA + NUM_PAG_DATA then EMPTY_ENTRY
                      else m.pt[c][p])
  {
    ReleasedFrames(m, procs, c);
    OwnedByOne(m, c, Frames(m.pt[c], PAG_LOG_INIT_DATA, NUM_PAG_DATA));
  }

  /** The frames of one slot, as a set and as a sequence. */
  lemma OwnedByOne(m: Mem, c: nat, fs: seq<nat>)
    requires MemShape(m) && c < NR_TASKS && |fs| == NUM_PAG_DATA
    requires forall d :: 0 <= d < NUM_PAG_DATA ==> fs[d] == DataFrame(m, c, d)
    ensures forall f: nat :: f in fs <==> Owned(m, {c}, f)
  {
    forall f: nat
      ensures f in fs <==> Owned(m, {c}, f)
    {
      if f in fs {
        var d :| 0 <= d < NUM_PAG_DATA && fs[d] == f;
        assert DataFrame(m, c, d) == f;
      }
      if Owned(m, {c}, f) {
        var i, d :| i in {c} && i < NR_TASKS && 0 <= d < NUM_PAG_DATA && DataFrame(m, i, d) == f;
        assert fs[d] == f;
      }
    }
  }

  /** A fork with a free slot: the frames in use are those that were and the child's new ones, the
      child's table opens every kernel and code page and its own data pages to it and maps nothing
      else, every other table is as it was, and the TLB is empty. Without one nothing changes. */
  lemma MemoryAfterFork(k: Sys, now: Clock)
    requires KernelInv(k) && SysShape(k) && Enabled(k, Fork(now))
    ensures k.s.free == [] ==> Step(k, Fork(now)) == k
    ensures k.s.free != [] ==>
              var m, r, c := k.m, Step(k, Fork(now)).m, k.s.free[0];
              && c < NR_TASKS && MemShape(r) && r.tlb == map[] && r.cr3 == m.cr3
              && (forall f :: 0 <= f < TOTAL_PAGES ==> (r.phys[f] <==> m.phys[f] || Owned(r, {c}, f)))
              && (forall i :: 0 <= i < NR_TASKS && i != c ==> r.pt[i] == m.pt[i])
              && (forall p :: 0 <= p < NUM_PAG_KERNEL ==> r.pt[c][p] == PTE(true, p, true, true))
              && (forall p :: PAG_LOG_INIT_CODE <= p < PAG_LOG_INIT_DATA ==>
                   r.pt[c][p] == PTE(true, 2 * p - 256, true, true))
              && (forall d :: 0 <= d < NUM_PAG_DATA ==>
                    r.pt[c][PAG_LOG_INIT_DATA + d] == PTE(true, DataFrame(r, c, d), true, true) &&
                        !m.phys[DataFrame(r, c, d)])
              && (forall p :: PAG_LOG_INIT_DATA + NUM_PAG_DATA <= p < TOTAL_PAGES ==>
                   r.pt[c][p] == PTE(false, 0, false, false))
  {
    InvShape(k);
    if k.s.free != [] {
      ForkStep(k, now);
      ForkKeepsInv(k, now);
      var c, fs := k.s.free[0], AllocMany(k.m.phys, NUM_PAG_DATA).1;
      ForkRows(k.m, Procs(k.s), k.s.cur, c);
      AllocManyFrames(k.m.phys, NUM_PAG_DATA);
      ForkedRow(ForkMem(k.m, k.s.cur, c).0.pt[c]);
      ForkedFrames(k.m, ForkMem(k.m, k.s.cur, c).0, c, fs);
    }
  }

  lemma ForkedRow(row: Row)
    requires |row| == TOTAL_PAGES
    requires forall c :: 0 <= c < NUM_PAG_CODE ==> row[PAG_LOG_INIT_CODE + c] == UserPage(NUM_PAG_KERNEL + 2 * c, true)
    ensures forall p :: PAG_LOG_INIT_CODE <= p < PAG_LOG_INIT_DATA ==> row[p] == PTE(true, 2 * p - 256, true, true)
  {
    forall p | PAG_LOG_INIT_CODE <= p < PAG_LOG_INIT_DATA
      ensures row[p] == PTE(true, 2 * p - 256, true, true)
    {
      assert row[PAG_LOG_INIT_CODE + (p - PAG_LOG_INIT_CODE)] ==
          UserPage(NUM_PAG_KERNEL + 2 * (p - PAG_LOG_INIT_CODE), true);
    }
  }

  lemma ForkedFrames(m: Mem, r: Mem, c: nat, fs: seq<nat>)
    requires MemShape(m) && MemShape(r) && c < NR_TASKS && |fs| == NUM_PAG_DATA
    requires forall d :: 0 <= d < NUM_PAG_DATA ==> r.pt[c][PAG_LOG_INIT_DATA + d] == UserPage(fs[d], true)
    requires forall f :: f in fs ==> f < TOTAL_PAGES && !m.phys[f]
    requires forall f :: 0 <= f < TOTAL_PAGES ==> (r.phys[f] <==> m.phys[f] || f in fs)
    ensures forall f :: 0 <= f < TOTAL_PAGES ==> (r.phys[f] <==> m.phys[f] || Owned(r, {c}, f))
    ensures forall d :: 0 <= d < NUM_PAG_DATA ==> DataEntry(r, c, d) == UserPage(fs[d], true) && !m.phys[fs[d]]
  {
    OwnedByOne(r, c, fs);
    forall d | 0 <= d < NUM_PAG_DATA
      ensures DataEntry(r, c, d) == UserPage(fs[d], true) && !m.phys[fs[d]]
    {
      assert fs[d] in fs;
    }
  }
}
