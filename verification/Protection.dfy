/**
 What paging protects: the kernel's pages and the shared code from task 1, and from no process made
 by fork. `sys_fork` enters every page of the child with `set_ss_pag`, which sets the user and the
 write bit; so that user programs stay out of the kernel is a hypothesis about the programs.
 */
module Protection {
  import opened BootState
  import opened Effects
  import opened Isolation
  import opened Kernel
  import opened KernelTypes
  import opened Ownership
  import opened Paging
  import opened Runs
  import opened Scheduler

  /** No kernel and no code page can be written by the user program. */
  ghost predicate Guarded(row: Row)
    requires |row| == TOTAL_PAGES
  {
    forall p :: 0 <= p < PAG_LOG_INIT_DATA ==> !UserWritable(row[p])
  }

  /** Every one of them can. */
  ghost predicate Open(row: Row)
    requires |row| == TOTAL_PAGES
  {
    forall p :: 0 <= p < PAG_LOG_INIT_DATA ==> UserWritable(row[p])
  }

  /** Task 1 is guarded, and every other process is not. */
  ghost predicate Guards(s: Sched, pt: seq<Row>) {
    && |s.task| == |pt| == NR_TASKS
    && (forall i :: 0 <= i < NR_TASKS ==> |pt[i]| == TOTAL_PAGES)
    && forall i :: i in Procs(s) ==> if s.task[i].pid == 1 then Guarded(pt[i]) else Open(pt[i])
  }

  lemma BootGuards(b: BootArgs)
    requires RamShape(b.ram)
    ensures Guards(BootSys(b).s, BootSys(b).m.pt)
  {
    BootSchedInv(b.i0, b.i1, b.t0, b.t1);
    BootRows(b.guard0, b.guard1);
    var row := Task1Row(b.guard0, b.guard1);
    forall p | 0 <= p < PAG_LOG_INIT_DATA
      ensures !UserWritable(row[p])
    {
      if p < NUM_PAG_KERNEL {
        assert row[p] == KernelRow(b.guard0, b.guard1)[p];
      }
    }
  }

  /** A forked child can write every kernel and code page, even where its parent cannot. */
  lemma ForkOpens(m: Mem, procs: set<nat>, parent: nat, child: nat)
    requires OwnInv(m, procs) && parent in procs && child < NR_TASKS && child !in procs
    requires ForkMem(m, parent, child).1
    ensures var r := ForkMem(m, parent, child).0;
            |r.pt| == NR_TASKS && |r.pt[child]| == TOTAL_PAGES && Open(r.pt[child])
  {
    ForkRows(m, procs, parent, child);
    var row := ForkMem(m, parent, child).0.pt[child];
    forall p | 0 <= p < PAG_LOG_INIT_DATA
      ensures UserWritable(row[p])
    {
      if p >= NUM_PAG_KERNEL {
        assert row[PAG_LOG_INIT_CODE + (p - PAG_LOG_INIT_CODE)] ==
            UserPage(NUM_PAG_KERNEL + 2 * (p - PAG_LOG_INIT_CODE), true);
      }
    }
  }

  lemma ForkGuards(k: Sys, now: Clock)
    requires KernelInv(k) && SysShape(k) && Enabled(k, Fork(now)) && k.s.free != [] && Guards(k.s, k.m.pt)
    ensures Guards(Step(k, Fork(now)).s, Step(k, Fork(now)).m.pt)
  {
    InvShape(k);
    ForkStep(k, now);
    ForkProcs(k.s, now);
    ForkRows(k.m, Procs(k.s), k.s.cur, k.s.free[0]);
    ForkOpens(k.m, Procs(k.s), k.s.cur, k.s.free[0]);
  }

  lemma ExitGuards(k: Sys, now: Clock)
    requires KernelInv(k) && SysShape(k) && Enabled(k, Exit(now)) && Guards(k.s, k.m.pt)
    ensures Guards(Step(k, Exit(now)).s, Step(k, Exit(now)).m.pt)
  {
    InvShape(k);
    var p := ExitPrep(k.s);
    DispatchTasks(p.s, now);
    assert Procs(Step(k, Exit(now)).s) == Procs(k.s) - {k.s.cur};
  }

  /** Only fork and exit change PIDs. */
  lemma QuietPids(k: Sys, e: Event)
    requires KernelInv(k) && SysShape(k) && Enabled(k, e) && StaysOut(e) && !e.Fork? && !e.Exit?
    ensures |Step(k, e).s.task| == NR_TASKS
    ensures forall i :: 0 <= i < NR_TASKS ==> Step(k, e).s.task[i].pid == k.s.task[i].pid
  {
    if e.Unblock? {
      UnblockIsUpdate(k.s, e.t, e.now);
    } else if e.Tick? || e.Yield? || e.Block? {
      SwitchPids(k, e);
    }
  }

  lemma SwitchPids(k: Sys, e: Event)
    requires KernelInv(k) && SysShape(k) && Enabled(k, e) && (e.Tick? || e.Yield? || e.Block?)
    ensures forall i: nat :: i < NR_TASKS ==> Step(k, e).s.task[i].pid == k.s.task[i].pid
  {
    hide Dispatch;
    if e.Tick? {
      DispatchTasks(TickPrep(k.s, e.now).s, e.now);
    } else if e.Yield? {
      DispatchTasks(YieldPrep(k.s, e.now).s, e.now);
    } else {
      DispatchTasks(BlockPrep(k.s, e.now).s, e.now);
    }
  }

  lemma StepGuards(k: Sys, e: Event)
    requires KernelInv(k) && SysShape(k) && Enabled(k, e) && StaysOut(e) && Guards(k.s, k.m.pt)
    ensures Guards(Step(k, e).s, Step(k, e).m.pt)
  {
    if e.Fork? {
      if k.s.free != [] {
        ForkGuards(k, e.now);
      }
    } else if e.Exit? {
      ExitGuards(k, e.now);
    } else {
      QuietPids(k, e);
      if !e.Store? {
        QuietStep(k, e);
      }
    }
  }

  lemma {:induction false} RunGuards(ks: seq<Sys>, es: seq<Event>, n: nat)
    requires IsRun(ks, es) && KeepsOut(es) && n <= |es|
    ensures Guards(ks[n].s, ks[n].m.pt)
  {
    hide Guards, Follows, IsBoot, KernelInv, Step;
    if n == 0 {
      BootIsGuarded(ks[0]);
    } else {
      RunGuards(ks, es, n - 1);
      RunStep(ks, es, n - 1);
      StepGuards(ks[n - 1], es[n - 1]);
    }
  }

  lemma BootIsGuarded(k: Sys)
    requires IsBoot(k)
    ensures Guards(k.s, k.m.pt)
  {
    var b: BootArgs :| RamShape(b.ram) && k == BootSys(b);
    BootGuards(b);
  }

  /** Exactly which user programs can store to the kernel's pages and to the shared code, in every
      run so far kept out of the kernel: all but task 1. */
  lemma KernelIsOpen(ks: seq<Sys>, es: seq<Event>, n: nat, page: nat)
    requires IsRun(ks, es) && KeepsOut(es) && n <= |es| && ks[n].s.cur != ks[n].s.idle && page < PAG_LOG_INIT_DATA
    ensures SysShape(ks[n])
    ensures UserMayStore(ks[n].m, page) <==> ks[n].s.task[ks[n].s.cur].pid != 1
  {
    RunInv(ks, es, n);
    RunGuards(ks, es, n);
    InvShape(ks[n]);
  }

  // ---------------------------------------------------------------- the kernel's pages in each table

  /** Task 1 and idle have the kernel entries boot gave them, `first`; the other processes have every
      kernel page present and open. */
  ghost predicate KernelEntries(s: Sched, pt: seq<Row>, first: Row) {
    && |s.task| == |pt| == NR_TASKS && |first| == TOTAL_PAGES && s.idle < NR_TASKS
    && (forall i :: 0 <= i < NR_TASKS ==> |pt[i]| == TOTAL_PAGES)
    && (forall p :: 0 <= p < NUM_PAG_KERNEL ==> pt[s.idle][p] == first[p])
    && forall i, p :: i in Procs(s) && 0 <= p < NUM_PAG_KERNEL ==>
         pt[i][p] == if s.task[i].pid == 1 then first[p] else PTE(true, p, true, true)
  }

  lemma StepKeepsEntries(k: Sys, e: Event, first: Row)
    requires KernelInv(k) && SysShape(k) && Enabled(k, e) && StaysOut(e) && KernelEntries(k.s, k.m.pt, first)
    ensures KernelEntries(Step(k, e).s, Step(k, e).m.pt, first)
  {
    if e.Fork? {
      if k.s.free != [] {
        ForkKeepsEntries(k, e.now, first);
      }
    } else if e.Exit? {
      ExitKeepsEntries(k, e.now, first);
    } else {
      SameTables(k, e);
      SameProcs(k, e);
      hide Step;
    }
  }

  lemma ForkKeepsEntries(k: Sys, now: Clock, first: Row)
    requires KernelInv(k) && SysShape(k) && Enabled(k, Fork(now)) && k.s.free != [] && KernelEntries(k.s, k.m.pt, first)
    ensures KernelEntries(Step(k, Fork(now)).s, Step(k, Fork(now)).m.pt, first)
  {
    MemoryAfterFork(k, now);
    ForkedProcs(k, now);
    hide Step, KernelInv, Procs;
    EntriesCarryOver(k.s, k.m.pt, Step(k, Fork(now)).s, Step(k, Fork(now)).m.pt, first, {k.s.free[0]});
  }

  lemma ForkedProcs(k: Sys, now: Clock)
    requires KernelInv(k) && SysShape(k) && Enabled(k, Fork(now)) && k.s.free != []
    ensures var s, r, c := k.s, Step(k, Fork(now)).s, k.s.free[0];
            && c < NR_TASKS && c != s.idle && r.idle == s.idle < NR_TASKS && |r.task| == NR_TASKS
            && Procs(r) == Procs(s) + {c} && (forall i :: i in Procs(r) ==> i < NR_TASKS) && r.task[c].pid > 1000
            && forall i: nat :: i < NR_TASKS && i != c ==> r.task[i].pid == s.task[i].pid
  {
    InvShape(k);
    ForkStep(k, now);
    ForkProcs(k.s, now);
    assert k.s.free[0] in k.s.free;
  }

  lemma ExitKeepsEntries(k: Sys, now: Clock, first: Row)
    requires KernelInv(k) && SysShape(k) && Enabled(k, Exit(now)) && KernelEntries(k.s, k.m.pt, first)
    ensures KernelEntries(Step(k, Exit(now)).s, Step(k, Exit(now)).m.pt, first)
  {
    MemoryAfterExit(k, now);
    ExitedProcs(k, now);
    hide Step, KernelInv, Procs;
    EntriesCarryOver(k.s, k.m.pt, Step(k, Exit(now)).s, Step(k, Exit(now)).m.pt, first, {});
  }

  lemma ExitedProcs(k: Sys, now: Clock)
    requires KernelInv(k) && SysShape(k) && Enabled(k, Exit(now))
    ensures var s, r := k.s, Step(k, Exit(now)).s;
            && r.idle == s.idle < NR_TASKS && |r.task| == NR_TASKS
            && Procs(r) == Procs(s) - {s.cur} && (forall i :: i in Procs(r) ==> i < NR_TASKS)
            && forall i: nat :: i < NR_TASKS && i != s.cur ==> r.task[i].pid == s.task[i].pid
  {
    DispatchTasks(ExitPrep(k.s).s, now);
    assert Procs(Step(k, Exit(now)).s) == Procs(k.s) - {k.s.cur};
  }

  /** Old processes keep their PIDs and their kernel entries, and new ones have open tables. */
  lemma EntriesCarryOver(s: Sched, pt: seq<Row>, r: Sched, pr: seq<Row>, first: Row, born: set<nat>)
    requires KernelEntries(s, pt, first) && |r.task| == |pr| == NR_TASKS && r.idle == s.idle && s.idle !in born
    requires forall i :: 0 <= i < NR_TASKS ==> |pr[i]| == TOTAL_PAGES
    requires forall i :: i in Procs(r) ==>
               i < NR_TASKS && (i in born || (i in Procs(s) && r.task[i].pid == s.task[i].pid))
    requires forall i: nat, p :: i < NR_TASKS && i !in born && 0 <= p < NUM_PAG_KERNEL ==> pr[i][p] == pt[i][p]
    requires forall i: nat :: i in born && i < NR_TASKS ==> r.task[i].pid != 1
    requires forall i: nat, p :: i in born && i < NR_TASKS && 0 <= p < NUM_PAG_KERNEL ==>
               pr[i][p] == PTE(true, p, true, true)
    ensures KernelEntries(r, pr, first)
  {
    hide Procs;
  }

  lemma SameProcs(k: Sys, e: Event)
    requires KernelInv(k) && SysShape(k) && Enabled(k, e) && StaysOut(e) && !e.Fork? && !e.Exit?
    ensures Procs(Step(k, e).s) == Procs(k.s) && Step(k, e).s.idle == k.s.idle && |Step(k, e).s.task| == NR_TASKS
    ensures forall i :: 0 <= i < NR_TASKS ==> Step(k, e).s.task[i].pid == k.s.task[i].pid
  {
    QueuesAfter(k, e);
    QuietPids(k, e);
  }

  lemma SameTables(k: Sys, e: Event)
    requires KernelInv(k) && SysShape(k) && Enabled(k, e) && StaysOut(e) && !e.Fork? && !e.Exit?
    ensures Step(k, e).m.pt == k.m.pt
  {
    if !e.Store? && !e.TlbChange? {
      MemoryAfterQuiet(k, e);
    }
  }

  lemma {:induction false} RunKeepsEntries(b: BootArgs, ks: seq<Sys>, es: seq<Event>, n: nat)
    requires IsRun(ks, es) && KeepsOut(es) && n <= |es| && RamShape(b.ram) && ks[0] == BootSys(b)
    ensures KernelEntries(ks[n].s, ks[n].m.pt, KernelRow(b.guard0, b.guard1))
  {
    hide KernelEntries, Follows, IsBoot, KernelInv, Step, BootSys, KernelRow;
    if n == 0 {
      BootEntriesHold(b);
    } else {
      RunKeepsEntries(b, ks, es, n - 1);
      RunStep(ks, es, n - 1);
      StepKeepsEntries(ks[n - 1], es[n - 1], KernelRow(b.guard0, b.guard1));
    }
  }

  lemma BootEntriesHold(b: BootArgs)
    requires RamShape(b.ram)
    ensures KernelEntries(BootSys(b).s, BootSys(b).m.pt, KernelRow(b.guard0, b.guard1))
  {
    BootSchedInv(b.i0, b.i1, b.t0, b.t1);
    BootMemory(b);
  }

  /** Which kernel pages are present in every run: for task 1 and for idle all but page 0 and the two
      guard pages around the task array, and for every other process all of them. */
  lemma NullPageStaysAbsent(b: BootArgs, ks: seq<Sys>, es: seq<Event>, n: nat, i: nat, page: nat)
    requires IsRun(ks, es) && KeepsOut(es) && n <= |es| && RamShape(b.ram) && ks[0] == BootSys(b)
    requires (i in Procs(ks[n].s) || i == ks[n].s.idle) && page < NUM_PAG_KERNEL
    ensures SysShape(ks[n]) && i < NR_TASKS
    ensures ks[n].m.pt[i][page].present <==>
            (i != ks[n].s.idle && ks[n].s.task[i].pid != 1) || (page != 0 && page != b.guard0 && page != b.guard1)
  {
    RunInv(ks, es, n);
    RunKeepsEntries(b, ks, es, n);
    var first := KernelRow(b.guard0, b.guard1);
    assert first[page].present <==> page != 0 && page != b.guard0 && page != b.guard1;
    assert ks[n].m.pt[i][page] ==
           if i != ks[n].s.idle && ks[n].s.task[i].pid != 1 then PTE(true, page, true, true) else first[page];
  }

  // ---------------------------------------------------------------- which runs stay out

  /** So paging keeps the programs out of the kernel in every run in which only task 1 and idle get
      the processor. */
  lemma {:induction false} Task1StaysOut(ks: seq<Sys>, es: seq<Event>)
    requires IsRun(ks, es)
    requires forall i :: 0 <= i < |es| ==> OnlyTask1(ks[i])
    ensures KeepsOut(es)
    decreases |es|
  {
    if es != [] {
      var n := |es| - 1;
      PrefixOfRun(ks, es, n);
      Task1StaysOut(ks[..n + 1], es[..n]);
      assert Follows(ks[n], es[n], ks[n + 1]) && OnlyTask1(ks[n]);
      if es[n].KernelStore? {
        KernelIsOpen(ks[..n + 1], es[..n], n, es[n].page);
      }
      assert forall i :: 0 <= i < n ==> es[i] == es[..n][i];
    }
  }

  ghost predicate OnlyTask1(k: Sys) {
    k.s.cur < |k.s.task| && (k.s.cur == k.s.idle || k.s.task[k.s.cur].pid == 1)
  }

  lemma FirstFork(b: BootArgs, now: Clock)
    requires RamShape(b.ram)
    ensures SysShape(BootSys(b)) && Enabled(BootSys(b), Fork(now))
    ensures var s := Step(BootSys(b), Fork(now)).s;
            s.cur == 1 && s.idle == 0 && s.ready == [2] && |s.task| == NR_TASKS && s.task[2].pid == 1001 && 1 !in s.free
  {
    BootInv(b);
    ForkStep(BootSys(b), now);
  }

  lemma YieldToChild(k: Sys, now: Clock)
    requires KernelInv(k) && SysShape(k) && k.s.cur == 1 && k.s.idle == 0 && k.s.ready == [2] &&
        k.s.task[2].pid == 1001 && 1 !in k.s.free
    ensures Enabled(k, Yield(now))
    ensures var s := Step(k, Yield(now)).s;
            s.cur == 2 && s.idle == 0 && s.ready == [1] && 1 in Procs(s) && |s.task| == NR_TASKS &&
                s.task[2].pid == 1001
  {
    SwitchPids(k, Yield(now));
  }

  /** A run of two events, a fork and a yield, after which the child can store to any kernel page. */
  lemma ChildReachesKernel(b: BootArgs, now: Clock) returns (ks: seq<Sys>, es: seq<Event>)
    requires RamShape(b.ram)
    ensures IsRun(ks, es) && es == [Fork(now), Yield(now)] && KeepsOut(es)
    ensures SysShape(ks[2]) && ks[2].s.cur == 2 && 1 in Procs(ks[2].s)
    ensures forall page: nat, r: Sys :: page < NUM_PAG_KERNEL ==> Enabled(ks[2], KernelStore(page, r))
  {
    hide BootSys, Step, IsBoot, KernelInv;
    ks, es := BootRun(b);
    RunInv(ks, es, 0);
    FirstFork(b, now);
    ks, es := Extended(ks, es, Fork(now));
    RunInv(ks, es, 1);
    YieldToChild(ks[1], now);
    ks, es := Extended(ks, es, Yield(now));
    RunInv(ks, es, 2);
    forall page: nat | page < NUM_PAG_KERNEL
      ensures UserMayStore(ks[2].m, page)
    {
      KernelIsOpen(ks, es, 2, page);
    }
  }

  // ---------------------------------------------------------------- where isolation ends

  /** The state with one entry of the page table in force changed. */
  function WithEntry(k: Sys, p: nat, x: PageTableEntry): Sys
    requires MemShape(k.m) && p < TOTAL_PAGES
  {
    k.(m := k.m.(pt := k.m.pt[k.m.cr3 := k.m.pt[k.m.cr3][p := x]]))
  }

  /** The page tables lie in kernel pages: a store to one of them that changes an entry of the running
      process's own table, and nothing else. */
  ghost predicate ChangesOwnEntry(k: Sys, page: nat, e: Event)
    requires MemShape(k.m)
  {
    e.KernelStore? && e.page == page && exists p: nat, x :: p < TOTAL_PAGES && e.r == WithEntry(k, p, x)
  }

  /** A trace in which nothing happens but stores of the running process, to its user pages or to the
      entries of its own table in kernel page `page`, and changes of the TLB. */
  ghost predicate StoresOnly(kt: seq<Sys>, et: seq<Event>, page: nat) {
    && IsTrace(kt, et)
    && forall j {:trigger et[j]} :: 0 <= j < |et| ==>
         et[j].Store? || et[j].TlbChange? || (MemShape(kt[j].m) && ChangesOwnEntry(kt[j], page, et[j]))
  }

  /** By such stores alone the running process can change what process `i` sees. */
  ghost predicate StoresReach(k: Sys, page: nat, i: nat) {
    exists kt, et :: StoresOnly(kt, et, page) && kt[0] == k && !KeepsMemory(k, kt[|et|], i)
  }

  /** Exactly where isolation ends: in every state of every run so far kept out of the kernel, and
      wherever in the kernel the page tables lie, the stores of the running process can reach the
      data pages of another one if and only if the running process is not task 1. */
  lemma IsolationEnds(ks: seq<Sys>, es: seq<Event>, n: nat, page: nat, i: nat)
    requires IsRun(ks, es) && KeepsOut(es) && n <= |es| && ks[n].s.cur != ks[n].s.idle && page < NUM_PAG_KERNEL
    requires i in Procs(ks[n].s) && i != ks[n].s.cur
    ensures SysShape(ks[n])
    ensures StoresReach(ks[n], page, i) <==> ks[n].s.task[ks[n].s.cur].pid != 1
  {
    RunInv(ks, es, n);
    RunGuards(ks, es, n);
    KernelIsOpen(ks, es, n, page);
    var k := ks[n];
    if k.s.task[k.s.cur].pid != 1 {
      var b: Byte := if View(k.m, i)[0][0] == 0 then 1 else 0;
      var kt, et := RemapTrace(k, page, i, b);
    } else if StoresReach(k, page, i) {
      var kt, et :| StoresOnly(kt, et, page) && kt[0] == k && !KeepsMemory(k, kt[|et|], i);
      GuardedStores(kt, et, page, i, |et|);
      assert false;
    }
  }

  /** The table of the running process with its first data page mapped to that of process `i`. */
  function Remapped(k: Sys, i: nat): Sys
    requires MemShape(k.m) && i < NR_TASKS
  {
    WithEntry(k, PAG_LOG_INIT_DATA, UserPage(DataFrame(k.m, i, 0), true))
  }

  /** The change of the entry is allowed wherever the process can store to the page that holds it, and
      leaves the memory of process `i` as it is; the next store to the remapped page does not. */
  lemma RemapReaches(k: Sys, page: nat, i: nat, b: Byte)
    requires KernelInv(k) && SysShape(k) && k.s.cur != k.s.idle && UserMayStore(k.m, page) && page < NUM_PAG_KERNEL
    requires i in Procs(k.s) && i != k.s.cur && i < NR_TASKS
    ensures Enabled(k, KernelStore(page, Remapped(k, i))) && KeepsMemory(k, Remapped(k, i), i)
    ensures SysShape(Remapped(k, i)) && Enabled(Remapped(k, i), TlbChange(map[]))
    ensures var t := Step(Remapped(k, i), TlbChange(map[]));
            && SysShape(t) && Enabled(t, Store(PAG_LOG_INIT_DATA, 0, b))
            && (KeepsMemory(k, Step(t, Store(PAG_LOG_INIT_DATA, 0, b)), i) <==> b == View(k.m, i)[0][0])
  {
    InvShape(k);
    var f := DataFrame(k.m, i, 0);
    var r := Remapped(k, i);
    assert r.m.pt[i] == k.m.pt[i];
    SameView(k.m, r.m, i);
    var t := Step(r, TlbChange(map[]));
    var v := StoreMem(t.m, PAG_LOG_INIT_DATA, 0, b);
    assert v.ram == k.m.ram[f := k.m.ram[f][0 := b]];
    assert View(v, i)[0][0] == b;
    if b == View(k.m, i)[0][0] {
      assert v.ram[f] == k.m.ram[f];
      SameView(k.m, v, i);
    }
  }

  lemma RemapTrace(k: Sys, page: nat, i: nat, b: Byte) returns (kt: seq<Sys>, et: seq<Event>)
    requires KernelInv(k) && SysShape(k) && k.s.cur != k.s.idle && UserMayStore(k.m, page) && page < NUM_PAG_KERNEL
    requires i in Procs(k.s) && i != k.s.cur && i < NR_TASKS && b != View(k.m, i)[0][0]
    ensures StoresOnly(kt, et, page) && kt[0] == k && |et| == 3 && !KeepsMemory(k, kt[|et|], i)
    ensures et == [KernelStore(page, Remapped(k, i)), TlbChange(map[]), Store(PAG_LOG_INIT_DATA, 0, b)]
  {
    RemapReaches(k, page, i, b);
    hide KeepsMemory, KernelInv;
    et := [KernelStore(page, Remapped(k, i)), TlbChange(map[]), Store(PAG_LOG_INIT_DATA, 0, b)];
    var r := Remapped(k, i);
    var t := Step(r, et[1]);
    kt := [k, r, t, Step(t, et[2])];
    assert ChangesOwnEntry(k, page, et[0]);
    assert Follows(k, et[0], r) && Follows(r, et[1], t) && Follows(t, et[2], kt[3]);
  }

  /** A state reached by the stores of task 1: nothing but frames and TLB can have changed. */
  ghost predicate SameKernel(k: Sys, r: Sys) {
    KernelInv(r) && r.s == k.s && r.m.pt == k.m.pt && r.m.cr3 == k.m.cr3
  }

  /** The stores of a guarded process stay out of the kernel and reach nobody else. */
  lemma {:induction false} GuardedStores(kt: seq<Sys>, et: seq<Event>, page: nat, i: nat, n: nat)
    requires StoresOnly(kt, et, page) && n <= |et| && page < NUM_PAG_KERNEL
    requires KernelInv(kt[0]) && Guards(kt[0].s, kt[0].m.pt)
    requires i in Procs(kt[0].s) && i != kt[0].s.cur && kt[0].s.cur != kt[0].s.idle
    requires kt[0].s.cur < |kt[0].s.task| && kt[0].s.task[kt[0].s.cur].pid == 1
    ensures SameKernel(kt[0], kt[n]) && KeepsMemory(kt[0], kt[n], i)
  {
    InvShape(kt[0]);
    if n > 0 {
      GuardedStores(kt, et, page, i, n - 1);
      assert Follows(kt[n - 1], et[n - 1], kt[n]);
      GuardedStore(kt[0], kt[n - 1], et[n - 1], page, i);
    }
  }

  lemma GuardedStore(k: Sys, r: Sys, e: Event, page: nat, i: nat)
    requires KernelInv(k) && Guards(k.s, k.m.pt) && i in Procs(k.s) && i != k.s.cur && k.s.cur != k.s.idle
    requires k.s.cur < |k.s.task| && k.s.task[k.s.cur].pid == 1 && page < NUM_PAG_KERNEL
    requires SameKernel(k, r) && KeepsMemory(k, r, i) && SysShape(r) && Enabled(r, e)
    requires e.Store? || e.TlbChange? || ChangesOwnEntry(r, page, e)
    ensures SameKernel(k, Step(r, e)) && KeepsMemory(k, Step(r, e), i)
  {
    InvShape(k);
    if e.KernelStore? {
      assert false;
    } else {
      StepKeepsInv(r, e);
      StepIsolation(r, e, i);
    }
  }

  /** The hypothesis of isolation is needed: a run in which a child, by three steps of its own, changes
      what task 1 sees. */
  lemma PagingDoesNotIsolate(b: BootArgs, now: Clock, page: nat) returns (ks: seq<Sys>, es: seq<Event>)
    requires RamShape(b.ram) && page < NUM_PAG_KERNEL
    ensures IsRun(ks, es) && |es| == 5 && es[..2] == [Fork(now), Yield(now)] && StoresOnly(ks[2..], es[2..], page)
    ensures ks[2].s.cur == 2 && 1 in Procs(ks[2].s) && !KeepsMemory(ks[2], ks[5], 1)
  {
    ks, es := ChildReachesKernel(b, now);
    RunInv(ks, es, 2);
    var k := ks[2];
    assert Enabled(k, KernelStore(page, k));
    var x: Byte := if View(k.m, 1)[0][0] == 0 then 1 else 0;
    var kt, et := RemapTrace(k, page, 1, x);
    ks, es := Joined(ks, es, kt, et);
    assert ks[2..] == kt && es[2..] == et;
  }
}
