/**
 What processes see of memory: fork copies their data pages, and nobody else changes them as long
 as every user program stays out of the kernel's pages. Module Protection shows that paging does
 not enforce this condition on any process but task 1.
 */
module Isolation {
  import opened Kernel
  import opened KernelTypes
  import opened Ownership
  import opened Paging
  import opened Runs
  import opened Scheduler

  /** The contents of the 20 data pages of slot `i`. */
  function View(m: Mem, i: nat): (r: seq<seq<Byte>>)
    requires MemShape(m) && i < NR_TASKS
    ensures |r| == NUM_PAG_DATA
  {
    seq(NUM_PAG_DATA, d requires 0 <= d < NUM_PAG_DATA => m.ram[DataFrame(m, i, d)])
  }

  /** Every frame a hardware access to `page` can end up in: a cached translation may be used even
      if the page table has changed since, and a present entry may be walked. */
  ghost predicate Translates(m: Mem, page: nat, frame: nat)
    requires MemShape(m) && page < TOTAL_PAGES
  {
    (page in m.tlb && m.tlb[page] == frame) || Maps(m.pt[m.cr3][page], frame)
  }

  /** In every state of every run of programs that stay out of the kernel, whatever the TLB holds,
      the running process's access to its data page `d` can only reach its own frame for it, and does not fault. */
  lemma AccessReachesOwnFrame(ks: seq<Sys>, es: seq<Event>, n: nat, d: nat, f: nat)
    requires IsRun(ks, es) && KeepsOut(es) && n <= |es| && ks[n].s.cur != ks[n].s.idle && d < NUM_PAG_DATA
    ensures MemShape(ks[n].m) && ks[n].s.cur < NR_TASKS
    ensures Translates(ks[n].m, PAG_LOG_INIT_DATA + d, f) <==> f == DataFrame(ks[n].m, ks[n].s.cur, d)
  {
    RunInv(ks, es, n);
    InvShape(ks[n]);
    assert UserWritable(DataEntry(ks[n].m, ks[n].s.cur, d));
  }

  /** Memories in which slot `i` sees the same pages. */
  lemma SameView(m: Mem, r: Mem, i: nat)
    requires MemShape(m) && MemShape(r) && i < NR_TASKS && r.pt[i] == m.pt[i]
    requires forall d :: 0 <= d < NUM_PAG_DATA ==> r.ram[DataFrame(m, i, d)] == m.ram[DataFrame(m, i, d)]
    ensures View(r, i) == View(m, i)
  {
    assert forall d :: 0 <= d < NUM_PAG_DATA ==> DataFrame(r, i, d) == DataFrame(m, i, d);
  }

  /** The pages a user program can store to, other than the kernel's, are its code and data pages. */
  lemma StorePages(k: Sys, page: nat)
    requires KernelInv(k) && SysShape(k) && UserMayStore(k.m, page)
    ensures page < PAG_LOG_INIT_DATA + NUM_PAG_DATA
  {
  }

  /** A store to any user page, code pages included, changes no process's data pages, except that a
      store to a data page changes the byte addressed for the storing process. */
  lemma StoreIsPrivate(k: Sys, page: nat, off: nat, b: Byte, i: nat)
    requires KernelInv(k) && SysShape(k) && Enabled(k, Store(page, off, b)) && i in Procs(k.s)
    ensures MemShape(StoreMem(k.m, page, off, b)) && page < PAG_LOG_INIT_DATA + NUM_PAG_DATA
    ensures View(StoreMem(k.m, page, off, b), i) ==
            if i == k.s.cur && page >= PAG_LOG_INIT_DATA then
              var d := page - PAG_LOG_INIT_DATA; View(k.m, i)[d := View(k.m, i)[d][off := b]]
            else View(k.m, i)
  {
    InvShape(k);
    hide Inv, Accounted, TlbCoherent;
    StorePages(k, page);
    var r := StoreMem(k.m, page, off, b);
    var f := k.m.pt[k.m.cr3][page].frame;
    assert forall e :: 0 <= e < NUM_PAG_DATA ==> DataFrame(r, i, e) == DataFrame(k.m, i, e);
    if page >= PAG_LOG_INIT_DATA {
      DataStoreReaches(k, page - PAG_LOG_INIT_DATA, i);
    } else {
      assert Maps(CodeEntry(k.m, k.s.cur, page - PAG_LOG_INIT_CODE), f);
    }
  }

  /** Of the data frames of all processes, data page `d` of the current one names its own. */
  lemma DataStoreReaches(k: Sys, d: nat, i: nat)
    requires KernelInv(k) && SysShape(k) && k.s.cur != k.s.idle && d < NUM_PAG_DATA && i in Procs(k.s) && i < NR_TASKS
    ensures k.m.pt[k.m.cr3][PAG_LOG_INIT_DATA + d].frame == DataFrame(k.m, k.s.cur, d)
    ensures forall e :: 0 <= e < NUM_PAG_DATA ==>
        (DataFrame(k.m, i, e) == DataFrame(k.m, k.s.cur, d) <==> i == k.s.cur && e == d)
  {
    InvShape(k);
  }

  /** Code is not private: what one process stores to a code page every process finds there. */
  lemma CodeStoreReachesAll(k: Sys, page: nat, off: nat, b: Byte, i: nat)
    requires KernelInv(k) && SysShape(k) && Enabled(k, Store(page, off, b)) && page < PAG_LOG_INIT_DATA &&
        i in Procs(k.s)
    ensures i < NR_TASKS && MemShape(StoreMem(k.m, page, off, b))
    ensures var r := StoreMem(k.m, page, off, b); r.ram[CodeEntry(r, i, page - PAG_LOG_INIT_CODE).frame][off] == b
  {
    InvShape(k);
    var c := page - PAG_LOG_INIT_CODE;
    assert Maps(CodeEntry(k.m, k.s.cur, c), NUM_PAG_KERNEL + 2 * c) &&
        Maps(CodeEntry(k.m, i, c), NUM_PAG_KERNEL + 2 * c);
  }

  /** The memory half of `ForkPreservesMemory`: what the child, and any process, sees. */
  lemma ForkViews(m: Mem, procs: set<nat>, parent: nat, child: nat, i: nat)
    requires OwnInv(m, procs) && parent in procs && child < NR_TASKS && child !in procs && i in procs
    requires ForkMem(m, parent, child).1
    ensures var r := ForkMem(m, parent, child).0;
            && MemShape(r)
            && View(r, child) == View(m, parent) && View(r, i) == View(m, i)
            && (forall f :: 0 <= f < TOTAL_PAGES && !Owned(r, {child}, f) ==> r.ram[f] == m.ram[f])
  {
    ForkRows(m, procs, parent, child);
    ForkShape(m, procs, parent, child);
    ForkCopies(m, procs, parent, child);
    var r := ForkMem(m, parent, child).0;
    var fs := AllocMany(m.phys, NUM_PAG_DATA).1;
    forall d | 0 <= d < NUM_PAG_DATA
      ensures DataFrame(r, child, d) == fs[d] && r.ram[DataFrame(m, i, d)] == m.ram[DataFrame(m, i, d)]
    {
      assert r.pt[child][PAG_LOG_INIT_DATA + d] == UserPage(fs[d], true);
      NewFramesAreForeign(m, procs, i, d);
    }
    SameView(m, r, i);
    forall f | 0 <= f < TOTAL_PAGES && f in fs
      ensures Owned(r, {child}, f)
    {
      var d :| 0 <= d < NUM_PAG_DATA && fs[d] == f;
      assert DataFrame(r, child, d) == f;
    }
  }

  /** Fork preserves memory meaning: the child sees, page by page, exactly what the parent saw, the
      parent and every other process go on seeing what they saw, the page tables of all other slots
      are unchanged, and the TLB is empty, so no access goes through a stale temporary mapping. */
  lemma ForkPreservesMemory(k: Sys, now: Clock, i: nat)
    requires KernelInv(k) && k.s.cur != k.s.idle && k.s.free != [] && k.s.lastPid < MAX_INT
    requires i in Procs(k.s)
    ensures SysShape(k) && k.s.free[0] < NR_TASKS
    ensures var r, child := Step(k, Fork(now)).m, k.s.free[0];
            && MemShape(r)
            && View(r, child) == View(k.m, k.s.cur)
            && View(r, i) == View(k.m, i)
            && (forall j :: 0 <= j < NR_TASKS && j != child ==> r.pt[j] == k.m.pt[j])
            && (forall f :: 0 <= f < TOTAL_PAGES && !Owned(r, {child}, f) ==> r.ram[f] == k.m.ram[f])
            && r.tlb == map[]
  {
    InvShape(k);
    assert k.s.free[0] in k.s.free;
    ForkAllocates(k);
    ForkRows(k.m, Procs(k.s), k.s.cur, k.s.free[0]);
    ForkViews(k.m, Procs(k.s), k.s.cur, k.s.free[0], i);
  }

  /** Isolation: an event other than its own exit or its own store leaves a process alive and
      leaves its data pages unchanged, provided no program stores to a kernel page. */
  lemma StepIsolation(k: Sys, e: Event, i: nat)
    requires KernelInv(k) && SysShape(k) && Enabled(k, e) && StaysOut(e) && i in Procs(k.s)
    requires k.s.cur == i ==> !e.Exit? && !e.Store?
    ensures MemShape(Step(k, e).m) && i in Procs(Step(k, e).s) && View(Step(k, e).m, i) == View(k.m, i)
  {
    if e.Fork? {
      ForkIsolation(k, e.now, i);
    } else if e.Exit? {
      ExitIsolation(k, e.now, i);
    } else if e.Store? {
      StoreIsPrivate(k, e.page, e.off, e.b, i);
    } else {
      StepKeepsInv(k, e);
      QuietStep(k, e);
      SameView(k.m, Step(k, e).m, i);
    }
  }

  lemma ForkIsolation(k: Sys, now: Clock, i: nat)
    requires KernelInv(k) && k.s.cur != k.s.idle && k.s.lastPid < MAX_INT && i in Procs(k.s)
    ensures SysShape(k)
    ensures MemShape(Step(k, Fork(now)).m) && i in Procs(Step(k, Fork(now)).s) &&
        View(Step(k, Fork(now)).m, i) == View(k.m, i)
  {
    InvShape(k);
    if k.s.free != [] {
      ForkPreservesMemory(k, now, i);
      ForkAllocates(k);
      ForkProcs(k.s, now);
    }
  }

  /** An exit takes nothing from a process other than the exiting one. */
  lemma ExitIsolation(k: Sys, now: Clock, i: nat)
    requires KernelInv(k) && k.s.cur != k.s.idle && i in Procs(k.s) && i != k.s.cur
    ensures SysShape(k)
    ensures MemShape(Step(k, Exit(now)).m) && i in Procs(Step(k, Exit(now)).s) &&
        View(Step(k, Exit(now)).m, i) == View(k.m, i)
  {
    InvShape(k);
    ExitKeepsInv(k, now);
    assert Procs(Step(k, Exit(now)).s) == Procs(ExitPrep(k.s).s);
    SameView(k.m, Step(k, Exit(now)).m, i);
  }

  /** Scheduling, statistics and TLB events touch neither frames nor page tables, and neither create
      nor end a process. */
  lemma QuietStep(k: Sys, e: Event)
    requires KernelInv(k) && SysShape(k) && Enabled(k, e) && StaysOut(e) && !e.Fork? && !e.Exit? && !e.Store?
    ensures Step(k, e).m.pt == k.m.pt && Step(k, e).m.ram == k.m.ram && Procs(Step(k, e).s) == Procs(k.s)
  {
    match e
    case Tick(now) => QuietTick(k, now);
    case Unblock(t, now) => QuietUnblock(k, t, now);
    case Yield(now) => assert Procs(Step(k, e).s) == Procs(YieldPrep(k.s, now).s);
    case Block(now) => assert Procs(Step(k, e).s) == Procs(BlockPrep(k.s, now).s);
    case _ =>
  }

  lemma QuietTick(k: Sys, now: Clock)
    requires KernelInv(k) && SysShape(k)
    ensures Step(k, Tick(now)).m.pt == k.m.pt && Step(k, Tick(now)).m.ram == k.m.ram &&
        Procs(Step(k, Tick(now)).s) == Procs(k.s)
  {
    if TickPrep(k.s, now).dispatch {
      PreemptionParks(k.s, now);
    } else {
      TimerKeepsInv(k.s, now);
    }
  }

  lemma QuietUnblock(k: Sys, t: nat, now: Clock)
    requires KernelInv(k) && SysShape(k) && t in k.s.blocked
    ensures var r := Step(k, Unblock(t, now)); r.m == k.m && Procs(r.s) == Procs(k.s)
  {
    UnblockKeepsInv(k, t, now);
    ChargeKeepsCore(k.s, t, BlockedTicks, now.a, now.b, {k.s.cur});
    UnblockMoves(ChargeTask(k.s, t, BlockedTicks, now.a, now.b), t, now.c);
  }

  /** Slot `i` owns user pages in both states and sees the same in them. */
  ghost predicate KeepsMemory(k: Sys, r: Sys, i: nat) {
    MemShape(k.m) && MemShape(r.m) && i < NR_TASKS && i in Procs(r.s) && View(r.m, i) == View(k.m, i)
  }

  lemma IsolationAt(ks: seq<Sys>, es: seq<Event>, n: nat, i: nat)
    requires IsRun(ks, es) && KeepsOut(es) && n < |es| && i in Procs(ks[n].s)
    requires ks[n].s.cur == i ==> !es[n].Exit? && !es[n].Store?
    ensures KeepsMemory(ks[n], ks[n + 1], i)
  {
    RunStep(ks, es, n);
    StepIsolation(ks[n], es[n], i);
  }

  lemma KeepsMemoryOn(k: Sys, r: Sys, t: Sys, i: nat)
    requires KeepsMemory(k, r, i) && KeepsMemory(r, t, i)
    ensures KeepsMemory(k, t, i)
  {
  }

  lemma StillThere(ks: seq<Sys>, es: seq<Event>, n: nat, i: nat)
    requires IsRun(ks, es) && KeepsOut(es) && n <= |es| && i in Procs(ks[n].s)
    ensures KeepsMemory(ks[n], ks[n], i)
  {
    RunInv(ks, es, n);
  }

  /** Isolation over runs: between steps `m` and `n` of a run of programs that stay out of the
      kernel's pages, a process that performs no store and no exit of its own keeps its data pages,
      whatever else the others do. */
  lemma {:induction false} MemoryIsPrivate(ks: seq<Sys>, es: seq<Event>, m: nat, n: nat, i: nat)
    requires IsRun(ks, es) && KeepsOut(es) && m <= n <= |es| && i in Procs(ks[m].s)
    requires forall j :: m <= j < n && ks[j].s.cur == i ==> !es[j].Exit? && !es[j].Store?
    ensures KeepsMemory(ks[m], ks[n], i)
  {
    if m < n {
      MemoryIsPrivate(ks, es, m, n - 1, i);
      IsolationAt(ks, es, n - 1, i);
      KeepsMemoryOn(ks[m], ks[n - 1], ks[n], i);
    } else {
      StillThere(ks, es, m, i);
    }
  }
}
