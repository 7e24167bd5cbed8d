/** The state `main` hands to task 1 (system.c): what init_mm, init_sched, init_idle and
    init_task1 build. */
module BootState {
  import opened Kernel
  import opened KernelTypes
  import opened Paging
  import opened Scheduler
  import opened Seqs

  const ZERO_STATS := Stats(0, 0, 0, 0, 0, 0, 0)
  const FREE_TASK := Task(-1, RUN, 0, 0, ZERO_STATS)

  /** `init_freequeue`, after the first two slots have been taken. */
  const BOOT_FREE: seq<nat> := [2, 3, 4, 5, 6, 7, 8, 9]

  /** What `init_sched`, `init_idle` and `init_task1` leave. */
  function BootSched(i0: Word, i1: Word, t0: Word, t1: Word): Sched {
    Sched(seq(NR_TASKS, i =>
            if i == 0 then Task(0, RUN, DEFAULT_QUANTUM, 0, InitStats(i0, i1))
            else if i == 1 then Task(1, RUN, DEFAULT_QUANTUM, 1, InitStats(t0, t1))
            else FREE_TASK),
          BOOT_FREE, [], [], 1, 0, DEFAULT_QUANTUM, 1000)
  }

  /** A row of `init_table_pages`: kernel pages map to themselves, for the kernel only; page 0 and
      the two guard pages around the task array are absent. */
  function KernelRow(guard0: nat, guard1: nat): (r: Row) {
    seq(TOTAL_PAGES, (p: nat) =>
      if p == 0 || p >= NUM_PAG_KERNEL then EMPTY_ENTRY else PTE(p != guard0 && p != guard1, p, false, true))
  }

  /** The frames `set_user_pages` gets from a bytemap where only the kernel's are in use. */
  function BootFrames(first: nat, n: nat): (fs: seq<nat>)
    ensures |fs| == n
  {
    seq<nat>(n, i requires 0 <= i < n => NUM_PAG_KERNEL + 2 * (first + i))
  }

  function Task1Row(guard0: nat, guard1: nat): Row {
    MapRange(MapRange(KernelRow(guard0, guard1), PAG_LOG_INIT_CODE, BootFrames(0, NUM_PAG_CODE), false),
             PAG_LOG_INIT_DATA, BootFrames(NUM_PAG_CODE, NUM_PAG_DATA), true)
  }

  /** The bytemap once `n` frames have been handed out after `init_frames`. */
  function BootPhys(n: nat): (r: seq<bool>)
    ensures PhysShape(r)
  {
    seq(TOTAL_PAGES, f => f < NUM_PAG_KERNEL || (Usable(f) && f < NUM_PAG_KERNEL + 2 * n))
  }

  /** What `init_mm` and the `set_user_pages` call of `init_task1` leave. */
  function BootMem(guard0: nat, guard1: nat, ram: seq<seq<Byte>>): Mem {
    Mem(BootPhys(NUM_PAG_CODE + NUM_PAG_DATA),
        seq(NR_TASKS, i => if i == 1 then Task1Row(guard0, guard1) else KernelRow(guard0, guard1)),
        ram, map[], 1)
  }

  /** What the initial state depends on: the clock reads of the two `init_stats` calls, the guard
      pages around the task array, and whatever the frames contain. */
  datatype BootArgs = BootArgs(i0: Word, i1: Word, t0: Word, t1: Word, guard0: nat, guard1: nat, ram: seq<seq<Byte>>)

  function BootSys(b: BootArgs): Sys {
    Sys(BootSched(b.i0, b.i1, b.t0, b.t1), BootMem(b.guard0, b.guard1, b.ram))
  }

  ghost predicate IsBoot(k: Sys) {
    exists b: BootArgs :: RamShape(b.ram) && k == BootSys(b)
  }

  lemma BootInv(b: BootArgs)
    requires RamShape(b.ram)
    ensures KernelInv(BootSys(b))
  {
    BootSchedInv(b.i0, b.i1, b.t0, b.t1);
    BootMemInv(b.guard0, b.guard1, b.ram);
  }

  lemma BootSchedInv(i0: Word, i1: Word, t0: Word, t1: Word)
    ensures Inv(BootSched(i0, i1, t0, t1)) && Procs(BootSched(i0, i1, t0, t1)) == {1}
  {
    var s := BootSched(i0, i1, t0, t1);
    BootFree();
    assert Partition(s, {1});
    assert forall i: nat :: 2 <= i < NR_TASKS ==> s.task[i] == FREE_TASK;
    assert PidsDistinct(s);
  }

  /** What boot leaves, field by field: idle waits in slot 0 with no queue, task 1 runs in slot 1 with a
      full quantum, both with empty statistics; the other slots are free, in order. */
  lemma BootFields(b: BootArgs)
    ensures var s := BootSys(b).s;
            && |s.task| == NR_TASKS
            && s.task[0] == Task(0, RUN, 10, 0, Stats(0, 0, 0, 0, b.i0, 0, b.i1))
            && s.task[1] == Task(1, RUN, 10, 1, Stats(0, 0, 0, 0, b.t0, 0, b.t1))
            && (forall i :: 2 <= i < NR_TASKS ==> s.task[i] == Task(-1, RUN, 0, 0, Stats(0, 0, 0, 0, 0, 0, 0)))
            && s.free == [2, 3, 4, 5, 6, 7, 8, 9] && s.ready == [] && s.blocked == []
            && s.cur == 1 && s.idle == 0 && s.rq == 10 && s.lastPid == 1000
  {
    var s := BootSys(b).s;
    assert s.task[0] == Task(0, RUN, DEFAULT_QUANTUM, 0, InitStats(b.i0, b.i1));
    assert s.task[1] == Task(1, RUN, DEFAULT_QUANTUM, 1, InitStats(b.t0, b.t1));
  }

  /** And the memory it leaves: 28 user frames in use, all tables mapping kernel pages to themselves for
      the kernel, without page 0 and the guard pages, and task 1's code and data. */
  lemma BootMemory(b: BootArgs)
    ensures var m := BootSys(b).m;
            && |m.phys| == TOTAL_PAGES && |m.pt| == NR_TASKS && m.ram == b.ram && m.tlb == map[] && m.cr3 == 1
            && (forall f :: 0 <= f < TOTAL_PAGES ==> (m.phys[f] <==> f < 256 || (f < 312 && f % 2 == 0)))
            && (forall i :: 0 <= i < NR_TASKS ==> |m.pt[i]| == TOTAL_PAGES)
            && (forall i, p :: 0 <= i < NR_TASKS && 0 <= p < TOTAL_PAGES ==>
                  m.pt[i][p] == if 1 <= p < 256 then PTE(p != b.guard0 && p != b.guard1, p, false, true)
                                else if i == 1 && 256 <= p < 284 then PTE(true, 2 * p - 256, true, p >= 264)
                                else PTE(false, 0, false, false))
  {
    var m := BootSys(b).m;
    BootRows(b.guard0, b.guard1);
    assert forall i :: 0 <= i < NR_TASKS ==>
        m.pt[i] == if i == 1 then Task1Row(b.guard0, b.guard1) else KernelRow(b.guard0, b.guard1);
  }

  lemma BootFree()
    ensures forall i :: i in BOOT_FREE <==> 2 <= i < NR_TASKS
    ensures NoDup(BOOT_FREE)
  {
    assert forall i :: 0 <= i < |BOOT_FREE| ==> BOOT_FREE[i] == i + 2;
    forall i | 2 <= i < NR_TASKS
      ensures i in BOOT_FREE
    {
      assert BOOT_FREE[i - 2] == i;
    }
  }

  lemma BootRows(guard0: nat, guard1: nat)
    ensures RowShape(KernelRow(guard0, guard1)) && RowShape(Task1Row(guard0, guard1))
    ensures forall p :: 0 <= p < NUM_PAG_KERNEL ==>
        KernelRow(guard0, guard1)[p].frame == p && Task1Row(guard0, guard1)[p].frame == p
    ensures forall p :: NUM_PAG_KERNEL <= p < TOTAL_PAGES ==> KernelRow(guard0, guard1)[p] == EMPTY_ENTRY
    ensures forall p :: NUM_PAG_KERNEL <= p < TOTAL_PAGES ==>
              Task1Row(guard0, guard1)[p] ==
                if p >= PAG_LOG_INIT_DATA + NUM_PAG_DATA then EMPTY_ENTRY
                else UserPage(NUM_PAG_KERNEL + 2 * (p - NUM_PAG_KERNEL), p >= PAG_LOG_INIT_DATA)
  {
    var code := MapRange(KernelRow(guard0, guard1), PAG_LOG_INIT_CODE, BootFrames(0, NUM_PAG_CODE), false);
    assert forall p :: NUM_PAG_KERNEL <= p < PAG_LOG_INIT_DATA ==>
        code[p] == UserPage(NUM_PAG_KERNEL + 2 * (p - NUM_PAG_KERNEL), false);
  }

  lemma BootEntries(guard0: nat, guard1: nat, ram: seq<seq<Byte>>)
    requires RamShape(ram)
    ensures var m := BootMem(guard0, guard1, ram);
            && MemShape(m) && KernelMapped(m)
            && (forall c :: 0 <= c < NUM_PAG_CODE ==> CodeEntry(m, 1, c) == UserPage(NUM_PAG_KERNEL + 2 * c, false))
            && (forall d :: 0 <= d < NUM_PAG_DATA ==> DataEntry(m, 1, d) == UserPage(FIRST_DATA_FRAME + 2 * d, true))
            && (forall i, d :: 0 <= i < NR_TASKS && i != 1 && 0 <= d < NUM_PAG_DATA ==>
                 DataEntry(m, i, d) == EMPTY_ENTRY)
  {
    var m := BootMem(guard0, guard1, ram);
    BootRows(guard0, guard1);
    assert forall i :: 0 <= i < NR_TASKS ==>
        m.pt[i] == if i == 1 then Task1Row(guard0, guard1) else KernelRow(guard0, guard1);
  }

  lemma BootMemInv(guard0: nat, guard1: nat, ram: seq<seq<Byte>>)
    requires RamShape(ram)
    ensures MemInv(BootMem(guard0, guard1, ram), {1})
  {
    BootEntries(guard0, guard1, ram);
    BootOwnership(guard0, guard1, ram);
  }

  lemma BootOwnership(guard0: nat, guard1: nat, ram: seq<seq<Byte>>)
    requires MemShape(BootMem(guard0, guard1, ram))
    requires forall d :: 0 <= d < NUM_PAG_DATA ==>
        DataEntry(BootMem(guard0, guard1, ram), 1, d) == UserPage(FIRST_DATA_FRAME + 2 * d, true)
    ensures Accounted(BootMem(guard0, guard1, ram), {1})
  {
    var m := BootMem(guard0, guard1, ram);
    forall f | NUM_PAG_KERNEL <= f < TOTAL_PAGES && m.phys[f]
      ensures IsCodeFrame(f) || Owned(m, {1}, f)
    {
      if f >= FIRST_DATA_FRAME {
        assert DataFrame(m, 1, (f - FIRST_DATA_FRAME) / 2) == f;
      }
    }
  }
}
