/**
 The memory half of the kernel state (mm.c and the memory parts of sys.c) as values: the frame
 bytemap, one page table per slot, the contents of the frames, the TLB and cr3.
 */
module Paging {
  import opened KernelTypes
  import opened Seqs

  type Row = seq<PageTableEntry>

  datatype Mem = Mem(phys: seq<bool>, pt: seq<Row>, ram: seq<seq<Byte>>, tlb: map<nat, nat>, cr3: nat)

  ghost predicate PhysShape(phys: seq<bool>) {
    |phys| == TOTAL_PAGES
  }

  ghost predicate RowShape(row: Row) {
    |row| == TOTAL_PAGES && forall p :: 0 <= p < TOTAL_PAGES ==> row[p].frame < TOTAL_PAGES
  }

  ghost predicate MemShape(m: Mem) {
    && PhysShape(m.phys) && |m.pt| == NR_TASKS && m.cr3 < NR_TASKS
    && (forall i :: 0 <= i < NR_TASKS ==> RowShape(m.pt[i]))
    && |m.ram| == TOTAL_PAGES
    && (forall f :: 0 <= f < TOTAL_PAGES ==> |m.ram[f]| == PAGE_SIZE)
  }

  // ---------------------------------------------------------------- frames

  /** A user frame `alloc_frame` looks at: it steps by two, so odd frames are never used. */
  predicate Usable(f: int) {
    NUM_PAG_KERNEL <= f < TOTAL_PAGES && f % 2 == 0
  }

  /** The search of `alloc_frame` from frame `i` on, in steps of two: -1 when nothing is free. */
  function FirstFree(phys: seq<bool>, i: nat): (r: int)
    requires PhysShape(phys) && NUM_PAG_KERNEL <= i && i % 2 == 0
    ensures r != -1 ==> i <= r && Usable(r) && !phys[r]
    ensures forall j :: Usable(j) && i <= j && (r == -1 || j < r) ==> phys[j]
    decreases |phys| + 2 - i
  {
    if i >= TOTAL_PAGES then -1
    else if !phys[i] then i
    else FirstFree(phys, i + 2)
  }

  /** `n` successive calls of `alloc_frame`, stopping at the first failure: the bytemap and the
      frames obtained. */
  function AllocMany(phys: seq<bool>, n: nat): (r: (seq<bool>, seq<nat>))
    requires PhysShape(phys)
    ensures PhysShape(r.0) && |r.1| <= n
    ensures forall f :: f in r.1 ==> Usable(f)
  {
    if n == 0 then (phys, [])
    else
      var (p, fs) := AllocMany(phys, n - 1);
      var f := FirstFree(p, NUM_PAG_KERNEL);
      if |fs| < n - 1 || f == -1 then (p, fs) else (p[f := true], fs + [f])
  }

  /** The bytemap after `free_frame` of every frame of `fs`. The test is `>`, so frame 256 stays. */
  function FreeMany(phys: seq<bool>, fs: seq<nat>): (r: seq<bool>)
    ensures |r| == |phys|
  {
    seq(|phys|, f requires 0 <= f < |phys| => phys[f] && !(f > NUM_PAG_KERNEL && f in fs))
  }

  lemma AllocOneMore(phys: seq<bool>, n: nat)
    requires PhysShape(phys) && |AllocMany(phys, n).1| == n
    ensures var a, f := AllocMany(phys, n), FirstFree(AllocMany(phys, n).0, NUM_PAG_KERNEL);
            AllocMany(phys, n + 1) == if f == -1 then a else (a.0[f := true], a.1 + [f])
  {
  }

  /** Once no frame is free, further allocations change nothing. */
  lemma {:induction false} AllocStuck(phys: seq<bool>, n: nat, m: nat)
    requires PhysShape(phys) && n <= m && FirstFree(AllocMany(phys, n).0, NUM_PAG_KERNEL) == -1
    ensures AllocMany(phys, m) == AllocMany(phys, n)
  {
    if n < m {
      AllocStuck(phys, n, m - 1);
      var a := AllocMany(phys, m - 1);
      assert FirstFree(a.0, NUM_PAG_KERNEL) == -1;
    }
  }

  /** What a sequence of allocations hands out: even frames, all different, that were free. */
  lemma {:induction false} AllocManyFrames(phys: seq<bool>, n: nat)
    requires PhysShape(phys)
    ensures NoDup(AllocMany(phys, n).1)
    ensures forall f :: f in AllocMany(phys, n).1 ==> !phys[f]
    ensures forall f :: 0 <= f < TOTAL_PAGES ==> (AllocMany(phys, n).0[f] <==> phys[f] || f in AllocMany(phys, n).1)
    ensures |AllocMany(phys, n).1| < n ==> forall f :: Usable(f) ==> AllocMany(phys, n).0[f]
  {
    if n > 0 {
      AllocManyFrames(phys, n - 1);
      var (p, fs) := AllocMany(phys, n - 1);
      var f := FirstFree(p, NUM_PAG_KERNEL);
      if |fs| < n - 1 || f == -1 {
        assert AllocMany(phys, n) == (p, fs);
      } else {
        AppendNoDup(fs, f);
        assert AllocMany(phys, n) == (p[f := true], fs + [f]);
      }
    }
  }

  /** Undoing an allocation run restores the bytemap exactly when frame 256 was not handed out,
      that is when it was in use, or nothing was allocated at all. */
  lemma RollbackRestores(phys: seq<bool>, n: nat)
    requires PhysShape(phys)
    ensures FreeMany(AllocMany(phys, n).0, AllocMany(phys, n).1) == phys <==> (phys[NUM_PAG_KERNEL] || n == 0)
  {
    AllocManyFrames(phys, n);
    var (p, fs) := AllocMany(phys, n);
    var r := FreeMany(p, fs);
    if phys[NUM_PAG_KERNEL] || n == 0 {
      forall f | 0 <= f < TOTAL_PAGES
        ensures r[f] == phys[f]
      {
      }
    } else {
      FirstAllocated(phys, n);
      assert r[NUM_PAG_KERNEL] && !phys[NUM_PAG_KERNEL];
    }
  }

  lemma {:induction false} FirstAllocated(phys: seq<bool>, n: nat)
    requires PhysShape(phys) && n > 0 && !phys[NUM_PAG_KERNEL]
    ensures |AllocMany(phys, n).1| > 0 && AllocMany(phys, n).1[0] == NUM_PAG_KERNEL
  {
    if n > 1 {
      FirstAllocated(phys, n - 1);
    } else {
      assert AllocMany(phys, 0) == (phys, []);
    }
  }

  // ---------------------------------------------------------------- page tables

  /** The pages from `base` on mapped to the frames `fs` for the user program, by `set_ss_pag` or by
      `set_user_pages`. */
  function MapRange(row: Row, base: nat, fs: seq<nat>, rw: bool): (r: Row)
    ensures |r| == |row|
  {
    seq(|row|, p requires 0 <= p < |row| => if base <= p < base + |fs| then UserPage(fs[p - base], rw) else row[p])
  }

  /** `del_ss_pag` of `n` pages from `base` on. */
  function ClearRange(row: Row, base: nat, n: nat): (r: Row)
    ensures |r| == |row|
  {
    seq(|row|, p requires 0 <= p < |row| => if base <= p < base + n then EMPTY_ENTRY else row[p])
  }

  /** The frames of `n` pages from `base` on. */
  function Frames(row: Row, base: nat, n: nat): (fs: seq<nat>)
    requires base + n <= |row|
    ensures |fs| == n
  {
    seq<nat>(n, d requires 0 <= d < n => row[base + d].frame)
  }

  /** Frame contents after the first `n` page copies, one after the other, from `src` to `dst`. */
  function Copied(ram: seq<seq<Byte>>, src: seq<nat>, dst: seq<nat>, n: nat): (r: seq<seq<Byte>>)
    requires n <= |src| && n <= |dst|
    requires forall i :: 0 <= i < n ==> src[i] < |ram| && dst[i] < |ram|
    ensures |r| == |ram|
  {
    if n == 0 then ram
    else
      var c := Copied(ram, src, dst, n - 1);
      c[dst[n - 1] := c[src[n - 1]]]
  }

  /** Copying to distinct frames outside the source copies every page, and nothing else changes. */
  lemma {:induction false} CopiedPages(ram: seq<seq<Byte>>, src: seq<nat>, dst: seq<nat>, n: nat)
    requires n <= |src| && n <= |dst|
    requires forall i :: 0 <= i < n ==> src[i] < |ram| && dst[i] < |ram|
    requires NoDup(dst) && forall i, j :: 0 <= i < n && 0 <= j < n ==> src[i] != dst[j]
    ensures var r := Copied(ram, src, dst, n);
            && (forall i :: 0 <= i < n ==> r[dst[i]] == ram[src[i]])
            && (forall f :: 0 <= f < |ram| && f !in dst[..n] ==> r[f] == ram[f])
  {
    if n > 0 {
      CopiedPages(ram, src, dst, n - 1);
      var c := Copied(ram, src, dst, n - 1);
      var r := Copied(ram, src, dst, n);
      assert dst[..n] == dst[..n - 1] + [dst[n - 1]];
      assert src[n - 1] !in dst[..n - 1];
      forall i | 0 <= i < n
        ensures r[dst[i]] == ram[src[i]]
      {
        assert i < n - 1 ==> dst[i] != dst[n - 1];
      }
    }
  }

  // ---------------------------------------------------------------- kernel entries

  /** `set_cr3`: loads a page directory and flushes the TLB. */
  function SetCr3(m: Mem, dir: nat): Mem {
    m.(cr3 := dir, tlb := map[])
  }

  /** The page table `sys_fork` gives the child: its own data frames, and the parent's kernel and
      code frames. */
  function ChildRow(child: Row, parent: Row, fs: seq<nat>): (r: Row)
    requires |child| == |parent| == TOTAL_PAGES
    ensures |r| == TOTAL_PAGES
  {
    var data := MapRange(child, PAG_LOG_INIT_DATA, fs, true);
    var kernel := MapRange(data, 0, Frames(parent, 0, NUM_PAG_KERNEL), true);
    MapRange(kernel, PAG_LOG_INIT_CODE, Frames(parent, PAG_LOG_INIT_CODE, NUM_PAG_CODE), true)
  }

  /** The memory half of `sys_fork`: the new memory and whether every data page was allocated. */
  function ForkMem(m: Mem, parent: nat, child: nat): (r: (Mem, bool))
    requires MemShape(m) && parent < NR_TASKS && child < NR_TASKS
  {
    var (p, fs) := AllocMany(m.phys, NUM_PAG_DATA);
    if |fs| < NUM_PAG_DATA then
      (m.(phys := FreeMany(p, fs), pt := m.pt[child := ClearRange(m.pt[child], PAG_LOG_INIT_DATA, |fs|)]), false)
    else
      assert forall i :: 0 <= i < |fs| ==> fs[i] in fs;
      var src := Frames(m.pt[parent], PAG_LOG_INIT_DATA, NUM_PAG_DATA);
      var pt := m.pt[child := ChildRow(m.pt[child], m.pt[parent], fs)];
      (Mem(p,
           pt[parent := ClearRange(pt[parent], PAG_LOG_INIT_DATA + NUM_PAG_DATA, NUM_PAG_DATA)],
           Copied(m.ram, src, fs, NUM_PAG_DATA), map[], parent), true)
  }

  /** The memory half of `sys_exit`. */
  function ReleaseMem(m: Mem, slot: nat): Mem
    requires MemShape(m) && slot < NR_TASKS
  {
    m.(phys := FreeMany(m.phys, Frames(m.pt[slot], PAG_LOG_INIT_DATA, NUM_PAG_DATA)),
       pt := m.pt[slot := ClearRange(m.pt[slot], PAG_LOG_INIT_DATA, NUM_PAG_DATA)])
  }

  /** A store of `b` at offset `off` of the current process's page `page`. */
  function StoreMem(m: Mem, page: nat, off: nat, b: Byte): Mem
    requires MemShape(m) && page < TOTAL_PAGES && off < PAGE_SIZE
  {
    var f := m.pt[m.cr3][page].frame;
    m.(ram := m.ram[f := m.ram[f][off := b]])
  }

  // ---------------------------------------------------------------- invariant

  /** The page table entry of data page `d` of slot `i`. */
  function DataEntry(m: Mem, i: nat, d: nat): PageTableEntry
    requires MemShape(m) && i < NR_TASKS && d < NUM_PAG_DATA
  {
    m.pt[i][PAG_LOG_INIT_DATA + d]
  }

  function DataFrame(m: Mem, i: nat, d: nat): nat
    requires MemShape(m) && i < NR_TASKS && d < NUM_PAG_DATA
  {
    DataEntry(m, i, d).frame
  }

  function CodeEntry(m: Mem, i: nat, c: nat): PageTableEntry
    requires MemShape(m) && i < NR_TASKS && c < NUM_PAG_CODE
  {
    m.pt[i][PAG_LOG_INIT_CODE + c]
  }

  const FIRST_DATA_FRAME := NUM_PAG_KERNEL + 2 * NUM_PAG_CODE

  /** The frames of task 1's code pages, shared by every process. */
  predicate IsCodeFrame(f: int) {
    Usable(f) && f < FIRST_DATA_FRAME
  }

  ghost predicate Owned(m: Mem, procs: set<nat>, f: nat)
    requires MemShape(m)
  {
    exists i, d :: i in procs && i < NR_TASKS && 0 <= d < NUM_PAG_DATA && DataFrame(m, i, d) == f
  }

  /** Kernel pages map to themselves, and nothing is mapped above the data pages. */
  ghost predicate KernelMapped(m: Mem)
    requires MemShape(m)
  {
    && (forall i, p :: 0 <= i < NR_TASKS && 0 <= p < NUM_PAG_KERNEL ==> m.pt[i][p].frame == p)
    && (forall i, p :: 0 <= i < NR_TASKS && PAG_LOG_INIT_DATA + NUM_PAG_DATA <= p < TOTAL_PAGES ==>
         m.pt[i][p] == EMPTY_ENTRY)
    && (forall f :: 0 <= f < NUM_PAG_KERNEL ==> m.phys[f])
  }

  ghost predicate CodeShared(m: Mem, procs: set<nat>)
    requires MemShape(m)
  {
    && (forall i, c :: i in procs && i < NR_TASKS && 0 <= c < NUM_PAG_CODE ==>
         Maps(CodeEntry(m, i, c), NUM_PAG_KERNEL + 2 * c))
    && (forall f :: IsCodeFrame(f) ==> m.phys[f])
  }

  /** Every process owns 20 data frames of its own, and nobody else owns any. */
  ghost predicate DataOwned(m: Mem, procs: set<nat>)
    requires MemShape(m)
  {
    && (forall i, d :: i in procs && i < NR_TASKS && 0 <= d < NUM_PAG_DATA ==>
          && UserWritable(DataEntry(m, i, d)) && FIRST_DATA_FRAME <= DataFrame(m, i, d)
          && Usable(DataFrame(m, i, d)) && m.phys[DataFrame(m, i, d)])
    && (forall i, d, j, e ::
          && i in procs && j in procs && i < NR_TASKS && j < NR_TASKS
          && 0 <= d < NUM_PAG_DATA && 0 <= e < NUM_PAG_DATA && (i != j || d != e) ==>
          DataFrame(m, i, d) != DataFrame(m, j, e))
    && (forall i, d :: 0 <= i < NR_TASKS && i !in procs && 0 <= d < NUM_PAG_DATA ==> DataEntry(m, i, d) == EMPTY_ENTRY)
  }

  /** Every user frame in use is a code frame or belongs to a process. */
  ghost predicate Accounted(m: Mem, procs: set<nat>)
    requires MemShape(m)
  {
    forall f :: NUM_PAG_KERNEL <= f < TOTAL_PAGES && m.phys[f] ==> IsCodeFrame(f) || Owned(m, procs, f)
  }

  /** The TLB holds present mappings of the current page table only. */
  ghost predicate TlbCoherent(m: Mem)
    requires MemShape(m)
  {
    forall p :: p in m.tlb ==> p < TOTAL_PAGES && Maps(m.pt[m.cr3][p], m.tlb[p])
  }

  /** What the memory half of `sys_fork` relies on in the running process: its data pages are mapped
      to frames in use, nothing is mapped above them, and the TLB is coherent. */
  ghost predicate ForkReady(m: Mem, parent: nat, child: nat) {
    && MemShape(m) && parent < NR_TASKS && child < NR_TASKS && parent != child && m.cr3 == parent
    && TlbCoherent(m)
    && (forall d :: 0 <= d < NUM_PAG_DATA ==> DataEntry(m, parent, d).present && m.phys[DataFrame(m, parent, d)])
    && (forall p :: PAG_LOG_INIT_DATA + NUM_PAG_DATA <= p < TOTAL_PAGES ==> m.pt[parent][p] == EMPTY_ENTRY)
  }

  /** Exact ownership of frames by the slots `procs`. */
  ghost predicate OwnInv(m: Mem, procs: set<nat>) {
    && MemShape(m) && (forall i :: i in procs ==> i < NR_TASKS)
    && KernelMapped(m) && CodeShared(m, procs) && DataOwned(m, procs) && Accounted(m, procs)
  }

  /** The memory invariant at every kernel boundary. */
  ghost predicate MemInv(m: Mem, procs: set<nat>) {
    OwnInv(m, procs) && TlbCoherent(m)
  }
}
