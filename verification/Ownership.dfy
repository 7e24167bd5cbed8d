/** Exact frame ownership: its counting consequences and its preservation by every kernel entry. */
module Ownership {
  import opened KernelTypes
  import opened Paging
  import opened Seqs

  // ---------------------------------------------------------------- counting

  /** The user frames in use. */
  function UsedFrames(phys: seq<bool>): set<nat>
    requires PhysShape(phys)
  {
    set f: nat | NUM_PAG_KERNEL <= f < TOTAL_PAGES && phys[f]
  }

  /** The user frames `alloc_frame` can still hand out. */
  function FreeFrames(phys: seq<bool>): set<nat>
    requires PhysShape(phys)
  {
    set f: nat | Usable(f) && f < TOTAL_PAGES && !phys[f]
  }

  /** The usable frames among the first `2 * n` user frames. */
  function UsableBelow(n: nat): set<nat> {
    set f: nat | Usable(f) && f < NUM_PAG_KERNEL + 2 * n
  }

  lemma {:induction false} UsableCount(n: nat)
    requires NUM_PAG_KERNEL + 2 * n <= TOTAL_PAGES
    ensures |UsableBelow(n)| == n
  {
    if n == 0 {
      assert UsableBelow(0) == {};
    } else {
      UsableCount(n - 1);
      assert UsableBelow(n) == UsableBelow(n - 1) + {NUM_PAG_KERNEL + 2 * (n - 1)};
    }
  }

  const USABLE_FRAMES := 384

  /** The frames of the first `n` data pages of slot `i`. */
  function FramesOf(m: Mem, i: nat, n: nat): set<nat>
    requires MemShape(m) && i < NR_TASKS && n <= NUM_PAG_DATA
  {
    if n == 0 then {} else FramesOf(m, i, n - 1) + {DataFrame(m, i, n - 1)}
  }

  lemma {:induction false} InFramesOf(m: Mem, i: nat, n: nat, d: nat)
    requires MemShape(m) && i < NR_TASKS && d < n <= NUM_PAG_DATA
    ensures DataFrame(m, i, d) in FramesOf(m, i, n)
  {
    if d < n - 1 {
      InFramesOf(m, i, n - 1, d);
    }
  }

  lemma {:induction false} FramesOfCount(m: Mem, procs: set<nat>, i: nat, n: nat)
    requires MemShape(m) && DataOwned(m, procs) && i in procs && i < NR_TASKS && n <= NUM_PAG_DATA
    ensures |FramesOf(m, i, n)| == n
  {
    if n > 0 {
      FramesOfCount(m, procs, i, n - 1);
      FramesOfWithout(m, i, n - 1, {DataFrame(m, i, n - 1)});
    }
  }

  /** Frames a set does not contain are not in common with it. */
  lemma {:induction false} FramesOfWithout(m: Mem, i: nat, n: nat, fs: set<nat>)
    requires MemShape(m) && i < NR_TASKS && n <= NUM_PAG_DATA
    requires forall d :: 0 <= d < n ==> DataFrame(m, i, d) !in fs
    ensures FramesOf(m, i, n) !! fs
  {
    if n > 0 {
      FramesOfWithout(m, i, n - 1, fs);
    }
  }

  /** The data frames of the processes in slots below `n`. */
  function OwnedFrames(m: Mem, n: nat, procs: set<nat>): set<nat>
    requires MemShape(m) && n <= NR_TASKS
  {
    if n == 0 then {}
    else if n - 1 in procs then OwnedFrames(m, n - 1, procs) + FramesOf(m, n - 1, NUM_PAG_DATA)
    else OwnedFrames(m, n - 1, procs)
  }

  lemma {:induction false} InOwnedFrames(m: Mem, n: nat, procs: set<nat>, i: nat, d: nat)
    requires MemShape(m) && i < n <= NR_TASKS && i in procs && d < NUM_PAG_DATA
    ensures DataFrame(m, i, d) in OwnedFrames(m, n, procs)
  {
    if i == n - 1 {
      InFramesOf(m, i, NUM_PAG_DATA, d);
    } else {
      InOwnedFrames(m, n - 1, procs, i, d);
    }
  }

  lemma {:induction false} OwnedFramesWithout(m: Mem, n: nat, procs: set<nat>, fs: set<nat>)
    requires MemShape(m) && n <= NR_TASKS
    requires forall i, d :: i in procs && i < n && 0 <= d < NUM_PAG_DATA ==> DataFrame(m, i, d) !in fs
    ensures OwnedFrames(m, n, procs) !! fs
  {
    if n > 0 {
      OwnedFramesWithout(m, n - 1, procs, fs);
      if n - 1 in procs {
        FramesOfWithout(m, n - 1, NUM_PAG_DATA, fs);
      }
    }
  }

  function Below(procs: set<nat>, n: nat): set<nat> {
    set i | i in procs && i < n
  }

  /** Distinct processes own disjoint sets of 20 frames. */
  lemma {:induction false} OwnedCount(m: Mem, n: nat, procs: set<nat>)
    requires MemShape(m) && DataOwned(m, procs) && n <= NR_TASKS
    ensures |OwnedFrames(m, n, procs)| == NUM_PAG_DATA * |Below(procs, n)|
  {
    if n == 0 {
      assert Below(procs, 0) == {};
    } else {
      OwnedCount(m, n - 1, procs);
      if n - 1 in procs {
        FramesOfCount(m, procs, n - 1, NUM_PAG_DATA);
        OwnedApart(m, n - 1, procs);
        assert Below(procs, n) == Below(procs, n - 1) + {n - 1};
      } else {
        assert Below(procs, n) == Below(procs, n - 1);
      }
    }
  }

  lemma OwnedApart(m: Mem, n: nat, procs: set<nat>)
    requires MemShape(m) && DataOwned(m, procs) && n < NR_TASKS && n in procs
    ensures OwnedFrames(m, n, procs) !! FramesOf(m, n, NUM_PAG_DATA)
  {
    var fs := FramesOf(m, n, NUM_PAG_DATA);
    forall i, d | i in procs && i < n && 0 <= d < NUM_PAG_DATA
      ensures DataFrame(m, i, d) !in fs
    {
      FramesOfWithout(m, n, NUM_PAG_DATA, {DataFrame(m, i, d)});
    }
    OwnedFramesWithout(m, n, procs, fs);
  }

  /** The user frames in use are exactly the code frames and the processes' data frames. */
  lemma UsedFramesExact(m: Mem, procs: set<nat>)
    requires OwnInv(m, procs)
    ensures UsedFrames(m.phys) == UsableBelow(NUM_PAG_CODE) + OwnedFrames(m, NR_TASKS, procs)
    ensures UsableBelow(NUM_PAG_CODE) !! OwnedFrames(m, NR_TASKS, procs)
  {
    var owned := OwnedFrames(m, NR_TASKS, procs);
    forall f | f in UsedFrames(m.phys)
      ensures f in UsableBelow(NUM_PAG_CODE) + owned
    {
      if !IsCodeFrame(f) {
        assert Owned(m, procs, f);
        var i, d :| i in procs && i < NR_TASKS && 0 <= d < NUM_PAG_DATA && DataFrame(m, i, d) == f;
        InOwnedFrames(m, NR_TASKS, procs, i, d);
      }
    }
    forall f | f in UsableBelow(NUM_PAG_CODE)
      ensures f in UsedFrames(m.phys)
    {
      assert IsCodeFrame(f);
    }
    OwnedFramesWithout(m, NR_TASKS, procs, UsableBelow(NUM_PAG_CODE));
    OwnedFramesUsed(m, NR_TASKS, procs);
  }

  lemma {:induction false} OwnedFramesUsed(m: Mem, n: nat, procs: set<nat>)
    requires MemShape(m) && DataOwned(m, procs) && n <= NR_TASKS
    ensures OwnedFrames(m, n, procs) <= UsedFrames(m.phys)
  {
    if n > 0 {
      OwnedFramesUsed(m, n - 1, procs);
      if n - 1 in procs {
        FramesOfUsed(m, n - 1, NUM_PAG_DATA, procs);
      }
    }
  }

  lemma {:induction false} FramesOfUsed(m: Mem, i: nat, n: nat, procs: set<nat>)
    requires MemShape(m) && DataOwned(m, procs) && i < NR_TASKS && i in procs && n <= NUM_PAG_DATA
    ensures FramesOf(m, i, n) <= UsedFrames(m.phys)
  {
    if n > 0 {
      FramesOfUsed(m, i, n - 1, procs);
      assert DataEntry(m, i, n - 1).present;
    }
  }

  /** The frame count of every state that satisfies the invariant: 8 shared code frames and 20
      data frames for every process. */
  lemma UsedFrameCount(m: Mem, procs: set<nat>)
    requires OwnInv(m, procs)
    ensures |UsedFrames(m.phys)| == NUM_PAG_CODE + NUM_PAG_DATA * |procs|
    ensures |FreeFrames(m.phys)| == USABLE_FRAMES - |UsedFrames(m.phys)|
  {
    UsedFramesExact(m, procs);
    OwnedCount(m, NR_TASKS, procs);
    assert Below(procs, NR_TASKS) == procs;
    UsableCount(NUM_PAG_CODE);
    UsableCount(USABLE_FRAMES);
    UsedAreUsable(m, procs);
    assert UsableBelow(USABLE_FRAMES) == FreeFrames(m.phys) + UsedFrames(m.phys);
    assert FreeFrames(m.phys) !! UsedFrames(m.phys);
  }

  lemma UsedAreUsable(m: Mem, procs: set<nat>)
    requires OwnInv(m, procs)
    ensures forall f :: f in UsedFrames(m.phys) ==> Usable(f)
  {
    forall f | f in UsedFrames(m.phys)
      ensures Usable(f)
    {
      assert IsCodeFrame(f) || Owned(m, procs, f);
    }
  }

  lemma TakeFrame(phys: seq<bool>, f: nat)
    requires PhysShape(phys) && Usable(f) && !phys[f]
    ensures |FreeFrames(phys[f := true])| == |FreeFrames(phys)| - 1
  {
    assert FreeFrames(phys[f := true]) == FreeFrames(phys) - {f};
  }

  /** An allocation run fails only when fewer frames are free than it asks for. */
  lemma {:induction false} AllocManySucceeds(phys: seq<bool>, n: nat)
    requires PhysShape(phys) && n <= |FreeFrames(phys)|
    ensures |AllocMany(phys, n).1| == n
    ensures |FreeFrames(AllocMany(phys, n).0)| == |FreeFrames(phys)| - n
  {
    if n > 0 {
      AllocManySucceeds(phys, n - 1);
      var (p, fs) := AllocMany(phys, n - 1);
      var f := FirstFree(p, NUM_PAG_KERNEL);
      var g :| g in FreeFrames(p);
      assert Usable(g) && !p[g];
      TakeFrame(p, f);
    }
  }

  lemma NoneFree(phys: seq<bool>)
    requires PhysShape(phys) && FreeFrames(phys) == {}
    ensures FirstFree(phys, NUM_PAG_KERNEL) == -1
  {
    FoundIsFree(phys);
  }

  lemma FoundIsFree(phys: seq<bool>)
    requires PhysShape(phys)
    ensures FirstFree(phys, NUM_PAG_KERNEL) != -1 ==> FirstFree(phys, NUM_PAG_KERNEL) in FreeFrames(phys)
  {
  }

  /** Exactly how many frames an allocation run obtains: all it asks for, or all there are. */
  lemma AllocCount(phys: seq<bool>, n: nat)
    requires PhysShape(phys)
    ensures |AllocMany(phys, n).1| == if n <= |FreeFrames(phys)| then n else |FreeFrames(phys)|
  {
    var all := |FreeFrames(phys)|;
    if n <= all {
      AllocManySucceeds(phys, n);
    } else {
      AllocManySucceeds(phys, all);
      var p := AllocMany(phys, all).0;
      NoneFree(p);
      AllocStuck(phys, all, n);
    }
  }

  /** Ten slots cannot use up the frames: whichever of them own pages, `fork` gets its 20. */
  lemma ForkGetsItsPages(m: Mem, procs: set<nat>)
    requires OwnInv(m, procs)
    ensures |AllocMany(m.phys, NUM_PAG_DATA).1| == NUM_PAG_DATA
    ensures |procs| <= NR_TASKS && |UsedFrames(m.phys)| <= NUM_PAG_CODE + NUM_PAG_DATA * NR_TASKS
  {
    UsedFrameCount(m, procs);
    SubsetCount(procs, Slots(NR_TASKS));
    AllocManySucceeds(m.phys, NUM_PAG_DATA);
  }

  // ---------------------------------------------------------------- preservation by fork

  /** The page tables after a successful fork: the parent's is what it was (its temporary entries
      were empty and are empty again), the child's has the new data frames and the parent's
      kernel and code frames, and no other row changed. */
  lemma ForkRows(m: Mem, procs: set<nat>, parent: nat, child: nat)
    requires OwnInv(m, procs) && parent in procs && child < NR_TASKS && child != parent
    requires ForkMem(m, parent, child).1
    ensures var r := ForkMem(m, parent, child).0; var fs := AllocMany(m.phys, NUM_PAG_DATA).1;
            && |fs| == NUM_PAG_DATA && |r.pt| == NR_TASKS && |r.pt[child]| == TOTAL_PAGES
            && (forall i :: 0 <= i < NR_TASKS && i != child ==> r.pt[i] == m.pt[i])
            && (forall d :: 0 <= d < NUM_PAG_DATA ==> r.pt[child][PAG_LOG_INIT_DATA + d] == UserPage(fs[d], true))
            && (forall p :: 0 <= p < NUM_PAG_KERNEL ==> r.pt[child][p] == UserPage(p, true))
            && (forall c :: 0 <= c < NUM_PAG_CODE ==>
                 r.pt[child][PAG_LOG_INIT_CODE + c] == UserPage(NUM_PAG_KERNEL + 2 * c, true))
            && (forall p :: PAG_LOG_INIT_DATA + NUM_PAG_DATA <= p < TOTAL_PAGES ==> r.pt[child][p] == EMPTY_ENTRY)
  {
    var r := ForkMem(m, parent, child).0;
    var cleared := ClearRange(m.pt[parent], PAG_LOG_INIT_DATA + NUM_PAG_DATA, NUM_PAG_DATA);
    assert cleared == m.pt[parent];
    forall c | 0 <= c < NUM_PAG_CODE
      ensures r.pt[child][PAG_LOG_INIT_CODE + c] == UserPage(NUM_PAG_KERNEL + 2 * c, true)
    {
      assert Maps(CodeEntry(m, parent, c), NUM_PAG_KERNEL + 2 * c);
    }
  }

  /** The frames a fork obtains are free before, so no process owns any of them. */
  lemma NewFramesAreForeign(m: Mem, procs: set<nat>, i: nat, d: nat)
    requires OwnInv(m, procs) && i in procs && i < NR_TASKS && d < NUM_PAG_DATA
    ensures DataFrame(m, i, d) !in AllocMany(m.phys, NUM_PAG_DATA).1
  {
    AllocManyFrames(m.phys, NUM_PAG_DATA);
    assert DataEntry(m, i, d).present;
  }

  lemma SourceApart(m: Mem, procs: set<nat>, parent: nat)
    requires OwnInv(m, procs) && parent in procs
    ensures var fs, src := AllocMany(m.phys, NUM_PAG_DATA).1, Frames(m.pt[parent], PAG_LOG_INIT_DATA, NUM_PAG_DATA);
            && NoDup(fs)
            && (forall j :: 0 <= j < |fs| ==> fs[j] < TOTAL_PAGES)
            && (forall d :: 0 <= d < NUM_PAG_DATA ==> src[d] == DataFrame(m, parent, d) && src[d] !in fs)
  {
    AllocManyFrames(m.phys, NUM_PAG_DATA);
    var fs, src := AllocMany(m.phys, NUM_PAG_DATA).1, Frames(m.pt[parent], PAG_LOG_INIT_DATA, NUM_PAG_DATA);
    forall j | 0 <= j < |fs|
      ensures fs[j] < TOTAL_PAGES
    {
      assert fs[j] in fs;
    }
    forall d | 0 <= d < NUM_PAG_DATA
      ensures src[d] == DataFrame(m, parent, d) && src[d] !in fs
    {
      NewFramesAreForeign(m, procs, parent, d);
    }
  }

  /** Fork preserves memory meaning: every data page of the child is byte-equal to the parent's,
      and no other frame changes. */
  lemma ForkCopies(m: Mem, procs: set<nat>, parent: nat, child: nat)
    requires OwnInv(m, procs) && parent in procs && child < NR_TASKS && child != parent
    requires ForkMem(m, parent, child).1
    ensures var r := ForkMem(m, parent, child).0; var fs := AllocMany(m.phys, NUM_PAG_DATA).1;
            && |r.ram| == TOTAL_PAGES && |fs| == NUM_PAG_DATA
            && (forall d :: 0 <= d < NUM_PAG_DATA ==> fs[d] < TOTAL_PAGES)
            && (forall d :: 0 <= d < NUM_PAG_DATA ==> r.ram[fs[d]] == m.ram[DataFrame(m, parent, d)])
            && (forall f :: 0 <= f < TOTAL_PAGES && f !in fs ==> r.ram[f] == m.ram[f])
  {
    var fs, src := AllocMany(m.phys, NUM_PAG_DATA).1, Frames(m.pt[parent], PAG_LOG_INIT_DATA, NUM_PAG_DATA);
    SourceApart(m, procs, parent);
    CopiedPages(m.ram, src, fs, NUM_PAG_DATA);
    assert fs[..NUM_PAG_DATA] == fs;
    assert ForkMem(m, parent, child).0.ram == Copied(m.ram, src, fs, NUM_PAG_DATA);
  }

  lemma ForkShape(m: Mem, procs: set<nat>, parent: nat, child: nat)
    requires OwnInv(m, procs) && parent in procs && child < NR_TASKS && child != parent
    requires ForkMem(m, parent, child).1
    ensures MemShape(ForkMem(m, parent, child).0) && KernelMapped(ForkMem(m, parent, child).0)
  {
    var r := ForkMem(m, parent, child).0;
    var fs := AllocMany(m.phys, NUM_PAG_DATA).1;
    ForkRows(m, procs, parent, child);
    ForkCopies(m, procs, parent, child);
    AllocManyFrames(m.phys, NUM_PAG_DATA);
    forall f | 0 <= f < TOTAL_PAGES
      ensures |r.ram[f]| == PAGE_SIZE
    {
      if f in fs {
        var d :| 0 <= d < NUM_PAG_DATA && fs[d] == f;
        assert r.ram[fs[d]] == m.ram[DataFrame(m, parent, d)];
      }
    }
    forall p | 0 <= p < TOTAL_PAGES
      ensures r.pt[child][p].frame < TOTAL_PAGES
    {
      if PAG_LOG_INIT_DATA <= p < PAG_LOG_INIT_DATA + NUM_PAG_DATA {
        var d := p - PAG_LOG_INIT_DATA;
        assert r.pt[child][PAG_LOG_INIT_DATA + d] == UserPage(fs[d], true) && fs[d] in fs;
      } else if PAG_LOG_INIT_CODE <= p < PAG_LOG_INIT_DATA {
        var c := p - PAG_LOG_INIT_CODE;
        assert r.pt[child][PAG_LOG_INIT_CODE + c] == UserPage(NUM_PAG_KERNEL + 2 * c, true);
      }
    }
  }

  /** A successful fork extends exact ownership to the child and leaves an empty TLB. */
  lemma ForkKeepsMemInv(m: Mem, procs: set<nat>, parent: nat, child: nat)
    requires OwnInv(m, procs) && parent in procs && child < NR_TASKS && child !in procs
    requires ForkMem(m, parent, child).1
    ensures MemInv(ForkMem(m, parent, child).0, procs + {child})
  {
    var r := ForkMem(m, parent, child).0;
    var fs := AllocMany(m.phys, NUM_PAG_DATA).1;
    ForkRows(m, procs, parent, child);
    ForkShape(m, procs, parent, child);
    AllocManyFrames(m.phys, NUM_PAG_DATA);
    ForkEntries(m, procs, parent, child);
    ForkKeepsOwnership(m, procs, parent, child);
    ForkSharesCode(m, procs, parent, child);
    forall f | NUM_PAG_KERNEL <= f < TOTAL_PAGES && r.phys[f]
      ensures IsCodeFrame(f) || Owned(r, procs + {child}, f)
    {
      if f in fs {
        var d :| 0 <= d < NUM_PAG_DATA && fs[d] == f;
        assert DataFrame(r, child, d) == f;
      } else if !IsCodeFrame(f) {
        assert Owned(m, procs, f);
        var i, d :| i in procs && i < NR_TASKS && 0 <= d < NUM_PAG_DATA && DataFrame(m, i, d) == f;
        assert DataFrame(r, i, d) == f;
      }
    }
  }

  /** Entry by entry: what `ForkRows` says of the data and code pages. */
  lemma ForkEntries(m: Mem, procs: set<nat>, parent: nat, child: nat)
    requires OwnInv(m, procs) && parent in procs && child < NR_TASKS && child !in procs
    requires ForkMem(m, parent, child).1 && MemShape(ForkMem(m, parent, child).0)
    ensures var r := ForkMem(m, parent, child).0; var fs := AllocMany(m.phys, NUM_PAG_DATA).1;
            && |fs| == NUM_PAG_DATA
            && (forall i, d :: 0 <= i < NR_TASKS && 0 <= d < NUM_PAG_DATA ==>
                 DataEntry(r, i, d) == if i == child then UserPage(fs[d], true) else DataEntry(m, i, d))
            && (forall i, c :: 0 <= i < NR_TASKS && 0 <= c < NUM_PAG_CODE ==>
                 CodeEntry(r, i, c) == if i == child then UserPage(NUM_PAG_KERNEL + 2 * c, true)
                     else CodeEntry(m, i, c))
  {
    ForkRows(m, procs, parent, child);
  }

  lemma ForkKeepsOwnership(m: Mem, procs: set<nat>, parent: nat, child: nat)
    requires OwnInv(m, procs) && parent in procs && child < NR_TASKS && child !in procs
    requires ForkMem(m, parent, child).1 && MemShape(ForkMem(m, parent, child).0)
    ensures DataOwned(ForkMem(m, parent, child).0, procs + {child})
  {
    var r := ForkMem(m, parent, child).0;
    var fs := AllocMany(m.phys, NUM_PAG_DATA).1;
    AllocManyFrames(m.phys, NUM_PAG_DATA);
    ForkEntries(m, procs, parent, child);
    forall i, d | i in procs + {child} && i < NR_TASKS && 0 <= d < NUM_PAG_DATA
      ensures DataEntry(r, i, d).present && FIRST_DATA_FRAME <= DataFrame(r, i, d)
      ensures Usable(DataFrame(r, i, d)) && r.phys[DataFrame(r, i, d)]
    {
      if i == child {
        assert fs[d] in fs && !IsCodeFrame(fs[d]);
      } else {
        assert DataEntry(m, i, d).present;
      }
    }
    ForkFramesDistinct(m, procs, parent, child);
  }

  lemma ForkFramesDistinct(m: Mem, procs: set<nat>, parent: nat, child: nat)
    requires OwnInv(m, procs) && parent in procs && child < NR_TASKS && child !in procs
    requires ForkMem(m, parent, child).1 && MemShape(ForkMem(m, parent, child).0)
    ensures forall i, d, j, e ::
              && i in procs + {child} && j in procs + {child} && i < NR_TASKS && j < NR_TASKS
              && 0 <= d < NUM_PAG_DATA && 0 <= e < NUM_PAG_DATA && (i != j || d != e) ==>
              DataFrame(ForkMem(m, parent, child).0, i, d) != DataFrame(ForkMem(m, parent, child).0, j, e)
  {
    var r := ForkMem(m, parent, child).0;
    var fs := AllocMany(m.phys, NUM_PAG_DATA).1;
    AllocManyFrames(m.phys, NUM_PAG_DATA);
    ForkEntries(m, procs, parent, child);
    forall i, d, j, e |
      && i in procs + {child} && j in procs + {child} && i < NR_TASKS && j < NR_TASKS
      && 0 <= d < NUM_PAG_DATA && 0 <= e < NUM_PAG_DATA && (i != j || d != e)
      ensures DataFrame(r, i, d) != DataFrame(r, j, e)
    {
      assert DataEntry(r, i, d) == if i == child then UserPage(fs[d], true) else DataEntry(m, i, d);
      assert DataEntry(r, j, e) == if j == child then UserPage(fs[e], true) else DataEntry(m, j, e);
      if i == child && j == child {
        assert fs[d] != fs[e];
      } else if i == child {
        NewFramesAreForeign(m, procs, j, e);
        assert fs[d] in fs;
      } else if j == child {
        NewFramesAreForeign(m, procs, i, d);
        assert fs[e] in fs;
      }
    }
  }

  lemma ForkSharesCode(m: Mem, procs: set<nat>, parent: nat, child: nat)
    requires OwnInv(m, procs) && parent in procs && child < NR_TASKS && child !in procs
    requires ForkMem(m, parent, child).1 && MemShape(ForkMem(m, parent, child).0)
    ensures CodeShared(ForkMem(m, parent, child).0, procs + {child})
  {
    AllocManyFrames(m.phys, NUM_PAG_DATA);
    ForkEntries(m, procs, parent, child);
  }

  // ---------------------------------------------------------------- preservation by exit

  /** An exit returns exactly the data frames of the slot. */
  lemma ReleaseKeepsOwnInv(m: Mem, procs: set<nat>, slot: nat)
    requires OwnInv(m, procs) && slot in procs
    ensures OwnInv(ReleaseMem(m, slot), procs - {slot})
  {
    var r := ReleaseMem(m, slot);
    var fs := Frames(m.pt[slot], PAG_LOG_INIT_DATA, NUM_PAG_DATA);
    ReleaseEntries(m, procs, slot);
    ReleasedFrames(m, procs, slot);
    forall f | NUM_PAG_KERNEL <= f < TOTAL_PAGES && r.phys[f]
      ensures IsCodeFrame(f) || Owned(r, procs - {slot}, f)
    {
      if !IsCodeFrame(f) {
        assert Owned(m, procs, f);
        var i, d :| i in procs && i < NR_TASKS && 0 <= d < NUM_PAG_DATA && DataFrame(m, i, d) == f;
        assert DataFrame(r, i, d) == f;
      }
    }
  }

  lemma ReleaseEntries(m: Mem, procs: set<nat>, slot: nat)
    requires OwnInv(m, procs) && slot in procs
    ensures MemShape(ReleaseMem(m, slot)) && KernelMapped(ReleaseMem(m, slot))
    ensures var r := ReleaseMem(m, slot);
            && (forall i, d :: 0 <= i < NR_TASKS && 0 <= d < NUM_PAG_DATA ==>
                 DataEntry(r, i, d) == if i == slot then EMPTY_ENTRY else DataEntry(m, i, d))
            && (forall i, c :: 0 <= i < NR_TASKS && 0 <= c < NUM_PAG_CODE ==> CodeEntry(r, i, c) == CodeEntry(m, i, c))
  {
  }

  /** The bytemap after an exit: a frame is in use iff it was and the slot does not own it. */
  lemma ReleasedFrames(m: Mem, procs: set<nat>, slot: nat)
    requires OwnInv(m, procs) && slot in procs
    ensures forall f :: 0 <= f < TOTAL_PAGES ==>
        (ReleaseMem(m, slot).phys[f] <==> m.phys[f] && f !in Frames(m.pt[slot], PAG_LOG_INIT_DATA, NUM_PAG_DATA))
    ensures forall f :: f in Frames(m.pt[slot], PAG_LOG_INIT_DATA, NUM_PAG_DATA) ==> FIRST_DATA_FRAME <= f
    ensures forall d :: 0 <= d < NUM_PAG_DATA ==>
        DataFrame(m, slot, d) in Frames(m.pt[slot], PAG_LOG_INIT_DATA, NUM_PAG_DATA)
    ensures forall i, d :: i in procs && i < NR_TASKS && i != slot && 0 <= d < NUM_PAG_DATA ==>
        DataFrame(m, i, d) !in Frames(m.pt[slot], PAG_LOG_INIT_DATA, NUM_PAG_DATA)
  {
    var fs := Frames(m.pt[slot], PAG_LOG_INIT_DATA, NUM_PAG_DATA);
    forall d | 0 <= d < NUM_PAG_DATA
      ensures fs[d] == DataFrame(m, slot, d) && FIRST_DATA_FRAME <= fs[d]
    {
      assert DataEntry(m, slot, d).present;
    }
  }
}
