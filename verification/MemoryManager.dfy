/**
 mm.c and the memory loops of sys.c on the arrays they update in place, with the MMU in between:
 an access to a page may use a cached translation, cache a present one, or forget any, and only
 `SetCr3` is sure to empty the TLB. Every method is proved equal to its value in module Paging
 for every choice the hardware makes.
 */
module MemoryManager {
  import opened BootState
  import opened Kernel
  import opened KernelTypes
  import opened Paging

  class Memory {
    const phys_mem: array<bool>
    const pagusr_table: array<Row>      // one row of entries for each task slot
    const ram: array<seq<Byte>>
    var tlb: map<nat, nat>
    var cr3: nat

    ghost predicate Valid()
      reads this, phys_mem, pagusr_table, ram
    {
      && phys_mem.Length == TOTAL_PAGES && ram.Length == TOTAL_PAGES
      && pagusr_table.Length == NR_TASKS
      && forall i :: 0 <= i < NR_TASKS ==> |pagusr_table[i]| == TOTAL_PAGES
    }

    ghost function M(): Mem
      reads this, phys_mem, pagusr_table, ram
    {
      Mem(phys_mem[..], pagusr_table[..], ram[..], tlb, cr3)
    }

    constructor (contents: seq<seq<Byte>>)
      requires RamShape(contents)
      ensures Valid() && fresh(phys_mem) && fresh(pagusr_table) && fresh(ram)
      ensures ram[..] == contents
    {
      phys_mem := new bool[TOTAL_PAGES];
      pagusr_table := new Row[NR_TASKS](_ => seq(TOTAL_PAGES, _ => EMPTY_ENTRY));
      ram := new seq<Byte>[TOTAL_PAGES](i requires 0 <= i < |contents| => contents[i]);
      tlb := map[];
      cr3 := 0;
    }

    // -------------------------------------------------------------- frames

    /** `init_frames`. */
    method InitFrames()
      requires Valid()
      modifies phys_mem
      ensures phys_mem[..] == BootPhys(0)
      ensures forall f :: 0 <= f < TOTAL_PAGES ==> (phys_mem[f] <==> f < 256)
    {
      var i := 0;
      while i < TOTAL_PAGES
        invariant 0 <= i <= TOTAL_PAGES
        invariant forall f :: 0 <= f < i ==> !phys_mem[f]
      {
        phys_mem[i] := false;
        i := i + 1;
      }
      i := 0;
      while i < NUM_PAG_KERNEL
        invariant 0 <= i <= NUM_PAG_KERNEL
        invariant forall f :: 0 <= f < TOTAL_PAGES ==> (phys_mem[f] <==> f < i)
      {
        phys_mem[i] := true;
        i := i + 1;
      }
    }

    /** `alloc_frame`. */
    method AllocFrame() returns (frame: int)
      requires Valid()
      modifies phys_mem
      ensures frame == FirstFree(old(phys_mem[..]), NUM_PAG_KERNEL)
      ensures phys_mem[..] == if frame == -1 then old(phys_mem[..]) else old(phys_mem[..])[frame := true]
    {
      var i := NUM_PAG_KERNEL;
      while i < TOTAL_PAGES
        invariant NUM_PAG_KERNEL <= i <= TOTAL_PAGES && i % 2 == 0
        invariant phys_mem[..] == old(phys_mem[..])
        invariant FirstFree(phys_mem[..], NUM_PAG_KERNEL) == FirstFree(phys_mem[..], i)
      {
        if !phys_mem[i] {
          phys_mem[i] := true;
          return i;
        }
        i := i + 2;
      }
      return -1;
    }

    /** `free_frame`. */
    method FreeFrame(frame: nat)
      requires Valid()
      modifies phys_mem
      ensures phys_mem[..] == FreeMany(old(phys_mem[..]), [frame])
      ensures phys_mem[..] == if 256 < frame < TOTAL_PAGES then old(phys_mem[..])[frame := false] else old(phys_mem[..])
    {
      if frame > NUM_PAG_KERNEL && frame < TOTAL_PAGES {
        phys_mem[frame] := false;
      }
    }

    // -------------------------------------------------------------- page tables

    /** `set_ss_pag`, on the page table of directory `dir`. */
    method SetSsPag(dir: nat, page: nat, frame: nat)
      requires Valid() && dir < NR_TASKS && page < TOTAL_PAGES
      modifies pagusr_table
      ensures Valid()
      ensures pagusr_table[..] == old(pagusr_table[..])[dir := old(pagusr_table[dir])[page := UserPage(frame, true)]]
    {
      pagusr_table[dir] := pagusr_table[dir][page := UserPage(frame, true)];
    }

    /** `del_ss_pag`. */
    method DelSsPag(dir: nat, page: nat)
      requires Valid() && dir < NR_TASKS && page < TOTAL_PAGES
      modifies pagusr_table
      ensures Valid()
      ensures pagusr_table[..] == old(pagusr_table[..])[dir := old(pagusr_table[dir])[page := EMPTY_ENTRY]]
    {
      pagusr_table[dir] := pagusr_table[dir][page := EMPTY_ENTRY];
    }

    /** `get_frame`. */
    method GetFrame(dir: nat, page: nat) returns (frame: nat)
      requires Valid() && dir < NR_TASKS && page < TOTAL_PAGES
      ensures frame == pagusr_table[dir][page].frame
    {
      frame := pagusr_table[dir][page].frame;
    }

    /** `set_cr3`. */
    method SetCr3(dir: nat)
      modifies this
      ensures cr3 == dir && tlb == map[]
    {
      cr3 := dir;
      tlb := map[];
    }

    /** `init_table_pages`; `guard0` and `guard1` are the pages before and after the task array. */
    method InitTablePages(guard0: nat, guard1: nat)
      requires Valid() && guard0 < TOTAL_PAGES && guard1 < TOTAL_PAGES
      modifies pagusr_table
      ensures Valid()
      ensures forall j :: 0 <= j < NR_TASKS ==> pagusr_table[j] == KernelRow(guard0, guard1)
      ensures forall j, p :: 0 <= j < NR_TASKS && 0 <= p < TOTAL_PAGES ==>
                pagusr_table[j][p] == if 1 <= p < 256 then PTE(p != guard0 && p != guard1, p, false, true)
                    else PTE(false, 0, false, false)
    {
      for j := 0 to NR_TASKS
        invariant Valid()
        invariant forall k :: 0 <= k < j ==> pagusr_table[k] == KernelRow(guard0, guard1)
      {
        for i := 0 to TOTAL_PAGES
          invariant Valid()
          invariant forall k :: 0 <= k < j ==> pagusr_table[k] == KernelRow(guard0, guard1)
          invariant forall p :: 0 <= p < i ==> pagusr_table[j][p] == EMPTY_ENTRY
        {
          pagusr_table[j] := pagusr_table[j][i := EMPTY_ENTRY];
        }
        for i := 1 to NUM_PAG_KERNEL
          invariant Valid()
          invariant forall k :: 0 <= k < j ==> pagusr_table[k] == KernelRow(guard0, guard1)
          invariant forall p :: 0 <= p < TOTAL_PAGES ==>
              pagusr_table[j][p] == if 1 <= p < i then PTE(true, p, false, true) else EMPTY_ENTRY
        {
          pagusr_table[j] := pagusr_table[j][i := PTE(true, i, false, true)];
        }
        pagusr_table[j] := pagusr_table[j][guard0 := pagusr_table[j][guard0].(present := false)];
        pagusr_table[j] := pagusr_table[j][guard1 := pagusr_table[j][guard1].(present := false)];
        assert pagusr_table[j] == KernelRow(guard0, guard1);
      }
    }

    /** `init_mm`. */
    method InitMm(guard0: nat, guard1: nat)
      requires Valid() && guard0 < TOTAL_PAGES && guard1 < TOTAL_PAGES
      modifies this, phys_mem, pagusr_table
      ensures Valid() && phys_mem[..] == BootPhys(0) && cr3 == 0 && tlb == map[]
      ensures forall j :: 0 <= j < NR_TASKS ==> pagusr_table[j] == KernelRow(guard0, guard1)
      ensures forall j, p :: 0 <= j < NR_TASKS && 0 <= p < TOTAL_PAGES ==>
                pagusr_table[j][p] == if 1 <= p < 256 then PTE(p != guard0 && p != guard1, p, false, true)
                    else PTE(false, 0, false, false)
    {
      InitTablePages(guard0, guard1);
      InitFrames();
      SetCr3(0);
    }

    /** One of the two loops of `set_user_pages`: maps `n` pages to newly allocated frames,
        the data pages writable and the code pages not. */
    method MapNewFrames(dir: nat, base: nat, n: nat, rw: bool)
      requires Valid() && dir < NR_TASKS && base + n <= TOTAL_PAGES
      requires |AllocMany(phys_mem[..], n).1| == n
      modifies phys_mem, pagusr_table
      ensures Valid()
      ensures phys_mem[..] == AllocMany(old(phys_mem[..]), n).0
      ensures pagusr_table[..] ==
          old(pagusr_table[..])[dir := MapRange(old(pagusr_table[dir]), base, AllocMany(old(phys_mem[..]), n).1, rw)]
    {
      ghost var phys := phys_mem[..];
      ghost var row := pagusr_table[dir];
      MapNothing(row, base, rw);
      var pag := 0;
      while pag < n
        invariant 0 <= pag <= n && Valid()
        invariant phys_mem[..] == AllocMany(phys, pag).0 && |AllocMany(phys, pag).1| == pag
        invariant pagusr_table[..] == old(pagusr_table[..])[dir := MapRange(row, base, AllocMany(phys, pag).1, rw)]
      {
        ghost var a := AllocMany(phys, pag);
        var frame := AllocFrame();
        AllocOneMore(phys, pag);
        if frame == -1 {
          AllocStuck(phys, pag, n);
        }
        pagusr_table[dir] := pagusr_table[dir][base + pag := UserPage(frame, rw)];
        MapOneMore(row, base, a.1, frame, rw);
        pag := pag + 1;
      }
    }

    /** `set_user_pages` of task 1, on the bytemap of `init_frames`. */
    method SetUserPages(dir: nat)
      requires Valid() && dir < NR_TASKS
      requires phys_mem[..] == BootPhys(0)
      modifies phys_mem, pagusr_table
      ensures Valid()
      ensures phys_mem[..] == BootPhys(NUM_PAG_CODE + NUM_PAG_DATA)
      ensures pagusr_table[..] == old(pagusr_table[..])[dir :=
                MapRange(MapRange(old(pagusr_table[dir]), PAG_LOG_INIT_CODE, BootFrames(0, NUM_PAG_CODE), false),
                         PAG_LOG_INIT_DATA, BootFrames(NUM_PAG_CODE, NUM_PAG_DATA), true)]
    {
      BootAlloc(0, NUM_PAG_CODE);
      MapNewFrames(dir, PAG_LOG_INIT_CODE, NUM_PAG_CODE, false);
      BootAlloc(NUM_PAG_CODE, NUM_PAG_DATA);
      MapNewFrames(dir, PAG_LOG_INIT_DATA, NUM_PAG_DATA, true);
    }

    // -------------------------------------------------------------- fork and exit

    /** The allocation loop of `sys_fork` with its rollback. */
    method AllocateData(child: nat) returns (ok: bool)
      requires Valid() && child < NR_TASKS
      requires RowShape(pagusr_table[child])
      modifies phys_mem, pagusr_table
      ensures Valid()
      ensures ok == (|AllocMany(old(phys_mem[..]), NUM_PAG_DATA).1| == NUM_PAG_DATA)
      ensures var a := AllocMany(old(phys_mem[..]), NUM_PAG_DATA);
              phys_mem[..] == if ok then a.0 else FreeMany(a.0, a.1)
      ensures var fs := AllocMany(old(phys_mem[..]), NUM_PAG_DATA).1;
              pagusr_table[..] == old(pagusr_table[..])[child :=
                if ok then MapRange(old(pagusr_table[child]), PAG_LOG_INIT_DATA, fs, true)
                else ClearRange(old(pagusr_table[child]), PAG_LOG_INIT_DATA, |fs|)]
    {
      ghost var phys := phys_mem[..];
      ghost var row := pagusr_table[child];
      MapNothing(row, PAG_LOG_INIT_DATA, true);
      var pag := 0;
      while pag < NUM_PAG_DATA
        invariant 0 <= pag <= NUM_PAG_DATA && Valid()
        invariant phys_mem[..] == AllocMany(phys, pag).0 && |AllocMany(phys, pag).1| == pag
        invariant pagusr_table[..] ==
            old(pagusr_table[..])[child := MapRange(row, PAG_LOG_INIT_DATA, AllocMany(phys, pag).1, true)]
      {
        ghost var a := AllocMany(phys, pag);
        var frame := AllocFrame();
        if frame == -1 {
          AllocStuck(phys, pag, NUM_PAG_DATA);
          Rollback(child, pag, row, a.1);
          return false;
        }
        SetSsPag(child, PAG_LOG_INIT_DATA + pag, frame);
        AllocOneMore(phys, pag);
        MapOneMore(row, PAG_LOG_INIT_DATA, a.1, frame, true);
        pag := pag + 1;
      }
      return true;
    }

    /** The inner loop of the failure branch: frees and unmaps the first `pag` data pages. */
    method Rollback(child: nat, pag: nat, ghost row: Row, ghost fs: seq<nat>)
      requires Valid() && child < NR_TASKS && pag <= NUM_PAG_DATA
      requires |fs| == pag && |row| == TOTAL_PAGES && pagusr_table[child] == MapRange(row, PAG_LOG_INIT_DATA, fs, true)
      modifies phys_mem, pagusr_table
      ensures Valid()
      ensures phys_mem[..] == FreeMany(old(phys_mem[..]), fs)
      ensures pagusr_table[..] == old(pagusr_table[..])[child := ClearRange(row, PAG_LOG_INIT_DATA, pag)]
    {
      ghost var mapped := pagusr_table[child];
      FreeNothing(phys_mem[..]);
      ClearNothing(mapped, PAG_LOG_INIT_DATA);
      var i := 0;
      while i < pag
        invariant 0 <= i <= pag && Valid()
        invariant phys_mem[..] == FreeMany(old(phys_mem[..]), fs[..i])
        invariant pagusr_table[..] == old(pagusr_table[..])[child := ClearRange(mapped, PAG_LOG_INIT_DATA, i)]
      {
        var frame := GetFrame(child, PAG_LOG_INIT_DATA + i);
        FreeFrame(frame);
        DelSsPag(child, PAG_LOG_INIT_DATA + i);
        FreeOneMore(old(phys_mem[..]), fs, i);
        ClearOneMore(mapped, PAG_LOG_INIT_DATA, i);
        i := i + 1;
      }
      assert fs[..pag] == fs;
      assert ClearRange(mapped, PAG_LOG_INIT_DATA, pag) == ClearRange(row, PAG_LOG_INIT_DATA, pag);
    }

    /** The deallocation loop of `sys_exit`. */
    method ReleaseData(dir: nat)
      requires Valid() && dir < NR_TASKS && RowShape(pagusr_table[dir])
      modifies phys_mem, pagusr_table
      ensures Valid()
      ensures phys_mem[..] == FreeMany(old(phys_mem[..]),
          Frames(old(pagusr_table[dir]), PAG_LOG_INIT_DATA, NUM_PAG_DATA))
      ensures pagusr_table[..] ==
          old(pagusr_table[..])[dir := ClearRange(old(pagusr_table[dir]), PAG_LOG_INIT_DATA, NUM_PAG_DATA)]
    {
      ghost var row := pagusr_table[dir];
      ghost var fs := Frames(row, PAG_LOG_INIT_DATA, NUM_PAG_DATA);
      FreeNothing(phys_mem[..]);
      ClearNothing(row, PAG_LOG_INIT_DATA);
      var i := 0;
      while i < NUM_PAG_DATA
        invariant 0 <= i <= NUM_PAG_DATA && Valid()
        invariant phys_mem[..] == FreeMany(old(phys_mem[..]), fs[..i])
        invariant pagusr_table[..] == old(pagusr_table[..])[dir := ClearRange(row, PAG_LOG_INIT_DATA, i)]
      {
        var frame := GetFrame(dir, PAG_LOG_INIT_DATA + i);
        FreeFrame(frame);
        DelSsPag(dir, PAG_LOG_INIT_DATA + i);
        FreeOneMore(old(phys_mem[..]), fs, i);
        ClearOneMore(row, PAG_LOG_INIT_DATA, i);
        i := i + 1;
      }
      assert fs[..NUM_PAG_DATA] == fs;
    }

    /** The loops of `sys_fork` that give the child the parent's kernel and code frames. */
    method ShareRange(child: nat, parent: nat, base: nat, n: nat)
      requires Valid() && child < NR_TASKS && parent < NR_TASKS && child != parent && base + n <= TOTAL_PAGES
      modifies pagusr_table
      ensures Valid()
      ensures pagusr_table[..] ==
          old(pagusr_table[..])[child := MapRange(old(pagusr_table[child]), base,
              Frames(old(pagusr_table[parent]), base, n), true)]
    {
      ghost var row := pagusr_table[child];
      MapNothing(row, base, true);
      var pag := 0;
      while pag < n
        invariant 0 <= pag <= n && Valid()
        invariant pagusr_table[..] ==
            old(pagusr_table[..])[child := MapRange(row, base, Frames(old(pagusr_table[parent]), base, pag), true)]
      {
        var frame := GetFrame(parent, base + pag);
        SetSsPag(child, base + pag, frame);
        MapOneMore(row, base, Frames(old(pagusr_table[parent]), base, pag), frame, true);
        assert Frames(old(pagusr_table[parent]), base, pag + 1) ==
            Frames(old(pagusr_table[parent]), base, pag) + [frame];
        pag := pag + 1;
      }
    }

    // -------------------------------------------------------------- accesses through the MMU

    /** The page table in force has `page` present, and the TLB holds no other frame for it. */
    ghost predicate Coherent(page: nat)
      requires Valid() && cr3 < NR_TASKS
      reads this, phys_mem, pagusr_table, ram
    {
      && page < TOTAL_PAGES && pagusr_table[cr3][page].present && pagusr_table[cr3][page].frame < TOTAL_PAGES
      && (page in tlb ==> tlb[page] == pagusr_table[cr3][page].frame)
    }

    /** What the TLB may have become: entries it held, and present mappings of the current table. */
    predicate MayCache(now: map<nat, nat>, before: map<nat, nat>)
      requires Valid() && cr3 < NR_TASKS
      reads this, phys_mem, pagusr_table, ram
    {
      forall p | p in now ::
        (p in before && before[p] == now[p]) || (p < TOTAL_PAGES && Maps(pagusr_table[cr3][p], now[p]))
    }

    /** One translation: the hardware uses a cached entry if it likes, walks the table otherwise,
        and changes the TLB as it likes. A page neither cached nor present would fault. */
    method Translate(page: nat) returns (frame: nat)
      requires Valid() && cr3 < NR_TASKS && Coherent(page)
      modifies this`tlb
      ensures frame == pagusr_table[cr3][page].frame
      ensures MayCache(tlb, old(tlb)) && Coherent(page)
    {
      var useTlb: bool := *;
      if page in tlb && useTlb {
        frame := tlb[page];
      } else {
        frame := pagusr_table[cr3][page].frame;
      }
      var now: map<nat, nat> := *;
      if MayCache(now, tlb) {
        tlb := now;
      }
    }

    method Load(page: nat, off: nat, n: nat) returns (bytes: seq<Byte>)
      requires Valid() && cr3 < NR_TASKS && Coherent(page)
      requires off + n <= |ram[pagusr_table[cr3][page].frame]|
      modifies this`tlb
      ensures bytes == ram[pagusr_table[cr3][page].frame][off..off + n]
      ensures MayCache(tlb, old(tlb)) && Coherent(page)
    {
      var frame := Translate(page);
      bytes := ram[frame][off..off + n];
    }

    method Write(page: nat, off: nat, bytes: seq<Byte>)
      requires Valid() && cr3 < NR_TASKS && Coherent(page)
      requires off + |bytes| <= |ram[pagusr_table[cr3][page].frame]|
      modifies this`tlb, ram
      ensures Valid() && MayCache(tlb, old(tlb)) && Coherent(page)
      ensures var f := pagusr_table[cr3][page].frame;
              ram[..] == old(ram[..])[f := old(ram[f])[..off] + bytes + old(ram[f])[off + |bytes|..]]
    {
      var frame := Translate(page);
      ram[frame] := ram[frame][..off] + bytes + ram[frame][off + |bytes|..];
    }

    /** `copy_data(page << 12, dest << 12, PAGE_SIZE)`: words while more than four bytes are left,
        then bytes, every access translated on its own. */
    method CopyPage(page: nat, dest: nat)
      requires Valid() && cr3 < NR_TASKS && Coherent(page) && Coherent(dest)
      requires pagusr_table[cr3][page].frame != pagusr_table[cr3][dest].frame
      requires |ram[pagusr_table[cr3][page].frame]| == |ram[pagusr_table[cr3][dest].frame]| == PAGE_SIZE
      modifies this`tlb, ram
      ensures Valid() && MayCache(tlb, old(tlb))
      ensures ram[..] == old(ram[..])[pagusr_table[cr3][dest].frame := old(ram[pagusr_table[cr3][page].frame])]
    {
      ghost var from, to := pagusr_table[cr3][page].frame, pagusr_table[cr3][dest].frame;
      ghost var source, target := ram[from], ram[to];
      var size := PAGE_SIZE;
      assert source[..0] + target[0..] == target;
      while size > 4
        invariant 4 <= size <= PAGE_SIZE && size % 4 == 0
        invariant Valid() && MayCache(tlb, old(tlb)) && Coherent(page) && Coherent(dest)
        invariant ram[..] == old(ram[..])[to := source[..PAGE_SIZE - size] + target[PAGE_SIZE - size..]]
      {
        var word := Load(page, PAGE_SIZE - size, 4);
        Write(dest, PAGE_SIZE - size, word);
        Spliced(source, target, PAGE_SIZE - size, 4);
        size := size - 4;
      }
      while size > 0
        invariant 0 <= size <= 4
        invariant Valid() && MayCache(tlb, old(tlb)) && Coherent(page) && Coherent(dest)
        invariant ram[..] == old(ram[..])[to := source[..PAGE_SIZE - size] + target[PAGE_SIZE - size..]]
      {
        var byte := Load(page, PAGE_SIZE - size, 1);
        Write(dest, PAGE_SIZE - size, byte);
        Spliced(source, target, PAGE_SIZE - size, 1);
        size := size - 1;
      }
      assert source[..PAGE_SIZE] + target[PAGE_SIZE..] == source;
    }

    /** Cached translations are those of the current table, except for the temporary pages below
        `hi`, whose mappings have been deleted again without a flush. */
    ghost predicate StaleBelow(hi: nat)
      requires Valid() && cr3 < NR_TASKS
      reads this, phys_mem, pagusr_table, ram
    {
      forall p :: p in tlb ==>
        p < TOTAL_PAGES && (Maps(pagusr_table[cr3][p], tlb[p]) || FIRST_TEMP <= p < hi)
    }

    /** The copy loop of `sys_fork`: each child page is mapped for a moment at a temporary page of
        the parent, a different one every time, so that no copy meets a stale translation. */
    method CopyToChild(parent: nat, child: nat, ghost src: seq<nat>, ghost dst: seq<nat>)
      requires Valid() && RamShape(ram[..]) && parent < NR_TASKS && child < NR_TASKS && parent != child && cr3 == parent
      requires |src| == |dst| == NUM_PAG_DATA
      requires forall d :: 0 <= d < NUM_PAG_DATA ==> src[d] < TOTAL_PAGES && dst[d] < TOTAL_PAGES
      requires forall d :: 0 <= d < NUM_PAG_DATA ==> Maps(pagusr_table[parent][PAG_LOG_INIT_DATA + d], src[d])
      requires forall d :: 0 <= d < NUM_PAG_DATA ==> pagusr_table[child][PAG_LOG_INIT_DATA + d].frame == dst[d]
      requires forall d, e :: 0 <= d < NUM_PAG_DATA && 0 <= e < NUM_PAG_DATA ==> src[d] != dst[e]
      requires forall p :: FIRST_TEMP <= p < TOTAL_PAGES ==> pagusr_table[parent][p] == EMPTY_ENTRY
      requires StaleBelow(FIRST_TEMP)
      modifies this`tlb, ram, pagusr_table
      ensures Valid()
      ensures pagusr_table[..] == old(pagusr_table[..])
      ensures ram[..] == Copied(old(ram[..]), src, dst, NUM_PAG_DATA)
    {
      ghost var table := pagusr_table[..];
      var pag := PAG_LOG_INIT_DATA;
      while pag < PAG_LOG_INIT_DATA + NUM_PAG_DATA
        invariant PAG_LOG_INIT_DATA <= pag <= PAG_LOG_INIT_DATA + NUM_PAG_DATA
        invariant Valid() && RamShape(ram[..])
        invariant pagusr_table[..] == table
        invariant ram[..] == Copied(old(ram[..]), src, dst, pag - PAG_LOG_INIT_DATA)
        invariant StaleBelow(pag + NUM_PAG_DATA)
      {
        ghost var d := pag - PAG_LOG_INIT_DATA;
        assert Maps(table[parent][PAG_LOG_INIT_DATA + d], src[d]);
        assert table[child][PAG_LOG_INIT_DATA + d].frame == dst[d];
        var frame := GetFrame(child, pag);
        SetSsPag(parent, pag + NUM_PAG_DATA, frame);
        CopyPage(pag, pag + NUM_PAG_DATA);
        DelSsPag(parent, pag + NUM_PAG_DATA);
        assert pagusr_table[parent] == table[parent];
        pag := pag + 1;
      }
    }

    /** The memory work of `sys_fork` between the allocation of the child's page directory and the
        TLB flush. It asks nothing of how many frames are free. */
    method ForkMemory(parent: nat, child: nat) returns (ok: bool)
      requires Valid() && ForkReady(M(), parent, child)
      modifies this, phys_mem, pagusr_table, ram
      ensures Valid()
      ensures (M(), ok) == ForkMem(old(M()), parent, child)
    {
      ghost var m := M();
      ok := AllocateData(child);
      if !ok {
        return;
      }
      ghost var fs := AllocMany(m.phys, NUM_PAG_DATA).1;
      ghost var src := Frames(m.pt[parent], PAG_LOG_INIT_DATA, NUM_PAG_DATA);
      ShareRange(child, parent, 0, NUM_PAG_KERNEL);
      ShareRange(child, parent, PAG_LOG_INIT_CODE, NUM_PAG_CODE);
      ghost var pt := m.pt[child := ChildRow(m.pt[child], m.pt[parent], fs)];
      assert pagusr_table[..] == pt;
      ForkFramesApart(m, parent, child);
      CopyToChild(parent, child, src, fs);
      SetCr3(parent);
      assert ClearRange(pt[parent], FIRST_TEMP, NUM_PAG_DATA) == pt[parent];
      assert pt[parent := pt[parent]] == pt;
    }
  }

  // ---------------------------------------------------------------- one more step of a loop

  lemma MapOneMore(row: Row, base: nat, fs: seq<nat>, frame: nat, rw: bool)
    requires base + |fs| < |row|
    ensures MapRange(row, base, fs, rw)[base + |fs| := UserPage(frame, rw)] == MapRange(row, base, fs + [frame], rw)
  {
  }

  /** The first of the parent's pages at which fork maps the child's. */
  const FIRST_TEMP := PAG_LOG_INIT_DATA + NUM_PAG_DATA

  /** The frames fork allocates are free before, so none is a frame of the parent. */
  lemma ForkFramesApart(m: Mem, parent: nat, child: nat)
    requires ForkReady(m, parent, child)
    ensures var fs, src := AllocMany(m.phys, NUM_PAG_DATA).1, Frames(m.pt[parent], PAG_LOG_INIT_DATA, NUM_PAG_DATA);
            && (forall d :: 0 <= d < NUM_PAG_DATA ==> src[d] < TOTAL_PAGES)
            && (forall e :: 0 <= e < |fs| ==> fs[e] < TOTAL_PAGES)
            && (forall d, e :: 0 <= d < NUM_PAG_DATA && 0 <= e < |fs| ==> src[d] != fs[e])
    ensures var src := Frames(m.pt[parent], PAG_LOG_INIT_DATA, NUM_PAG_DATA);
            forall d :: 0 <= d < NUM_PAG_DATA ==> Maps(m.pt[parent][PAG_LOG_INIT_DATA + d], src[d])
  {
    AllocManyFrames(m.phys, NUM_PAG_DATA);
    var fs, src := AllocMany(m.phys, NUM_PAG_DATA).1, Frames(m.pt[parent], PAG_LOG_INIT_DATA, NUM_PAG_DATA);
    forall d | 0 <= d < NUM_PAG_DATA
      ensures src[d] == DataFrame(m, parent, d) && m.phys[src[d]] && Maps(DataEntry(m, parent, d), src[d])
    {
      assert DataEntry(m, parent, d).present;
    }
    forall e | 0 <= e < |fs|
      ensures Usable(fs[e]) && !m.phys[fs[e]]
    {
      assert fs[e] in fs;
    }
  }

  /** A copied prefix grows by the bytes copied next. */
  lemma Spliced(source: seq<Byte>, target: seq<Byte>, k: nat, n: nat)
    requires |source| == |target| && k + n <= |source|
    ensures var now := source[..k] + target[k..];
            now[..k] + source[k..k + n] + now[k + n..] == source[..k + n] + target[k + n..]
  {
  }

  lemma MapNothing(row: Row, base: nat, rw: bool)
    ensures MapRange(row, base, [], rw) == row
  {
  }

  lemma ClearNothing(row: Row, base: nat)
    ensures ClearRange(row, base, 0) == row
  {
  }

  lemma ClearOneMore(row: Row, base: nat, n: nat)
    requires base + n < |row|
    ensures ClearRange(row, base, n)[base + n := EMPTY_ENTRY] == ClearRange(row, base, n + 1)
  {
  }

  lemma FreeNothing(phys: seq<bool>)
    ensures FreeMany(phys, []) == phys
  {
  }

  lemma FreeOneMore(phys: seq<bool>, fs: seq<nat>, i: nat)
    requires i < |fs|
    ensures FreeMany(FreeMany(phys, fs[..i]), [fs[i]]) == FreeMany(phys, fs[..i + 1])
  {
    assert fs[..i + 1] == fs[..i] + [fs[i]];
  }

  lemma BootFramesMore(first: nat, n: nat)
    ensures BootFrames(first, n + 1) == BootFrames(first, n) + [NUM_PAG_KERNEL + 2 * (first + n)]
  {
  }

  lemma BootOneMore(n: nat)
    requires n < NUM_PAG_CODE + NUM_PAG_DATA
    ensures BootPhys(n)[NUM_PAG_KERNEL + 2 * n := true] == BootPhys(n + 1)
  {
  }

  /** From the bytemap of `init_frames`, allocation hands out 256, 258, 260 and so on. */
  lemma {:induction false} BootAlloc(first: nat, n: nat)
    requires first + n <= NUM_PAG_CODE + NUM_PAG_DATA
    ensures AllocMany(BootPhys(first), n) == (BootPhys(first + n), BootFrames(first, n))
    decreases n
  {
    if n > 0 {
      BootAlloc(first, n - 1);
      AllocOneMore(BootPhys(first), n - 1);
      BootFirstFree(first + n - 1);
      BootFramesMore(first, n - 1);
      BootOneMore(first + n - 1);
    } else {
      assert BootFrames(first, 0) == [];
    }
  }

  lemma BootFirstFree(n: nat)
    requires n < NUM_PAG_CODE + NUM_PAG_DATA
    ensures FirstFree(BootPhys(n), NUM_PAG_KERNEL) == NUM_PAG_KERNEL + 2 * n
  {
    assert Usable(NUM_PAG_KERNEL + 2 * n);
  }
}
