/**
 The track-reading loop of the boot sector (bootsect.S, `read_it` and `read_track`) on 16-bit
 registers and real-mode memory, and the size field that build.c writes for it.
 */
module BootLoader {
  import opened Arithmetic
  import opened KernelTypes

  const SYSSEG := 0x1000
  const INITSEG := 0x9000
  const SECTOR := 512
  const SEGMENT_SECTORS := 128       // sectors in 64 KB

  type Reg = r: int | 0 <= r < 0x1_0000

  function Add16(a: Reg, b: Reg): Reg {
    (a + b) % 0x1_0000
  }

  function Sub16(a: Reg, b: Reg): Reg {
    (a - b) % 0x1_0000
  }

  /** `shl r,#9`. */
  function Shl9(a: Reg): Reg {
    (a * SECTOR) % 0x1_0000
  }

  // ---------------------------------------------------------------- the plan of reads

  /** One call of the BIOS disk service: cylinder, head, first sector (from 1), number of sectors,
      and the destination es:bx. */
  datatype Read = Read(cylinder: nat, head: nat, sector: nat, count: nat, es: nat, bx: nat)

  /** The first linear sector of a read, on a disk with `spt` sectors on each track. */
  function Linear(spt: nat, r: Read): int {
    (2 * r.cylinder + r.head) * spt + r.sector - 1
  }

  function Physical(r: Read): nat {
    r.es * 16 + r.bx
  }

  /** The most that can be read from linear sector `lin` on: to the end of its track, or of the 64
      KB segment it goes to, whichever comes first. */
  function Largest(spt: nat, lin: nat): (n: nat)
    requires spt > 0 && lin > 0
    ensures n > 0 && n <= spt && n <= SEGMENT_SECTORS
  {
    Min(spt - lin % spt, SEGMENT_SECTORS - (lin - 1) % SEGMENT_SECTORS)
  }

  function ReadAt(spt: nat, lin: nat): Read
    requires spt > 0 && lin > 0
  {
    Read(lin / spt / 2, lin / spt % 2, lin % spt + 1, Largest(spt, lin),
         SYSSEG + 0x1000 * ((lin - 1) / SEGMENT_SECTORS), (lin - 1) % SEGMENT_SECTORS * SECTOR)
  }

  /** The reads that load the linear sectors from `lin` up to `end`. */
  function Plan(spt: nat, lin: nat, end: nat): seq<Read>
    requires spt > 0 && lin > 0
    decreases end - lin
  {
    if lin >= end then [] else [ReadAt(spt, lin)] + Plan(spt, lin + Largest(spt, lin), end)
  }

  /** A read the BIOS and the DMA controller can do: it stays on its track, and inside a 64 KB block
      of memory. */
  predicate Doable(spt: nat, r: Read) {
    && r.sector >= 1 && r.count >= 1 && r.head < 2
    && r.sector - 1 + r.count <= spt
    && Physical(r) % 0x1_0000 + SECTOR * r.count <= 0x1_0000
  }

  /** The address map: a read of linear sector L goes to 0x10000 + (L - 1) * 512, and crosses neither
      the end of its track nor a 64 KB boundary. */
  lemma ReadAtIsRight(spt: nat, lin: nat)
    requires spt > 0 && lin > 0
    ensures Linear(spt, ReadAt(spt, lin)) == lin
    ensures Physical(ReadAt(spt, lin)) == 0x1_0000 + (lin - 1) * SECTOR
    ensures Doable(spt, ReadAt(spt, lin))
  {
    TrackSplit(spt, lin);
    BlockOffset(lin - 1);
  }

  lemma TrackSplit(spt: nat, lin: nat)
    requires spt > 0
    ensures (2 * (lin / spt / 2) + lin / spt % 2) * spt + lin % spt == lin
  {
    var h := lin / spt;
    assert 2 * (h / 2) + h % 2 == h;
    assert lin == h * spt + lin % spt;
  }

  lemma BlockOffset(n: nat)
    ensures (SYSSEG + 0x1000 * (n / SEGMENT_SECTORS)) * 16 + n % SEGMENT_SECTORS * SECTOR == 0x1_0000 + n * SECTOR
    ensures (0x1_0000 + n * SECTOR) % 0x1_0000 == n % SEGMENT_SECTORS * SECTOR
  {
  }

  /** What a plan of reads touches: consecutive linear sectors from `lin` on, each once, in order. */
  predicate Consecutive(spt: nat, rs: seq<Read>, lin: nat, end: nat) {
    if rs == [] then lin == end
    else Linear(spt, rs[0]) == lin && Consecutive(spt, rs[1..], lin + rs[0].count, end)
  }

  /** A plan that ends on a 64 KB boundary reads every sector up to there once, in increasing order,
      puts each where the address map says, and never crosses a track end or a 64 KB boundary. */
  lemma {:induction false} PlanIsRight(spt: nat, lin: nat, end: nat)
    requires spt > 0 && 0 < lin <= end && (end - 1) % SEGMENT_SECTORS == 0
    ensures Consecutive(spt, Plan(spt, lin, end), lin, end)
    ensures forall r :: r in Plan(spt, lin, end) ==>
        Doable(spt, r) && Physical(r) == 0x1_0000 + (Linear(spt, r) - 1) * SECTOR
    decreases end - lin
  {
    if lin < end {
      ReadAtIsRight(spt, lin);
      SegmentEnd(lin, end);
      PlanIsRight(spt, lin + Largest(spt, lin), end);
    }
  }

  /** A block boundary ahead is not jumped over. */
  lemma SegmentEnd(lin: nat, end: nat)
    requires 0 < lin < end && (end - 1) % SEGMENT_SECTORS == 0
    ensures lin + SEGMENT_SECTORS - (lin - 1) % SEGMENT_SECTORS <= end
  {
  }

  // ---------------------------------------------------------------- the loop

  /** 64 KB blocks that a size field of `syssize` paragraphs asks for. */
  function Blocks(syssize: nat): nat {
    syssize / 0x1000 + 1
  }

  /** The linear sector at which the loader is done, or has come to the boot sector in memory. */
  function LoadEnd(syssize: nat): nat {
    1 + SEGMENT_SECTORS * Min(Blocks(syssize), 8)
  }

  /** Memory with `n` bytes of the disk, from byte `from` on, put at address `to`. */
  ghost function Overlaid(mem: seq<Byte>, to: nat, disk: seq<Byte>, from: nat, n: nat): (r: seq<Byte>)
    requires to + n <= |mem| && from + n <= |disk|
    ensures |r| == |mem|
  {
    seq(|mem|, i requires 0 <= i < |mem| => if to <= i < to + n then disk[from + (i - to)] else mem[i])
  }

  /** Real-mode memory `before` once the linear sectors 1 up to `lin` of `disk` are at 0x10000. */
  ghost function Loaded(disk: seq<Byte>, before: seq<Byte>, lin: nat): (r: seq<Byte>)
    requires |before| == 0x10_0000 && 0 < lin <= 1 + 8 * SEGMENT_SECTORS && lin * SECTOR <= |disk|
    ensures |r| == |before|
  {
    Overlaid(before, 0x1_0000, disk, SECTOR, (lin - 1) * SECTOR)
  }

  lemma LoadedMore(disk: seq<Byte>, before: seq<Byte>, lin: nat, n: nat)
    requires |before| == 0x10_0000 && 0 < lin && lin + n <= 1 + 8 * SEGMENT_SECTORS && (lin + n) * SECTOR <= |disk|
    ensures var m, to := Loaded(disk, before, lin), 0x1_0000 + (lin - 1) * SECTOR;
            Overlaid(m, to, disk, lin * SECTOR, n * SECTOR) == Loaded(disk, before, lin + n)
  {
  }

  class RealMode {
    const sectors: Reg
    const syssize: Reg
    const disk: seq<Byte>
    const ram: array<Byte>
    var sread: Reg
    var head: Reg
    var track: Reg
    ghost var log: seq<Read>       // the BIOS calls so far

    constructor (sectors: Reg, syssize: Reg, disk: seq<Byte>)
      ensures this.sectors == sectors && this.syssize == syssize && this.disk == disk
      ensures fresh(ram) && ram.Length == 0x10_0000
      ensures sread == 0 && head == 0 && track == 0 && log == []
    {
      log := [];
      this.sectors, this.syssize, this.disk := sectors, syssize, disk;
      ram := new Byte[0x10_0000];
      sread, head, track := 0, 0, 0;
    }

    /** The BIOS disk service on a read it can do: it puts the sectors from linear sector `lin` on at
        es:bx. */
    method Bios(r: Read, ghost lin: nat)
      requires Doable(sectors, r) && r.cylinder < 0x100 && lin == Linear(sectors, r)
      requires (lin + r.count) * SECTOR <= |disk| && Physical(r) + r.count * SECTOR <= ram.Length
      modifies this`log, ram
      ensures ram[..] == Overlaid(old(ram[..]), Physical(r), disk, lin * SECTOR, r.count * SECTOR)
      ensures log == old(log) + [r]
    {
      log := log + [r];
      var from, to, n := Linear(sectors, r) * SECTOR, Physical(r), r.count * SECTOR;
      CopySectors(from, to, n);
    }

    method CopySectors(from: nat, to: nat, n: nat)
      requires from + n <= |disk| && to + n <= ram.Length
      modifies ram
      ensures ram[..] == Overlaid(old(ram[..]), to, disk, from, n)
    {
      for i := 0 to n
        invariant forall j :: 0 <= j < ram.Length ==>
            ram[j] == if to <= j < to + i then disk[from + (j - to)] else old(ram[j])
      {
        ram[to + i] := disk[from + i];
      }
    }

    /** `read_track`: builds the arguments of the BIOS call in cx, dx and ax. */
    method ReadTrack(ax: Reg, es: Reg, bx: Reg, ghost lin: nat)
      requires sectors <= 63 && sread < sectors && head < 2 && track < 0x100 && ax < 0x100
      requires var r := Read(track, head, sread + 1, ax, es, bx); Doable(sectors, r) && lin == Linear(sectors, r)
      requires (lin + ax) * SECTOR <= |disk| && es * 16 + bx + ax * SECTOR <= ram.Length
      modifies this`log, ram
      ensures ram[..] == Overlaid(old(ram[..]), es * 16 + bx, disk, lin * SECTOR, ax * SECTOR)
      ensures log == old(log) + [Read(track, head, sread + 1, ax, es, bx)]
    {
      var dx := track;
      var cx := sread;
      cx := Add16(cx, 1);
      cx := WithHigh(cx, dx % 0x100);            // mov ch,dl
      dx := head;
      dx := WithHigh(dx, dx % 0x100);            // mov dh,dl
      dx := dx / 0x100 % 2 * 0x100;              // and dx,#0x0100
      var r := BiosArguments(cx, dx, ax, es, bx);
      ArgumentsDecode(track, head, sread, ax, es, bx);
      Bios(r, lin);
    }

    /** The choice of how many sectors to read: the rest of the track, or, when that would carry out
        of bx without landing exactly on zero, the rest of the 64 KB block. */
    method SectorsToRead(bx: Reg, ghost o: nat) returns (ax: Reg)
      requires sread < sectors <= 63 && bx == o * SECTOR && o < SEGMENT_SECTORS
      ensures ax == Min(sectors - sread, SEGMENT_SECTORS - o)
    {
      ax := Sub16(sectors, sread);
      AddSectors(ax, o);
      var cx := ax;
      cx := Shl9(cx);
      var carry := cx + bx >= 0x1_0000;
      cx := Add16(cx, bx);
      if carry && cx != 0 {
        ax := 0;
        ax := Sub16(ax, bx);
        ax := ax / SECTOR;
      }
    }

    /** What follows a read of `n` sectors on the disk: the next head, or the next track, when the
        track is used up. */
    method AdvanceDisk(n: Reg)
      requires sectors <= 63 && head < 2 && track < 0x100 && sread + n <= sectors
      modifies this`sread, this`head, this`track
      ensures if old(sread) + n == sectors
              then sread == 0 && head < 2 && 2 * track + head == 2 * old(track) + old(head) + 1
              else sread == old(sread) + n && head == old(head) && track == old(track)
    {
      var ax := Add16(n, sread);
      if ax == sectors {
        ax := 1;
        ax := Sub16(ax, head);
        if ax == 0 {
          track := Add16(track, 1);
        }
        head := ax;
        ax := 0;
      }
      sread := ax;
    }

    /** And in memory: the next 64 KB block when bx wraps to zero. */
    method AdvanceMemory(n: Reg, es: Reg, bx: Reg, ghost o: nat) returns (es': Reg, bx': Reg)
      requires bx == o * SECTOR && 0 < n <= 63 && o + n <= SEGMENT_SECTORS && es < 0xf000
      ensures if o + n == SEGMENT_SECTORS then es' == es + 0x1000 && bx' == 0 else es' == es && bx' == (o + n) * SECTOR
    {
      es', bx' := es, bx;
      var cx := Shl9(n);
      var carry := bx' + cx >= 0x1_0000;
      bx' := Add16(bx', cx);
      if carry {
        var ax := es';
        AddHigh(ax);
        ax := WithHigh(ax, (ax / 0x100 + 0x10) % 0x100);   // add ah,#0x10
        es' := ax;
        bx' := 0;
      }
    }

    /** The loop variables describe linear sector `lin`: its place on the disk, `h` tracks of either
        head in, and the address es:bx it goes to, `seg` 64 KB blocks and `o` sectors in. */
    ghost predicate At(lin: nat, h: nat, seg: nat, o: nat, es: Reg, bx: Reg)
      reads this
    {
      && lin == Rows(h, sectors) + sread && sread < sectors && h == 2 * track + head && head < 2
      && lin == 1 + SEGMENT_SECTORS * seg + o && o < SEGMENT_SECTORS
      && es == SYSSEG + 0x1000 * seg && bx == o * SECTOR
    }

    /** The read the loop makes at `lin` is the planned one. */
    lemma AtPlan(lin: nat, h: nat, seg: nat, o: nat, es: Reg, bx: Reg)
      requires At(lin, h, seg, o, es, bx) && lin < 0x200 * sectors
      ensures ReadAt(sectors, lin) == Read(track, head, sread + 1, Min(sectors - sread, SEGMENT_SECTORS - o), es, bx)
      ensures h < 0x200
    {
      PositionOf(sectors, lin, h, sread);
      assert (lin - 1) / SEGMENT_SECTORS == seg && (lin - 1) % SEGMENT_SECTORS == o;
      assert h / 2 == track && h % 2 == head;
    }

    /** The body of the loop of `read_it`: one read, and the step to the next position. */
    method ReadNext(es: Reg, bx: Reg, ghost lin: nat, ghost h: nat, ghost seg: nat, ghost o: nat,
                    ghost before: seq<Byte>)
      returns (es': Reg, bx': Reg, ghost n: nat, ghost h': nat, ghost seg': nat, ghost o': nat)
      requires sectors <= 63 && At(lin, h, seg, o, es, bx) && seg < 8 && lin < 0x200 * sectors
      requires |before| == ram.Length == 0x10_0000 && (lin - o + SEGMENT_SECTORS) * SECTOR <= |disk|
      requires ram[..] == Loaded(disk, before, lin)
      modifies this, ram
      ensures log == old(log) + [ReadAt(sectors, lin)]
      ensures n == ReadAt(sectors, lin).count && 0 < n && o + n <= SEGMENT_SECTORS
      ensures At(lin + n, h', seg', o', es', bx')
      ensures ram[..] == Loaded(disk, before, lin + n)
    {
      AtPlan(lin, h, seg, o, es, bx);
      ReadAtIsRight(sectors, lin);
      var ax := SectorsToRead(bx, o);
      n := ax;
      ReadTrack(ax, es, bx, lin);
      LoadedMore(disk, before, lin, ax);
      h' := if sread + ax == sectors then h + 1 else h;
      AdvanceDisk(ax);
      es', bx' := AdvanceMemory(ax, es, bx, o);
      seg', o' := if o + ax == SEGMENT_SECTORS then seg + 1 else seg, if o + ax == SEGMENT_SECTORS then 0 else o + ax;
    }

    /** `read_it`, entered with es = SYSSEG: loads whole 64 KB blocks while its test passes. At
        INITSEG:0 the next read would overwrite this very loop, so the method stops there as well; it
        gets there with the test still passing exactly when the size field is 0x8000 or more. The
        disk has two heads and at most 256 cylinders, and at least the sectors that are read. */
    method ReadIt() returns (es: Reg, bx: Reg)
      requires 2 <= sectors <= 63
      requires sread == 0 && head == 0 && track == 0 && log == [] && ram.Length == 0x10_0000
      requires LoadEnd(syssize) * SECTOR <= |disk| && LoadEnd(syssize) <= 0x200 * sectors
      modifies this, ram
      ensures log == Plan(sectors, 1, LoadEnd(syssize))
      ensures ram[..] == Loaded(disk, old(ram[..]), LoadEnd(syssize))
      ensures es * 16 + bx == 0x1_0000 + (LoadEnd(syssize) - 1) * SECTOR
      ensures Sub16(es, SYSSEG) <= syssize <==> syssize >= 0x8000
      ensures syssize >= 0x8000 ==> es * 16 + bx == INITSEG * 16
    {
      sread := WithLow(sread, 0 + 1);            // setup_sects is 0
      es := SYSSEG;
      bx := 0;
      ghost var end := LoadEnd(syssize);
      ghost var lin, h, seg, o := 1, 0, 0, 0;
      while Sub16(es, SYSSEG) <= syssize && es != INITSEG
        invariant At(lin, h, seg, o, es, bx) && lin <= end
        invariant log + Plan(sectors, lin, end) == Plan(sectors, 1, end)
        invariant ram[..] == Loaded(disk, old(ram[..]), lin)
        decreases end - lin
      {
        LoopTest(lin, seg, o, es, syssize);
        PlanStep(sectors, lin, end, log);
        ghost var n;
        es, bx, n, h, seg, o := ReadNext(es, bx, lin, h, seg, o, old(ram[..]));
        lin := lin + n;
      }
      LoopTest(lin, seg, o, es, syssize);
    }
  }

  lemma PlanStep(spt: nat, lin: nat, end: nat, done: seq<Read>)
    requires 0 < lin < end && spt > 0
    ensures done + Plan(spt, lin, end) == done + [ReadAt(spt, lin)] + Plan(spt, lin + ReadAt(spt, lin).count, end)
  {
    var rest := Plan(spt, lin + Largest(spt, lin), end);
    assert done + ([ReadAt(spt, lin)] + rest) == done + [ReadAt(spt, lin)] + rest;
  }

  /** The loop test asks, at each of the sixteen values es can have at a block boundary, whether the
      size field wants the block. */
  lemma BlockTest(seg: nat, es: Reg, syssize: Reg)
    requires seg < 16 && es == (SYSSEG + 0x1000 * seg) % 0x1_0000
    ensures Sub16(es, SYSSEG) == 0x1000 * seg
    ensures Sub16(es, SYSSEG) <= syssize <==> seg < Blocks(syssize)
  {
  }

  /** While the loop goes on the current block is wanted; when it stops the last one is full. */
  lemma LoopTest(lin: nat, seg: nat, o: nat, es: Reg, syssize: Reg)
    requires lin == 1 + SEGMENT_SECTORS * seg + o && o < SEGMENT_SECTORS && es == SYSSEG + 0x1000 * seg
    requires lin <= LoadEnd(syssize)
    ensures Sub16(es, SYSSEG) <= syssize && es != INITSEG ==> seg < 8 && lin - o + SEGMENT_SECTORS <= LoadEnd(syssize)
    ensures Sub16(es, SYSSEG) > syssize || es == INITSEG ==>
              lin == LoadEnd(syssize) && (Sub16(es, SYSSEG) <= syssize <==> syssize >= 0x8000) &&
                  (syssize >= 0x8000 ==> seg == 8)
  {
    BlockTest(seg, es, syssize);
  }

  /** es wraps around after sixteen blocks, so a size field from 0xf000 on passes the test at every
      block, and only such a field does. */
  lemma TestNeverFails(syssize: Reg)
    ensures (forall seg: nat :: Sub16(BlockSegment(seg), SYSSEG) <= syssize) <==> syssize >= 0xf000
  {
    BlockTest(15, BlockSegment(15), syssize);
    forall seg: nat
      ensures Sub16(BlockSegment(seg), SYSSEG) <= 0xf000
    {
      BlockTest(seg % 16, BlockSegment(seg), syssize);
    }
  }

  /** es after `seg` blocks, in 16 bits. */
  function BlockSegment(seg: nat): Reg {
    (SYSSEG + 0x1000 * seg) % 0x1_0000
  }

  function Min(a: nat, b: nat): nat {
    if a <= b then a else b
  }

  /** The sectors on `h` tracks. */
  function Rows(h: nat, spt: nat): nat {
    if h == 0 then 0 else Rows(h - 1, spt) + spt
  }

  lemma {:induction false} RowsIsProduct(h: nat, spt: nat)
    ensures Rows(h, spt) == h * spt
  {
    if h > 0 {
      RowsIsProduct(h - 1, spt);
    }
  }

  lemma PositionOf(spt: nat, lin: nat, h: nat, r: nat)
    requires lin == Rows(h, spt) + r && r < spt && lin < 0x200 * spt
    ensures lin / spt == h && lin % spt == r && h < 0x200
  {
    RowsIsProduct(h, spt);
    DivUnique(lin, spt, h, r);
    if h >= 0x200 {
      MulMonotone(0x200, h, spt);
    }
  }

  /** Adding two sector counts as byte offsets in 16 bits. */
  lemma AddSectors(k: nat, o: nat)
    requires k <= 63 && o < SEGMENT_SECTORS
    ensures Shl9(k) == k * SECTOR
    ensures Add16(k * SECTOR, o * SECTOR) ==
        (if k + o < SEGMENT_SECTORS then k + o else k + o - SEGMENT_SECTORS) * SECTOR
    ensures o > 0 ==> Sub16(0, o * SECTOR) / SECTOR == SEGMENT_SECTORS - o
  {
    if o > 0 {
      assert Sub16(0, o * SECTOR) == (SEGMENT_SECTORS - o) * SECTOR;
    }
  }

  function WithLow(r: Reg, low: Reg): Reg
    requires low < 0x100
  {
    r / 0x100 * 0x100 + low
  }

  /** What the BIOS makes of its registers: cylinder in ch and the top of cl, sector in the rest of
      cl, head in dh, and the number of sectors in al. */
  function BiosArguments(cx: Reg, dx: Reg, ax: Reg, es: Reg, bx: Reg): Read {
    Read(cx / 0x100 + cx % 0x100 / 0x40 * 0x100, dx / 0x100, cx % 0x40, ax % 0x100, es, bx)
  }

  /** The register shuffling of `read_track` loses nothing for cylinders below 256, two heads, and at
      most 63 sectors on a track. */
  lemma ArgumentsDecode(track: Reg, head: Reg, sread: Reg, ax: Reg, es: Reg, bx: Reg)
    requires track < 0x100 && head < 2 && sread < 0x3f && ax < 0x100
    ensures var cx, dx := WithHigh(Add16(sread, 1), track % 0x100), WithHigh(head, head % 0x100) / 0x100 % 2 * 0x100;
            BiosArguments(cx, dx, ax, es, bx) == Read(track, head, sread + 1, ax, es, bx)
  {
    SmallMod(track);
    SmallMod(head);
    SmallMod(ax);
    var sector, t, d := Add16(sread, 1), track % 0x100, head % 0x100;
    assert sector == sread + 1 && t == track && d == head;
    SectorRegister(sector, t);
    HeadRegister(head, d);
  }

  lemma SectorRegister(sector: Reg, track: Reg)
    requires sector < 0x40 && track < 0x100
    ensures var cx := WithHigh(sector, track);
            cx / 0x100 + cx % 0x100 / 0x40 * 0x100 == track && cx % 0x40 == sector
  {
    WithHighParts(sector, track);
  }

  lemma HeadRegister(head: Reg, d: Reg)
    requires head < 2 && d == head
    ensures WithHigh(head, d) / 0x100 % 2 * 0x100 / 0x100 == head
  {
    WithHighParts(head, d);
  }

  lemma SmallMod(r: Reg)
    requires r < 0x100
    ensures r % 0x100 == r && r % 2 * 0x100 / 0x100 == r % 2
  {
  }

  /** `add ah,#0x10` moves on by one 64 KB block. */
  lemma AddHigh(es: Reg)
    requires es < 0xf000
    ensures WithHigh(es, (es / 0x100 + 0x10) % 0x100) == es + 0x1000
  {
    assert es == es / 0x100 * 0x100 + es % 0x100;
  }

  /** A register with its high byte replaced. */
  function WithHigh(r: Reg, high: Reg): Reg
    requires high < 0x100
  {
    high * 0x100 + r % 0x100
  }

  lemma WithHighParts(r: Reg, high: Reg)
    requires high < 0x100 && r < 0x40
    ensures WithHigh(r, high) == high * 0x100 + r
    ensures WithHigh(r, high) / 0x100 == high && WithHigh(r, high) % 0x100 == r && WithHigh(r, high) % 0x40 == r
  {
  }
}
