/** The size fields build.c writes into the disk image, and what the boot sector makes of them. */
module ImageBuilder {
  import opened BootLoader
  import opened KernelTypes

  /** `im_size`, in paragraphs of 16 bytes, computed in 32-bit unsigned arithmetic. */
  function ImSize(sys: Word, usr: Word): Word {
    Add32(Add32(sys, usr), 15) / 16
  }

  /** Byte `k` of a number in little-endian order. */
  function ByteOf(n: nat, k: nat): Byte {
    (if k == 0 then n % 0x100 else if k == 1 then n / 0x100 % 0x100 else n / 0x1_0000 % 0x100) as Byte
  }

  /** The 16-bit word the boot sector reads at byte `at` of the image. */
  function WordAt(image: seq<Byte>, at: nat): Reg
    requires at + 1 < |image|
  {
    image[at] as int + 0x100 * image[at + 1] as int
  }

  function DWordAt(image: seq<Byte>, at: nat): nat
    requires at + 3 < |image|
  {
    WordAt(image, at) + 0x1_0000 * WordAt(image, at + 2)
  }

  const SYSSIZE_FIELD := 500
  const SYS_SIZE_FIELD := 512
  const USR_SIZE_FIELD := 516
  const LAST_FIELD := 520

  lemma BytesOfWord(n: nat)
    ensures ByteOf(n, 0) as int + 0x100 * ByteOf(n, 1) as int == n % 0x1_0000
  {
  }

  lemma BytesOfDWord(n: nat)
    ensures ByteOf(n, 0) as int + 0x100 * ByteOf(n, 1) as int + 0x1_0000 * ByteOf(n, 2) as int == n % 0x100_0000
  {
    BytesOfWord(n);
  }

  /** `lseek` and `write` of the first bytes of the buffer. */
  method WriteAt(image: array<Byte>, at: nat, buf: seq<Byte>)
    requires at + |buf| <= image.Length
    modifies image
    ensures image[..] == old(image[..])[..at] + buf + old(image[..])[at + |buf|..]
  {
    for i := 0 to |buf|
      invariant forall j :: 0 <= j < image.Length ==>
          image[j] == if at <= j < at + i then buf[j - at] else old(image[j])
    {
      image[at + i] := buf[i];
    }
  }

  /** A four-byte field whose top byte is always written as zero. */
  method WriteField(image: array<Byte>, at: nat, n: nat)
    requires at + 4 <= image.Length
    modifies image
    ensures DWordAt(image[..], at) == n % 0x100_0000
    ensures forall i :: 0 <= i < image.Length && !(at <= i < at + 4) ==> image[i] == old(image[i])
  {
    WriteAt(image, at, [ByteOf(n, 0), ByteOf(n, 1), ByteOf(n, 2), 0]);
    assert image[at] == ByteOf(n, 0) && image[at + 1] == ByteOf(n, 1) && image[at + 2] == ByteOf(n, 2) &&
        image[at + 3] == 0;
    BytesOfDWord(n);
  }

  /** The last part of build.c's `main`: the size fields of an image already written. */
  method WriteSizes(image: array<Byte>, sys: Word, usr: Word)
    requires image.Length >= 524
    modifies image
    ensures WordAt(image[..], SYSSIZE_FIELD) == ImSize(sys, usr) % 0x1_0000
    ensures DWordAt(image[..], SYS_SIZE_FIELD) == sys % 0x100_0000
    ensures DWordAt(image[..], USR_SIZE_FIELD) == usr % 0x100_0000
    ensures DWordAt(image[..], LAST_FIELD) == 0x7E1A
    ensures forall i :: 0 <= i < image.Length && i != 500 && i != 501 && !(512 <= i < 524) ==> image[i] == old(image[i])
  {
    var im_size := ImSize(sys, usr);
    WriteAt(image, SYSSIZE_FIELD, [ByteOf(im_size, 0), ByteOf(im_size, 1)]);
    assert image[500] == ByteOf(im_size, 0) && image[501] == ByteOf(im_size, 1);
    BytesOfWord(im_size);
    WriteField(image, SYS_SIZE_FIELD, sys);
    WriteField(image, USR_SIZE_FIELD, usr);
    WriteField(image, LAST_FIELD, 0x7E1A);
  }

  /** `im_size` is the number of paragraphs, rounded up, exactly for images whose size does not wrap in
      32 bits. */
  lemma ImSizeRoundsUp(sys: Word, usr: Word)
    ensures ImSize(sys, usr) == (sys + usr + 15) % 0x1_0000_0000 / 16
    ensures ImSize(sys, usr) == (sys + usr + 15) / 16 <==> sys + usr + 15 < WORD_MOD
    ensures sys + usr <= 16 * ImSize(sys, usr) < sys + usr + 16 <==> sys + usr + 15 < WORD_MOD
  {
    SumWraps(sys, usr);
  }

  lemma SumWraps(sys: Word, usr: Word)
    ensures Add32(Add32(sys, usr), 15) == (sys + usr + 15) % WORD_MOD
  {
  }

  /** Coverage and safety: the loader stops before 0x90000, where the boot sector is running, and
      with every byte of the system and user images loaded, exactly for images of at most 0x7fff0
      bytes, that is of fewer than 0x8000 paragraphs. */
  lemma LoaderCoversImage(sys: Word, usr: Word)
    ensures var field := ImSize(sys, usr) % 0x1_0000;
            field < 0x8000 && sys + usr <= LoadedSize(field) <==> sys + usr <= 0x7_fff0
    ensures sys + usr + 15 < WORD_MOD ==> (sys + usr <= 0x7_fff0 <==> ImSize(sys, usr) < 0x8000)
  {
  }

  /** The smallest image that cannot be loaded, on an 18-sector disk: after eight blocks the test of
      `read_it` still passes, and its next read goes to where the boot sector is. */
  lemma SmallestUnloadable()
    ensures ImSize(0x7_fff1, 0) == 0x8000 && Sub16(INITSEG, SYSSEG) <= ImSize(0x7_fff1, 0)
    ensures LoadEnd(0x8000) == 1025 && ReadAt(18, 1025).es == INITSEG && Physical(ReadAt(18, 1025)) == INITSEG * 16
  {
    hide Largest;
    assert 1024 / SEGMENT_SECTORS == 8 && 1024 % SEGMENT_SECTORS == 0;
  }

  /** The bytes the loader has read when it stops or has come to the boot sector in memory. */
  function LoadedSize(syssize: nat): nat {
    (LoadEnd(syssize) - 1) * SECTOR
  }

  /** From 0x10000 paragraphs on the field wraps around: the bytes of the image from `LoadedSize` on are
      not loaded, and there always are some, whether or not the size wraps in 32 bits as well. */
  lemma WrappedFieldLosesTail(sys: Word, usr: Word)
    requires (sys + usr + 15) / 16 >= 0x1_0000
    ensures var field := ImSize(sys, usr) % 0x1_0000;
            && field == (sys + usr + 15) / 16 % 0x1_0000
            && sys + usr - LoadedSize(field) >= (sys + usr + 15) / 0x10_0000 * 0x10_0000 - 0x1_000f
  {
    hide LoadedSize;
    SumWraps(sys, usr);
    FieldDigits(sys + usr + 15);
    SizeFromDigits(sys + usr + 15);
    LoadedSizeBound(ImSize(sys, usr) % 0x1_0000);
  }

  /** The two bytes of the field are four hexadecimal digits of the size, and the wrapping of sums at
      2^32 does not touch them. */
  lemma {:induction false} FieldDigits(size: nat)
    ensures size % WORD_MOD / 16 % 0x1_0000 == size / 16 % 0x1_0000
    decreases size
  {
    if size >= WORD_MOD {
      FieldDigits(size - WORD_MOD);
      WrapKeepsDigits(size - WORD_MOD);
    }
  }

  lemma WrapKeepsDigits(size: nat)
    ensures (size + WORD_MOD) % WORD_MOD == size % WORD_MOD
    ensures (size + WORD_MOD) / 16 % 0x1_0000 == size / 16 % 0x1_0000
  {
    assert (size + WORD_MOD) / 16 == size / 16 + 0x1000 * 0x1_0000;
  }

  lemma SizeFromDigits(size: nat)
    ensures size >= size / 0x10_0000 * 0x10_0000 + size / 16 % 0x1_0000 * 16
  {
    assert size / 16 / 0x1_0000 == size / 0x10_0000;
  }

  lemma LoadedSizeBound(field: nat)
    ensures LoadedSize(field) <= 16 * field + 0x1_0000
  {
  }

  /** A disk as large as the blocks the loader reads, with the size field in its boot sector. */
  ghost predicate BootsFrom(disk: seq<Byte>, sys: Word, usr: Word) {
    && 502 <= |disk| && WordAt(disk, SYSSIZE_FIELD) == ImSize(sys, usr) % 0x1_0000
    && LoadEnd(WordAt(disk, SYSSIZE_FIELD)) * SECTOR <= |disk|
  }

  /** Memory after the load: `LoadedSize` bytes of the disk at 0x10000, and everything below 0x10000
      and from 0x90000 on untouched. For an image of at most 0x7fff0 bytes this is all of it. */
  lemma ImageLoaded(disk: seq<Byte>, before: seq<Byte>, sys: Word, usr: Word)
    requires BootsFrom(disk, sys, usr) && |before| == 0x10_0000
    ensures var field := WordAt(disk, SYSSIZE_FIELD); var n := LoadedSize(field);
            && n <= 0x8_0000 && SECTOR + n <= |disk|
            && Loaded(disk, before, LoadEnd(field)) ==
                before[..0x1_0000] + disk[SECTOR..SECTOR + n] + before[0x1_0000 + n..]
            && (sys + usr <= 0x7_fff0 ==> sys + usr <= n)
  {
    LoaderCoversImage(sys, usr);
  }

  /** From the disk to memory. On a machine whose boot sector carries the size field of `build`,
      `read_it` returns with the whole of the system and user images in memory exactly when they
      have at most 0x7fff0 bytes; otherwise it either returns with a part of them, or comes to the
      boot sector with its test still passing. */
  method BootFrom(machine: RealMode, sys: Word, usr: Word) returns (returned: bool)
    requires BootsFrom(machine.disk, sys, usr) && machine.syssize == WordAt(machine.disk, SYSSIZE_FIELD)
    requires 2 <= machine.sectors <= 63 && LoadEnd(machine.syssize) <= 0x200 * machine.sectors
    requires machine.sread == 0 && machine.head == 0 && machine.track == 0 && machine.log == [] &&
        machine.ram.Length == 0x10_0000
    modifies machine, machine.ram
    ensures machine.log == Plan(machine.sectors, 1, LoadEnd(machine.syssize))
    ensures var n := LoadedSize(machine.syssize);
            && n <= 0x8_0000 && SECTOR + n <= |machine.disk|
            && machine.ram[..] == old(machine.ram[..])[..0x1_0000] + machine.disk[SECTOR..SECTOR + n] +
                old(machine.ram[..])[0x1_0000 + n..]
            && (returned && sys + usr <= n <==> sys + usr <= 0x7_fff0)
  {
    ImageLoaded(machine.disk, machine.ram[..], sys, usr);
    LoaderCoversImage(sys, usr);
    var es, bx := machine.ReadIt();
    returned := Sub16(es, SYSSEG) > machine.syssize;
  }

  /** Where the image and its size fields are once the disk is in memory. */
  lemma SizesArrive(disk: seq<Byte>, before: seq<Byte>, after: seq<Byte>, n: nat, size: nat)
    requires |before| == 0x10_0000 && 0x1_0000 <= n <= 0x8_0000 && size <= n && SECTOR + n <= |disk|
    requires after == before[..0x1_0000] + disk[SECTOR..SECTOR + n] + before[0x1_0000 + n..]
    ensures |after| == 0x10_0000 && after[0x1_0000..0x1_0000 + size] == disk[SECTOR..SECTOR + size]
    ensures after[..0x1_0000] == before[..0x1_0000] && after[INITSEG * 16..] == before[INITSEG * 16..]
    ensures DWordAt(after, 0x1_0000) == DWordAt(disk, SYS_SIZE_FIELD) &&
        DWordAt(after, 0x1_0004) == DWordAt(disk, USR_SIZE_FIELD)
  {
    forall i | 0x1_0000 <= i < 0x1_0000 + size
      ensures after[i] == disk[SECTOR + (i - 0x1_0000)]
    {
    }
    assert after[0x1_0000..0x1_0000 + size] == disk[SECTOR..SECTOR + size];
  }

  /** The fields of an image of at most 0x7fff0 bytes lose nothing. */
  lemma FieldsAreExact(sys: Word, usr: Word)
    requires sys + usr <= 0x7_fff0
    ensures ImSize(sys, usr) % 0x1_0000 == ImSize(sys, usr) && sys % 0x100_0000 == sys && usr % 0x100_0000 == usr
    ensures 0x1_0000 <= LoadedSize(ImSize(sys, usr)) <= 0x8_0000
  {
  }

  /** Builder and loader together: with the fields `build` writes into the image, the machine has
      the image in memory byte for byte, finds both sizes in its first eight bytes, and has kept all
      memory below 0x10000 and from 0x90000 on. */
  method BuildAndBoot(image: array<Byte>, sys: Word, usr: Word, spt: Reg)
      returns (machine: RealMode, ghost before: seq<Byte>)
    requires sys + usr <= 0x7_fff0 && 2 <= spt <= 63
    requires 524 <= image.Length && LoadEnd(ImSize(sys, usr)) * SECTOR <= image.Length
    requires LoadEnd(ImSize(sys, usr)) <= 0x200 * spt
    modifies image
    ensures forall i :: 0 <= i < image.Length && i != 500 && i != 501 && !(512 <= i < 524) ==> image[i] == old(image[i])
    ensures machine.ram.Length == |before| == 0x10_0000 && SECTOR + sys + usr <= image.Length
    ensures machine.ram[..][0x1_0000..0x1_0000 + sys + usr] == image[SECTOR..SECTOR + sys + usr]
    ensures DWordAt(machine.ram[..], 0x1_0000) == sys && DWordAt(machine.ram[..], 0x1_0004) == usr
    ensures machine.ram[..][..0x1_0000] == before[..0x1_0000] &&
        machine.ram[..][INITSEG * 16..] == before[INITSEG * 16..]
  {
    hide LoadEnd;
    FieldsAreExact(sys, usr);
    WriteSizes(image, sys, usr);
    var disk := image[..];
    machine := new RealMode(spt, WordAt(disk, SYSSIZE_FIELD), disk);
    before := machine.ram[..];
    var returned := BootFrom(machine, sys, usr);
    SizesArrive(disk, before, machine.ram[..], LoadedSize(machine.syssize), sys + usr);
  }
}
