/** The word-and-byte copy of utils.c, and the console write that goes through it. */
module DataCopy {
  import opened KernelTypes

  const TAM_BUFFER := 512

  /** `mem` with the bytes `b` at address `at`. */
  function Splice(mem: seq<Byte>, at: nat, b: seq<Byte>): (r: seq<Byte>)
    requires at + |b| <= |mem|
    ensures |r| == |mem|
  {
    seq(|mem|, i requires 0 <= i < |mem| => if at <= i < at + |b| then b[i - at] else mem[i])
  }

  /** The simple meaning of a copy: all source bytes at once. */
  function BytesCopied(mem: seq<Byte>, start: nat, dest: nat, size: nat): (r: seq<Byte>)
    requires start + size <= |mem| && dest + size <= |mem|
    ensures |r| == |mem|
  {
    seq(|mem|, i requires 0 <= i < |mem| => if dest <= i < dest + size then mem[start + (i - dest)] else mem[i])
  }

  function Positive(size: int): nat {
    if size > 0 then size else 0
  }

  /** Where copying forwards is safe: the ranges do not overlap, or the destination is not after the
      source. */
  predicate ForwardSafe(start: nat, dest: nat, size: int) {
    dest <= start || start + size <= dest
  }

  /** How many bytes one turn of the copying loops moves: a word while more than four are left. */
  function Turn(size: nat): nat {
    if size > 4 then 4 else 1
  }

  /** What the word loop and the byte loop leave in memory, turn by turn, overlap or not. */
  function Forward(mem: seq<Byte>, p: nat, q: nat, size: nat): (r: seq<Byte>)
    requires p + size <= |mem| && q + size <= |mem|
    ensures |r| == |mem|
    decreases size
  {
    if size == 0 then mem
    else
      var n := Turn(size);
      Forward(Splice(mem, q, mem[p..p + n]), p + n, q + n, size - n)
  }

  /** One turn of the loops. */
  lemma ForwardTurn(mem: seq<Byte>, p: nat, q: nat, size: nat)
    requires p + size <= |mem| && q + size <= |mem| && 0 < size
    ensures Turn(size) <= size
    ensures var n := Turn(size);
            Forward(mem, p, q, size) == Forward(Splice(mem, q, mem[p..p + n]), p + n, q + n, size - n)
  {
  }

  lemma ForwardDone(mem: seq<Byte>, p: nat, q: nat)
    requires p <= |mem| && q <= |mem|
    ensures Forward(mem, p, q, 0) == mem
  {
  }

  /** Exactly when copying forwards is right for every memory. */
  lemma ForwardIsExact(len: nat, start: nat, dest: nat, size: nat)
    requires start + size <= len && dest + size <= len
    ensures (forall mem: seq<Byte> :: |mem| == len ==>
        Forward(mem, start, dest, size) == BytesCopied(mem, start, dest, size))
            <==> ForwardSafe(start, dest, size)
  {
    if ForwardSafe(start, dest, size) {
      forall mem: seq<Byte> | |mem| == len
        ensures Forward(mem, start, dest, size) == BytesCopied(mem, start, dest, size)
      {
        ForwardIsRight(mem, start, dest, size);
      }
    } else {
      var mem := OverlapCorrupts(len, start, dest, size);
    }
  }

  /** No source byte is overwritten before it is read. */
  lemma {:induction false} ForwardIsRight(mem: seq<Byte>, p: nat, q: nat, size: nat)
    requires p + size <= |mem| && q + size <= |mem| && ForwardSafe(p, q, size)
    ensures Forward(mem, p, q, size) == BytesCopied(mem, p, q, size)
    decreases size
  {
    if size > 0 {
      hide Forward;
      var n := Turn(size);
      var m := Splice(mem, q, mem[p..p + n]);
      ForwardTurn(mem, p, q, size);
      ForwardIsRight(m, p + n, q + n, size - n);
      assert BytesCopied(m, p + n, q + n, size - n) == BytesCopied(mem, p, q, size);
    } else {
      assert BytesCopied(mem, p, q, 0) == mem;
    }
  }

  /** With the destination inside the source range, the first turn overwrites a byte that a later
      turn reads. */
  lemma OverlapCorrupts(len: nat, p: nat, q: nat, size: nat) returns (mem: seq<Byte>)
    requires q + size <= len && p < q < p + size
    ensures |mem| == len && Forward(mem, p, q, size) != BytesCopied(mem, p, q, size)
  {
    hide Forward;
    var n := Turn(size);
    var c := if q - p < n then n else q - p;
    mem := seq<Byte>(len, i => if i == p + c then 1 else 0);
    var m := Splice(mem, q, mem[p..p + n]);
    ForwardReads(m, p + n, q + n, size - n, c - n);
    ForwardTurn(mem, p, q, size);
    assert m[p + c] == mem[p + c - (q - p)] == 0;
    assert BytesCopied(mem, p, q, size)[q + c] == mem[p + c] == 1;
  }

  /** The copy moves byte `c` as it was, if the first turn reads it or it lies before the destination. */
  lemma {:induction false} ForwardReads(mem: seq<Byte>, p: nat, q: nat, size: nat, c: nat)
    requires p < q && q + size <= |mem| && c < size && (p + c < q || c < Turn(size))
    ensures Forward(mem, p, q, size)[q + c] == mem[p + c]
    decreases size
  {
    hide Forward;
    var n := Turn(size);
    var m := Splice(mem, q, mem[p..p + n]);
    ForwardTurn(mem, p, q, size);
    if c < n {
      assert m[q + c] == mem[p + c];
      ForwardKeeps(m, p + n, q + n, size - n, q + c);
    } else {
      ForwardReads(m, p + n, q + n, size - n, c - n);
    }
  }

  lemma {:induction false} ForwardKeeps(mem: seq<Byte>, p: nat, q: nat, size: nat, i: nat)
    requires p + size <= |mem| && q + size <= |mem| && i < q
    ensures i < |mem| && Forward(mem, p, q, size)[i] == mem[i]
    decreases size
  {
    if size > 0 {
      var n := Turn(size);
      ForwardKeeps(Splice(mem, q, mem[p..p + n]), p + n, q + n, size - n, i);
    }
  }

  /** The first byte of the turn that moves byte `c`: words while more than four bytes are left. */
  function TurnStart(c: nat, size: nat): nat
    requires c < size
  {
    if c < (size - 1) / 4 * 4 then c / 4 * 4 else c
  }

  /** What a forward copy leaves when the destination is after the source, overlap or not: byte `c`
      repeats the byte copied `q - p` places earlier if an earlier turn had put it where byte `c` is
      read, and is the original one if not; nothing outside the destination changes. With this every
      byte of the result is determined. */
  lemma {:induction false} ForwardOverlap(mem: seq<Byte>, p: nat, q: nat, size: nat, c: nat)
    requires p < q && q + size <= |mem| && c < size
    ensures Forward(mem, p, q, size)[q + c] ==
            if q - p <= c && c - (q - p) < TurnStart(c, size) then Forward(mem, p, q, size)[q + c - (q - p)]
            else mem[p + c]
    decreases size
  {
    hide Forward;
    var n, d := Turn(size), q - p;
    var m := Splice(mem, q, mem[p..p + n]);
    ForwardTurn(mem, p, q, size);
    if c < n {
      assert m[q + c] == mem[p + c];
      ForwardKeeps(m, p + n, q + n, size - n, q + c);
    } else {
      ForwardOverlap(m, p + n, q + n, size - n, c - n);
      LaterTurn(c, size);
      if d <= c < d + n {
        assert m[p + c] == m[q + (c - d)] == mem[p + (c - d)];
        ForwardKeeps(m, p + n, q + n, size - n, q + (c - d));
      } else {
        assert m[p + c] == mem[p + c];
      }
    }
  }

  lemma LaterTurn(c: nat, size: nat)
    requires Turn(size) <= c < size
    ensures TurnStart(c, size) == Turn(size) + TurnStart(c - Turn(size), size - Turn(size))
  {
  }

  lemma {:induction false} ForwardOutside(mem: seq<Byte>, p: nat, q: nat, size: nat, i: nat)
    requires p + size <= |mem| && q + size <= |mem| && i < |mem| && !(q <= i < q + size)
    ensures Forward(mem, p, q, size)[i] == mem[i]
    decreases size
  {
    if size > 0 {
      var n := Turn(size);
      ForwardTurn(mem, p, q, size);
      ForwardOutside(Splice(mem, q, mem[p..p + n]), p + n, q + n, size - n, i);
    }
  }

  /** The two memories agree outside the local buffer of `sys_write`. */
  ghost predicate SameOutside(before: seq<Byte>, after: seq<Byte>, localbuffer: nat) {
    |after| == |before| && forall i :: 0 <= i < |before| && !(localbuffer <= i < localbuffer + TAM_BUFFER) ==>
        after[i] == before[i]
  }

  lemma CopiedSlice(mem: seq<Byte>, start: nat, dest: nat, size: nat)
    requires start + size <= |mem| && dest + size <= |mem|
    ensures BytesCopied(mem, start, dest, size)[dest..dest + size] == mem[start..start + size]
  {
  }

  /** The next bytes of the user's buffer are still the original ones, and follow the earlier ones. */
  lemma NextChunk(shown: seq<Byte>, before: seq<Byte>, now: seq<Byte>, localbuffer: nat, buffer: nat, from: nat, n: nat)
    requires SameOutside(before, now, localbuffer) && buffer <= from && from + n <= |before|
    requires from + n <= localbuffer || localbuffer + TAM_BUFFER <= from
    ensures shown + before[buffer..from] + now[from..from + n] == shown + before[buffer..from + n]
  {
    assert now[from..from + n] == before[from..from + n];
  }

  class Ram {
    const mem: array<Byte>

    constructor (size: nat)
      ensures fresh(mem) && mem.Length == size
    {
      mem := new Byte[size];
    }

    /** One access of `n` bytes at `p` and one at `q`. */
    method Move(p: nat, q: nat, n: nat)
      requires p + n <= mem.Length && q + n <= mem.Length
      modifies mem
      ensures mem[..] == Splice(old(mem[..]), q, old(mem[..])[p..p + n])
    {
      var b := mem[p..p + n];
      for i := 0 to n
        invariant forall j :: 0 <= j < mem.Length ==> mem[j] == if q <= j < q + i then b[j - q] else old(mem[j])
      {
        mem[q + i] := b[i];
      }
    }

    /** One turn of either copying loop. */
    method MoveTurn(p: nat, q: nat, n: nat, ghost left: nat)
      requires p + left <= mem.Length && q + left <= mem.Length && 0 < left && n == Turn(left)
      modifies mem
      ensures Forward(mem[..], p + n, q + n, left - n) == Forward(old(mem[..]), p, q, left)
    {
      ForwardTurn(mem[..], p, q, left);
      Move(p, q, n);
    }

    /** `copy_data`, and `copy_from_user` and `copy_to_user`, whose loops are the same: four bytes at
        a time while more than four are left, then the rest one by one. */
    method CopyData(start: nat, dest: nat, size: int)
      requires start + Positive(size) <= mem.Length && dest + Positive(size) <= mem.Length
      modifies mem
      ensures mem[..] == Forward(old(mem[..]), start, dest, Positive(size))
    {
      hide Forward;
      var p: nat, q: nat, left := start, dest, size;
      ghost var all := Forward(mem[..], start, dest, Positive(size));
      while left > 4
        invariant p + Positive(left) <= mem.Length && q + Positive(left) <= mem.Length
        invariant Forward(mem[..], p, q, Positive(left)) == all
      {
        MoveTurn(p, q, 4, left);
        p, q, left := p + 4, q + 4, left - 4;
      }
      if left > 0 {
        CopyBytes(p, q, left);
      } else {
        ForwardDone(mem[..], p, q);
      }
    }

    /** The byte loop. */
    method CopyBytes(p1: nat, q1: nat, size: nat)
      requires p1 + size <= mem.Length && q1 + size <= mem.Length && size <= 4
      modifies mem
      ensures mem[..] == Forward(old(mem[..]), p1, q1, size)
    {
      hide Forward;
      var p: nat, q: nat, left: nat := p1, q1, size;
      ghost var all := Forward(mem[..], p1, q1, size);
      while left > 0
        invariant left <= size && p + left <= mem.Length && q + left <= mem.Length
        invariant Forward(mem[..], p, q, left) == all
      {
        MoveTurn(p, q, 1, left);
        p, q, left := p + 1, q + 1, left - 1;
      }
      ForwardDone(mem[..], p, q);
    }
  }

  class Console {
    const ram: Ram
    var out: seq<Byte>       // what printc has shown

    constructor (ram: Ram)
      ensures this.ram == ram && out == []
    {
      this.ram := ram;
      out := [];
    }

    /** `sys_write_console`. */
    method SysWriteConsole(buffer: nat, size: nat) returns (r: int)
      requires buffer + size <= ram.mem.Length
      modifies this
      ensures r == size && out == old(out) + ram.mem[buffer..buffer + size]
    {
      var i := 0;
      while i < size
        invariant 0 <= i <= size && out == old(out) + ram.mem[buffer..buffer + i]
      {
        out := out + [ram.mem[buffer + i]];
        i := i + 1;
      }
      return size;
    }

    /** One round of `sys_write`: the user's bytes go through the local buffer to the console. */
    method WriteChunk(from: nat, localbuffer: nat, n: nat) returns (ret: int)
      requires n <= TAM_BUFFER && localbuffer + TAM_BUFFER <= ram.mem.Length && from + n <= ram.mem.Length
      requires from + n <= localbuffer || localbuffer + TAM_BUFFER <= from
      modifies this, ram.mem
      ensures ret == n && out == old(out) + old(ram.mem[..])[from..from + n]
      ensures SameOutside(old(ram.mem[..]), ram.mem[..], localbuffer)
    {
      ram.CopyData(from, localbuffer, n);
      ForwardIsRight(old(ram.mem[..]), from, localbuffer, n);
      CopiedSlice(old(ram.mem[..]), from, localbuffer, n);
      ret := SysWriteConsole(localbuffer, n);
      assert ram.mem[localbuffer..localbuffer + n] == ram.mem[..][localbuffer..localbuffer + n];
    }

    /** The loop of `sys_write`, and the last round after it, for a buffer of `nbytes` bytes. */
    method WriteAll(buffer: nat, nbytes: nat, localbuffer: nat) returns (written: int)
      requires localbuffer + TAM_BUFFER <= ram.mem.Length && buffer + nbytes <= ram.mem.Length
      requires buffer + nbytes <= localbuffer || localbuffer + TAM_BUFFER <= buffer
      modifies this, ram.mem
      ensures written == nbytes && out == old(out) + old(ram.mem[..])[buffer..buffer + nbytes]
      ensures SameOutside(old(ram.mem[..]), ram.mem[..], localbuffer)
    {
      var bytes_left, from := nbytes, buffer;
      ghost var before := ram.mem[..];
      while bytes_left > TAM_BUFFER
        invariant 0 <= bytes_left <= nbytes && from == buffer + (nbytes - bytes_left)
        invariant out == old(out) + before[buffer..from]
        invariant SameOutside(before, ram.mem[..], localbuffer)
      {
        NextChunk(old(out), before, ram.mem[..], localbuffer, buffer, from, TAM_BUFFER);
        var ret := WriteChunk(from, localbuffer, TAM_BUFFER);
        bytes_left := bytes_left - ret;
        from := from + ret;
      }
      if bytes_left > 0 {
        NextChunk(old(out), before, ram.mem[..], localbuffer, buffer, from, bytes_left);
        var ret := WriteChunk(from, localbuffer, bytes_left);
        bytes_left := bytes_left - ret;
      }
      return nbytes - bytes_left;
    }

    /** `sys_write`; `accessible` is the verdict of `access_ok`, and `localbuffer` the address of the
        512-byte buffer on the kernel stack. */
    method SysWrite(fd: int, buffer: nat, nbytes: int, accessible: bool, localbuffer: nat) returns (r: int)
      requires localbuffer + TAM_BUFFER <= ram.mem.Length
      requires accessible && nbytes >= 0 ==>
                 buffer + nbytes <= ram.mem.Length &&
                     (buffer + nbytes <= localbuffer || localbuffer + TAM_BUFFER <= buffer)
      modifies this, ram.mem
      ensures r == if fd != 1 then -EBADF else if nbytes < 0 then -EINVAL else if !accessible then -EFAULT else nbytes
      ensures out == if r < 0 then old(out) else old(out) + old(ram.mem[..])[buffer..buffer + nbytes]
      ensures SameOutside(old(ram.mem[..]), ram.mem[..], localbuffer)
    {
      if fd != 1 {
        return -EBADF;
      }
      if nbytes < 0 {
        return -EINVAL;
      }
      if !accessible {
        return -EFAULT;
      }
      r := WriteAll(buffer, nbytes, localbuffer);
    }
  }
}
