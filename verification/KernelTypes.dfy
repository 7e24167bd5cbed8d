/** Constants and records of sched.h, mm_address.h and stats.h. */
module KernelTypes {

  const NR_TASKS := 10
  const DEFAULT_QUANTUM := 10
  const TOTAL_PAGES := 1024
  const NUM_PAG_KERNEL := 256
  const NUM_PAG_CODE := 8
  const NUM_PAG_DATA := 20
  const PAG_LOG_INIT_CODE := 256
  const PAG_LOG_INIT_DATA := 264
  const PAGE_SIZE := 4096
  const MAX_INT := 0x7fff_ffff

  /** `unsigned long`: arithmetic on it wraps at 2^32. */
  const WORD_MOD := 0x1_0000_0000
  type Word = w: int | 0 <= w < WORD_MOD

  newtype Byte = b: int | 0 <= b < 256

  function Add32(a: Word, b: Word): Word {
    (a + b) % WORD_MOD
  }

  function Sub32(a: Word, b: Word): Word {
    (a - b) % WORD_MOD
  }

  datatype State = RUN | READY | BLOCKED

  /** `struct stats`. */
  datatype Stats = Stats(user: Word, system: Word, blocked: Word, ready: Word,
                         elapsed: Word, trans: Word, remaining: Word)

  /** The four counters `update_stats` is pointed at. */
  datatype Bucket = UserTicks | SystemTicks | BlockedTicks | ReadyTicks

  /** `struct task_struct` without its list node and its saved stack pointer; `dir` is the
      index of the row of `dir_pages` that `dir_pages_baseAddr` points to. */
  datatype Task = Task(pid: int, state: State, quantum: int, dir: nat, stats: Stats)

  datatype QueueId = FreeQueue | ReadyQueue | BlockQueue

  /** The successive values one kernel entry reads from the clock. `leave` and `enter` are the
      two reads of a dispatch, `a` to `d` the reads before it. */
  datatype Clock = Clock(a: Word, b: Word, c: Word, d: Word, leave: Word, enter: Word)

  /** A page table entry: its `present`, `user` and `rw` bits and its `pbase_addr` field. */
  datatype PageTableEntry = PTE(present: bool, frame: nat, user: bool, rw: bool)
  const EMPTY_ENTRY := PTE(false, 0, false, false)

  /** An entry of a user page; `set_ss_pag` writes them with `rw` set. */
  function UserPage(frame: nat, rw: bool): PageTableEntry {
    PTE(true, frame, true, rw)
  }

  predicate Maps(e: PageTableEntry, frame: nat) {
    e.present && e.frame == frame
  }

  /** Whether the processor lets a user program store through the entry. The kernel itself runs with
      write protection off and needs the present bit only. */
  predicate UserWritable(e: PageTableEntry) {
    e.present && e.user && e.rw
  }

  const ENOMEM := 12
  const EAGAIN := 11
  const ESRCH := 3
  const EINVAL := 22
  const EFAULT := 14
  const EBADF := 9
}
