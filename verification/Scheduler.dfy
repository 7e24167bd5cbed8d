/**
 The scheduling half of the kernel state (sched.c, sys.c) as values: the task array, the
 three queues as sequences of slots, the current task and the quantum counter. Every function
 here is the effect of one kernel routine with the four policy pointers bound to the `_rr`
 routines. Module KernelMachine refines them on pointer lists.
 */
module Scheduler {
  import opened KernelTypes
  import opened Seqs
  import opened TaskQueues

  datatype Sched = Sched(task: seq<Task>, free: seq<nat>, ready: seq<nat>, blocked: seq<nat>,
                         cur: nat, idle: nat, rq: int, lastPid: int)

  /** Where `update_process_state` is told to move a task. */
  datatype Dest = Nowhere | ToReady | ToBlocked

  /** What a kernel entry leaves behind when it reaches (or does not reach) `sched_next`. */
  datatype Prep = Prep(s: Sched, dispatch: bool)

  ghost predicate Shape(s: Sched) {
    && |s.task| == NR_TASKS && s.cur < NR_TASKS && s.idle < NR_TASKS
    && AllSlots(s.free) && AllSlots(s.ready) && AllSlots(s.blocked)
  }

  // ---------------------------------------------------------------- statistics

  function Counter(st: Stats, bucket: Bucket): Word {
    match bucket
    case UserTicks => st.user
    case SystemTicks => st.system
    case BlockedTicks => st.blocked
    case ReadyTicks => st.ready
  }

  /** `counter += a - elapsed; elapsed = b`, on unsigned longs. */
  function ChargeSplit(st: Stats, bucket: Bucket, a: Word, b: Word): Stats {
    var v := Add32(Counter(st, bucket), Sub32(a, st.elapsed));
    match bucket
    case UserTicks => st.(user := v, elapsed := b)
    case SystemTicks => st.(system := v, elapsed := b)
    case BlockedTicks => st.(blocked := v, elapsed := b)
    case ReadyTicks => st.(ready := v, elapsed := b)
  }

  /** `update_stats`: one clock read serves both assignments. */
  function Charge(st: Stats, bucket: Bucket, now: Word): Stats {
    ChargeSplit(st, bucket, now, now)
  }

  function InitStats(a: Word, b: Word): Stats {
    Stats(0, 0, 0, 0, a, 0, b)
  }

  function SetTask(s: Sched, t: nat, x: Task): (r: Sched)
    requires t < |s.task|
  {
    s.(task := s.task[t := x])
  }

  function ChargeTask(s: Sched, t: nat, bucket: Bucket, a: Word, b: Word): Sched
    requires t < |s.task|
  {
    SetTask(s, t, s.task[t].(stats := ChargeSplit(s.task[t].stats, bucket, a, b)))
  }

  // ---------------------------------------------------------------- policy routines

  /** The second half of `update_process_state_rr`: the task goes to its new place. */
  function Enqueued(s: Sched, t: nat, dest: Dest, now: Word): (r: Sched)
    requires Shape(s) && t < NR_TASKS
    ensures Shape(r) && r.cur == s.cur && r.idle == s.idle
  {
    match dest
    case Nowhere => SetTask(s, t, s.task[t].(state := RUN))
    case ToBlocked => SetTask(s.(blocked := s.blocked + [t]), t, s.task[t].(state := BLOCKED))
    case ToReady =>
      var x := s.task[t];
      SetTask(s.(ready := s.ready + [t]), t, x.(stats := Charge(x.stats, SystemTicks, now), state := READY))
  }

  /** `update_process_state_rr`: a task that is not running is first unlinked from its queue. */
  function UpdateProcessState(s: Sched, t: nat, dest: Dest, now: Word): (r: Sched)
    requires Shape(s) && t < NR_TASKS
    ensures Shape(r) && r.cur == s.cur && r.idle == s.idle
  {
    var u := if s.task[t].state != RUN
             then s.(free := Without(s.free, t), ready := Without(s.ready, t), blocked := Without(s.blocked, t))
             else s;
    Enqueued(u, t, dest, now)
  }

  /** `needs_sched_rr`: the verdict, and the quantum counter it may refill. */
  function NeedsSched(s: Sched): (bool, Sched)
    requires Shape(s)
  {
    if s.rq == 0 && s.ready != [] then (true, s)
    else if s.rq == 0 then (false, s.(rq := s.task[s.cur].quantum))
    else (false, s)
  }

  /** The task `sched_next_rr` picks. */
  function Chosen(s: Sched): nat {
    if s.ready != [] then s.ready[0] else s.idle
  }

  /** `sched_next_rr`, with `task_switch` as the assignment of `cur`. */
  function Dispatch(s: Sched, now: Clock): (r: Sched)
    requires Shape(s)
    ensures Shape(r) && r.idle == s.idle && r.free == s.free && r.cur == Chosen(s)
  {
    var t := Chosen(s);
    assert s.ready != [] ==> s.ready[0] in s.ready;
    var s1 := ChargeTask(s, s.cur, SystemTicks, now.leave, now.leave);
    var x := s1.task[t];
    SetTask(s1, t, x.(state := RUN, stats := Entered(x.stats, now.enter)))
    .(ready := if s.ready != [] then Rest(s.ready) else [], cur := t, rq := x.quantum)
  }

  /** The statistics of a task that gets the processor. */
  function Entered(st: Stats, now: Word): Stats {
    var c := Charge(st, ReadyTicks, now);
    c.(trans := Add32(c.trans, 1))
  }

  // ---------------------------------------------------------------- kernel entries

  /** `schedule`. */
  function TickPrep(s: Sched, now: Clock): (r: Prep)
    requires Shape(s)
    ensures Shape(r.s)
  {
    var (need, s1) := NeedsSched(s.(rq := s.rq - 1));
    if need then Prep(UpdateProcessState(s1, s1.cur, ToReady, now.a), true) else Prep(s1, false)
  }

  /** `sys_yield`, that is `force_task_switch`. */
  function YieldPrep(s: Sched, now: Clock): (r: Prep)
    requires Shape(s)
    ensures Shape(r.s)
  {
    Prep(UpdateProcessState(s, s.cur, ToReady, now.a), true)
  }

  /** `block_process`. */
  function BlockPrep(s: Sched, now: Clock): (r: Prep)
    requires Shape(s)
    ensures Shape(r.s)
  {
    var s1 := UpdateProcessState(s, s.cur, ToBlocked, now.a);
    Prep(ChargeTask(s1, s.cur, SystemTicks, now.a, now.b), true)
  }

  /** `unblock_process(t)`. */
  function UnblockPrep(s: Sched, t: nat, now: Clock): (r: Prep)
    requires Shape(s) && t < NR_TASKS
    ensures Shape(r.s)
  {
    var s1 := ChargeTask(s, t, BlockedTicks, now.a, now.b);
    var s2 := UpdateProcessState(s1, t, ToReady, now.c);
    var (need, s3) := NeedsSched(s2);
    if need then Prep(UpdateProcessState(s3, s3.cur, ToReady, now.d), true) else Prep(s3, false)
  }

  /** The scheduling half of `sys_exit`, up to `sched_next_rr`. */
  function ExitPrep(s: Sched): (r: Prep)
    requires Shape(s)
    ensures Shape(r.s)
  {
    Prep(SetTask(s.(free := s.free + [s.cur]), s.cur, s.task[s.cur].(pid := -1)), true)
  }

  /** The scheduling half of `sys_fork` on a non-empty free queue: `ok` says whether every data
      page could be allocated. On failure the child slot goes back to the tail of the free queue
      with the parent's task structure still in it. */
  function ForkTask(s: Sched, ok: bool, now: Clock): (r: Sched)
    requires Shape(s) && s.free != []
    ensures Shape(r) && r.cur == s.cur && r.idle == s.idle
  {
    var child := s.free[0];
    assert child in s.free;
    var copied := SetTask(s.(free := Rest(s.free)), child, s.task[s.cur].(dir := child));
    if !ok then copied.(free := copied.free + [child])
    else
      SetTask(copied.(ready := copied.ready + [child], lastPid := s.lastPid + 1), child,
              copied.task[child].(pid := s.lastPid + 1, state := READY, stats := InitStats(now.a, now.b)))
  }

  // ---------------------------------------------------------------- invariant

  function Live(s: Sched): set<nat> {
    set i: nat | i < NR_TASKS && i !in s.free
  }

  /** The live slots other than idle: those that own user pages. */
  function Procs(s: Sched): set<nat> {
    Live(s) - {s.idle}
  }

  /** Every slot is in exactly one of: `run`, the ready queue, the free queue, the blocked queue,
      or it is the idle task still waiting for its first dispatch. */
  ghost predicate Partition(s: Sched, run: set<nat>) {
    && NoDup(s.free) && NoDup(s.ready) && NoDup(s.blocked)
    && Disjoint(s.free, s.ready) && Disjoint(s.free, s.blocked) && Disjoint(s.ready, s.blocked)
    && s.idle !in s.free && s.idle !in s.blocked
    && (forall i :: i in run ==> i !in s.free && i !in s.ready && i !in s.blocked)
    && (forall i: nat :: i < NR_TASKS ==> i in s.free || i in s.ready || i in s.blocked || i in run || i == s.idle)
  }

  /** The `state` field agrees with the queue that holds the slot; idle has its initial state, zero,
      until its first dispatch. */
  ghost predicate StatesMatch(s: Sched, run: set<nat>)
    requires Shape(s)
  {
    && (forall i :: i in s.ready ==> s.task[i].state == READY)
    && (forall i :: i in s.blocked ==> s.task[i].state == BLOCKED)
    && (forall i :: i in run && i < NR_TASKS ==> s.task[i].state == RUN)
    && (s.idle !in run && s.idle !in s.ready ==> s.task[s.idle].state == RUN)
  }

  /** Live slots have distinct PIDs and free ones have PID -1. */
  ghost predicate PidsDistinct(s: Sched)
    requires Shape(s)
  {
    && 1000 <= s.lastPid <= MAX_INT
    && (forall i :: i in s.free ==> s.task[i].pid == -1)
    && s.task[s.idle].pid == 0
    && (forall i: nat :: i < NR_TASKS && i !in s.free && i != s.idle ==>
         s.task[i].pid == 1 || 1000 < s.task[i].pid <= s.lastPid)
    && (forall i: nat, j: nat :: i < j < NR_TASKS && i !in s.free && j !in s.free ==> s.task[i].pid != s.task[j].pid)
  }

  /** Live slots have the default quantum and point at their own page directory. */
  ghost predicate Configured(s: Sched)
    requires Shape(s)
  {
    forall i: nat :: i < NR_TASKS && i !in s.free ==> s.task[i].quantum == DEFAULT_QUANTUM && s.task[i].dir == i
  }

  ghost predicate Core(s: Sched, run: set<nat>) {
    Shape(s) && Partition(s, run) && StatesMatch(s, run) && PidsDistinct(s) && Configured(s)
  }

  /** The scheduling invariant at every kernel boundary. */
  ghost predicate Inv(s: Sched) {
    Core(s, {s.cur}) && 1 <= s.rq <= DEFAULT_QUANTUM
  }

  // ---------------------------------------------------------------- preservation

  /** Two states whose live tasks have the same names and settings. */
  ghost predicate SameIdentity(s: Sched, r: Sched)
    requires Shape(s) && Shape(r)
  {
    && (forall i :: i in r.free <==> i in s.free) && r.idle == s.idle && r.lastPid == s.lastPid
    && forall i: nat :: i < NR_TASKS ==> SameName(s.task[i], r.task[i])
  }

  ghost predicate SameName(x: Task, y: Task) {
    y.pid == x.pid && y.quantum == x.quantum && y.dir == x.dir
  }

  lemma IdentityKept(s: Sched, r: Sched)
    requires Shape(s) && Shape(r) && SameIdentity(s, r)
    requires PidsDistinct(s) && Configured(s)
    ensures PidsDistinct(r) && Configured(r)
  {
    assert forall i: nat :: i < NR_TASKS ==> SameName(s.task[i], r.task[i]);
    assert AllSlots(s.free);
  }

  /** `update_process_state_rr` for each destination, on a task that is on one queue or running: the
      task is on the destination only, at its tail, and has the state that goes with it; system ticks
      are charged only on the way to the ready queue; nothing else changes. */
  lemma UpdateMoves(s: Sched, t: nat, dest: Dest, now: Word)
    requires Shape(s) && t < NR_TASKS && NoDup(s.free) && NoDup(s.ready) && NoDup(s.blocked)
    requires s.task[t].state == RUN <==> t !in s.free && t !in s.ready && t !in s.blocked
    ensures var r, x := UpdateProcessState(s, t, dest, now), s.task[t];
            && SameButOne(s.free, r.free, t, false)
            && SameButOne(s.ready, r.ready, t, dest == ToReady) &&
                SameButOne(s.blocked, r.blocked, t, dest == ToBlocked)
            && r.cur == s.cur && r.idle == s.idle && r.rq == s.rq && r.lastPid == s.lastPid
            && r.task == s.task[t := match dest
                 case ToBlocked => x.(state := BLOCKED)
                 case ToReady => x.(state := READY,
                     stats := x.stats.(system := (x.stats.system + now - x.stats.elapsed) % WORD_MOD,
                                                                     elapsed := now))
                 case Nowhere => x.(state := RUN)]
  {
    WithoutOne(s.free, t);
    WithoutOne(s.ready, t);
    WithoutOne(s.blocked, t);
  }

  /** The queue `r` is `q` without `t`, or with `t` at the tail only. */
  ghost predicate SameButOne(q: seq<nat>, r: seq<nat>, t: nat, tail: bool) {
    exists rest :: WithoutSlot(q, rest, t) && r == if tail then rest + [t] else rest
  }

  ghost predicate WithoutSlot(q: seq<nat>, rest: seq<nat>, t: nat) {
    (t !in q && rest == q) || exists i :: 0 <= i < |q| && q[i] == t && rest == q[..i] + q[i + 1..]
  }

  lemma WithoutOne(q: seq<nat>, t: nat)
    requires NoDup(q)
    ensures WithoutSlot(q, Without(q, t), t)
    ensures t !in q ==> Without(q, t) == q
  {
    if t in q {
      var i :| 0 <= i < |q| && q[i] == t;
      WithoutAt(q, i);
    } else {
      WithoutAbsent(q, t);
    }
  }

  /** Parking the running task on the ready or the blocked queue empties the processor. */
  lemma ParkCurrent(s: Sched, dest: Dest, now: Word)
    requires Core(s, {s.cur}) && dest != Nowhere
    requires dest == ToBlocked ==> s.cur != s.idle
    ensures Core(UpdateProcessState(s, s.cur, dest, now), {})
  {
    var r := UpdateProcessState(s, s.cur, dest, now);
    assert s.cur in {s.cur};
    AppendNoDup(s.ready, s.cur);
    AppendNoDup(s.blocked, s.cur);
    IdentityKept(s, r);
  }

  /** From an empty processor, `sched_next` restores the invariant whichever task it picks. */
  lemma DispatchKeepsInv(s: Sched, now: Clock)
    requires Core(s, {})
    ensures Inv(Dispatch(s, now))
  {
    DispatchTasks(s, now);
    IdentityKept(s, Dispatch(s, now));
    DispatchPartitions(s, now);
  }

  /** A dispatch changes no name and no state other than that of the chosen task. */
  lemma DispatchTasks(s: Sched, now: Clock)
    requires Shape(s)
    ensures forall i: nat :: i < NR_TASKS ==> SameName(s.task[i], Dispatch(s, now).task[i])
    ensures forall i: nat :: i < NR_TASKS ==>
        Dispatch(s, now).task[i].state == if i == Chosen(s) then RUN else s.task[i].state
  {
  }

  lemma DispatchPartitions(s: Sched, now: Clock)
    requires Core(s, {})
    ensures Partition(Dispatch(s, now), {Chosen(s)})
    ensures forall i :: i in Dispatch(s, now).ready ==> i in s.ready && i != Chosen(s)
  {
    if s.ready != [] {
      TailMembers(s.ready);
      assert s.ready[0] in s.ready;
    }
  }

  /** Statistics play no part in the invariant. */
  lemma StatsKeepCore(s: Sched, t: nat, st: Stats, run: set<nat>)
    requires Core(s, run) && t < NR_TASKS
    ensures Core(SetTask(s, t, s.task[t].(stats := st)), run)
  {
    IdentityKept(s, SetTask(s, t, s.task[t].(stats := st)));
  }

  lemma ChargeKeepsCore(s: Sched, t: nat, bucket: Bucket, a: Word, b: Word, run: set<nat>)
    requires Core(s, run) && t < NR_TASKS
    ensures Core(ChargeTask(s, t, bucket, a, b), run)
  {
    StatsKeepCore(s, t, ChargeSplit(s.task[t].stats, bucket, a, b), run);
  }

  lemma UnblockKeepsCore(s: Sched, t: nat, now: Word)
    requires Core(s, {s.cur}) && t in s.blocked
    ensures Core(UpdateProcessState(s, t, ToReady, now), {s.cur})
  {
    UnblockMoves(s, t, now);
    IdentityKept(s, UpdateProcessState(s, t, ToReady, now));
    UnblockPartitions(s, t, now);
  }

  /** Unblocking moves one slot from the blocked queue to the tail of the ready queue. */
  lemma UnblockMoves(s: Sched, t: nat, now: Word)
    requires Core(s, {s.cur}) && t in s.blocked
    ensures var r := UpdateProcessState(s, t, ToReady, now);
            && r.free == s.free && r.ready == s.ready + [t] && r.blocked == Without(s.blocked, t)
            && forall i: nat :: i < NR_TASKS ==>
                SameName(s.task[i], r.task[i]) && r.task[i].state == if i == t then READY else s.task[i].state
  {
    WithoutAbsent(s.free, t);
    WithoutAbsent(s.ready, t);
  }

  lemma UnblockPartitions(s: Sched, t: nat, now: Word)
    requires Core(s, {s.cur}) && t in s.blocked
    ensures Partition(UpdateProcessState(s, t, ToReady, now), {s.cur})
  {
    UnblockMoves(s, t, now);
    WithoutNoDup(s.blocked, t);
    AppendNoDup(s.ready, t);
    assert s.cur in {s.cur};
  }

  lemma ExitParks(s: Sched)
    requires Core(s, {s.cur}) && s.cur != s.idle
    ensures Core(ExitPrep(s).s, {})
    ensures var r := ExitPrep(s).s;
            && r.free == s.free + [s.cur] && r.ready == s.ready && r.blocked == s.blocked && r.idle == s.idle
            && r.task[s.cur] == s.task[s.cur].(pid := -1)
            && forall i: nat :: i < NR_TASKS && i != s.cur ==> r.task[i] == s.task[i]
  {
    AppendNoDup(s.free, s.cur);
    assert s.cur in {s.cur};
  }

  lemma ForkKeepsCore(s: Sched, now: Clock)
    requires Core(s, {s.cur}) && s.free != [] && s.lastPid < MAX_INT
    ensures Core(ForkTask(s, true, now), {s.cur})
  {
    var r := ForkTask(s, true, now);
    var child := s.free[0];
    assert child in s.free && s.cur in {s.cur};
    TailMembers(s.free);
    ForkPartitions(s, now);
    hide Partition;
    assert forall i: nat :: i < NR_TASKS && i != child ==> r.task[i] == s.task[i];
  }

  lemma ForkPartitions(s: Sched, now: Clock)
    requires Shape(s) && Partition(s, {s.cur}) && s.free != []
    ensures Partition(ForkTask(s, true, now), {s.cur})
    ensures s.free[0] !in s.ready && s.free[0] !in s.blocked && s.free[0] != s.cur && s.free[0] != s.idle
  {
    assert s.free[0] in s.free && s.cur in {s.cur};
    TailMembers(s.free);
    AppendNoDup(s.ready, s.free[0]);
  }
}
