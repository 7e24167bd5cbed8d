/** Who gets the processor and when: bounded waiting, and the place of the idle task. */
module Fairness {
  import opened BootState
  import opened Kernel
  import opened KernelTypes
  import opened Paging
  import opened Runs
  import opened Scheduler
  import opened Seqs

  /** Calls of `schedule` among some events. */
  function Ticks(es: seq<Event>): nat {
    if es == [] then 0 else Count(es[0].Tick?) + Ticks(es[1..])
  }

  /** The ticks up to an event are those of the first event and of the ones after it. */
  lemma TicksFrom(es: seq<Event>, m: nat)
    requires m < |es|
    ensures Ticks(es[..m + 1]) == Count(es[0].Tick?) + Ticks(es[1..][..m])
  {
    assert es[..m + 1][1..] == es[1..][..m];
  }

  /** The waiting measure of queue position `pos`: the ticks that may still pass. */
  function Wait(s: Sched, pos: nat): int {
    DEFAULT_QUANTUM * pos + s.rq
  }

  /** Whether the task at queue position `pos` is the one dispatched next, or moves up. */
  lemma DispatchAdvances(s: Sched, now: Clock, pos: nat) returns (next: nat)
    requires Core(s, {}) && pos < |s.ready|
    ensures var r := Dispatch(s, now);
            if pos == 0 then r.cur == s.ready[0]
            else next == pos - 1 && next < |r.ready| && r.ready[next] == s.ready[pos] && r.rq == DEFAULT_QUANTUM
  {
    assert s.ready[0] in s.ready;
    next := if pos == 0 then 0 else pos - 1;
  }

  /** What the event hands to `sched_next_rr`, if it gets that far. */
  function PrepOf(k: Sys, e: Event): Prep
    requires SysShape(k) && Enabled(k, e)
  {
    match e
    case Tick(now) => TickPrep(k.s, now)
    case Yield(now) => YieldPrep(k.s, now)
    case Block(now) => BlockPrep(k.s, now)
    case Unblock(t, now) => UnblockPrep(k.s, t, now)
    case Exit(now) => ExitPrep(k.s)
    case _ => Prep(k.s, false)
  }

  /** Every event that reaches `sched_next_rr` ends with its dispatch, from an empty processor and
      with the waiting tasks in their old order; a clock tick does so only on its last quantum. */
  lemma DispatchingStep(k: Sys, e: Event)
    requires KernelInv(k) && SysShape(k) && Enabled(k, e) && PrepOf(k, e).dispatch
    ensures Core(PrepOf(k, e).s, {}) && Step(k, e).s == Dispatch(PrepOf(k, e).s, e.now)
    ensures k.s.ready <= PrepOf(k, e).s.ready
    ensures e.Tick? ==> k.s.rq == 1
  {
    hide MemInv, Dispatch;
    match e
    case Tick(now) =>
      PreemptionParks(k.s, now);
    case Yield(now) =>
      ParkCurrent(k.s, ToReady, now.a);
    case Block(now) =>
      ParkCurrent(k.s, ToBlocked, now.a);
      var s1 := UpdateProcessState(k.s, k.s.cur, ToBlocked, now.a);
      ChargeKeepsCore(s1, k.s.cur, SystemTicks, now.a, now.b, {});
    case Exit(now) =>
      ExitParks(k.s);
    case Unblock(t, now) =>
      UnblockKeepsInv(k, t, now);
    case _ =>
  }

  /** Every other event leaves the waiting tasks in order and the current task where it was, and a
      clock tick then uses up one unit of its quantum. */
  lemma OtherStep(k: Sys, e: Event)
    requires KernelInv(k) && SysShape(k) && Enabled(k, e) && StaysOut(e) && !PrepOf(k, e).dispatch
    ensures Step(k, e).s.cur == k.s.cur && k.s.ready <= Step(k, e).s.ready
    ensures k.s.ready != [] ==> Step(k, e).s.rq + Count(e.Tick?) == k.s.rq
  {
    match e
    case Unblock(t, now) =>
      ChargeKeepsCore(k.s, t, BlockedTicks, now.a, now.b, {k.s.cur});
      UnblockMoves(ChargeTask(k.s, t, BlockedTicks, now.a, now.b), t, now.c);
    case _ =>
  }

  /** One event, seen by a waiting task: it gets the processor, or it still waits and its measure
      has not risen; a clock tick makes it fall. */
  lemma WaitStep(k: Sys, e: Event, pos: nat) returns (next: nat)
    requires KernelInv(k) && SysShape(k) && Enabled(k, e) && StaysOut(e) && pos < |k.s.ready|
    ensures WaitsOn(k.s, pos, e, Step(k, e).s, next)
  {
    if PrepOf(k, e).dispatch {
      DispatchingStep(k, e);
      next := DispatchAdvances(PrepOf(k, e).s, e.now, pos);
    } else {
      OtherStep(k, e);
      next := pos;
    }
  }

  ghost predicate WaitsOn(s: Sched, pos: nat, e: Event, r: Sched, next: nat)
    requires pos < |s.ready|
  {
    || r.cur == s.ready[pos]
    || (next < |r.ready| && r.ready[next] == s.ready[pos] && Wait(r, next) + Count(e.Tick?) <= Wait(s, pos))
  }

  lemma WaitFollows(k: Sys, e: Event, r: Sys, pos: nat) returns (next: nat)
    requires KernelInv(k) && Follows(k, e, r) && StaysOut(e) && pos < |k.s.ready|
    ensures KernelInv(r) && k.s.rq >= 1 && WaitsOn(k.s, pos, e, r.s, next)
  {
    FollowsKeepsInv(k, e, r);
    next := WaitStep(k, e, pos);
  }

  /** Bounded waiting: in any trace with enough clock ticks the task at queue position `pos` gets
      the processor, after at most `10 * pos + remaining_quantum` of them. */
  lemma {:induction false} BoundedWait(ks: seq<Sys>, es: seq<Event>, pos: nat) returns (n: nat)
    requires IsTrace(ks, es) && KeepsOut(es) && KernelInv(ks[0]) && pos < |ks[0].s.ready|
    requires Ticks(es) >= Wait(ks[0].s, pos)
    ensures 0 < n <= |es| && ks[n].s.cur == ks[0].s.ready[pos]
    ensures Ticks(es[..n]) <= Wait(ks[0].s, pos)
    decreases |es|
  {
    assert es != [] by {
      assert Inv(ks[0].s);
    }
    var next := WaitFollows(ks[0], es[0], ks[1], pos);
    if ks[1].s.cur == ks[0].s.ready[pos] {
      n := 1;
      TicksFrom(es, 0);
    } else {
      TraceTail(ks, es);
      var m := BoundedWait(ks[1..], es[1..], next);
      n := m + 1;
      TicksFrom(es, m);
    }
  }

  lemma TraceTail(ks: seq<Sys>, es: seq<Event>)
    requires IsTrace(ks, es) && es != []
    ensures IsTrace(ks[1..], es[1..])
  {
    forall i | 0 <= i < |es[1..]|
      ensures Follows(ks[1..][i], es[1..][i], ks[1..][i + 1])
    {
      assert Follows(ks[i + 1], es[i + 1], ks[i + 2]);
    }
  }

  /** At most nine tasks wait, so no measure exceeds 90. */
  lemma WaitIsAtMost90(s: Sched, pos: nat)
    requires Inv(s) && pos < |s.ready|
    ensures Wait(s, pos) <= 90
  {
    assert s.cur in {s.cur};
    NoDupCount(s.ready);
    assert Elements(s.ready) <= Slots(NR_TASKS) - {s.cur};
    SubsetCount(Elements(s.ready), Slots(NR_TASKS) - {s.cur});
  }

  /** In any run, a task that is ready at step `m` has run again by step `n` if 90 clock ticks fell
      in between, however the other events interleave. */
  lemma NoStarvation(ks: seq<Sys>, es: seq<Event>, m: nat, n: nat, t: nat)
    requires IsRun(ks, es) && KeepsOut(es) && m <= n <= |es| && t in ks[m].s.ready
    requires Ticks(es[m..n]) >= 90
    ensures exists j :: m < j <= n && ks[j].s.cur == t
  {
    RunInv(ks, es, m);
    var pos :| 0 <= pos < |ks[m].s.ready| && ks[m].s.ready[pos] == t;
    WaitIsAtMost90(ks[m].s, pos);
    var ks', es' := ks[m..n + 1], es[m..n];
    forall i | 0 <= i < |es'|
      ensures Follows(ks'[i], es'[i], ks'[i + 1])
    {
      assert Follows(ks[m + i], es[m + i], ks[m + i + 1]);
    }
    var j := BoundedWait(ks', es', pos);
    assert ks[m + j].s.cur == t;
  }

  // ---------------------------------------------------------------- idle

  /** Idle is running or waiting its turn. */
  ghost predicate IdleInRotation(s: Sched) {
    s.idle == s.cur || s.idle in s.ready
  }

  /** The `t=idle_task` branch of `sched_next_rr` is taken. */
  ghost predicate TakesFallback(k: Sys, e: Event) {
    SysShape(k) && Enabled(k, e) && PrepOf(k, e).dispatch && PrepOf(k, e).s.ready == []
  }

  /** Once in the rotation idle stays there and the fallback is not taken; taking it puts idle
      there. */
  lemma IdleStep(k: Sys, e: Event)
    requires KernelInv(k) && SysShape(k) && Enabled(k, e) && StaysOut(e)
    ensures IdleInRotation(k.s) ==> IdleInRotation(Step(k, e).s) && !TakesFallback(k, e)
    ensures TakesFallback(k, e) ==> IdleInRotation(Step(k, e).s)
  {
    if PrepOf(k, e).dispatch {
      DispatchingStep(k, e);
      RotationKept(PrepOf(k, e).s, e.now);
      IdleParked(k, e);
    } else {
      OtherStep(k, e);
      assert Step(k, e).s.idle == k.s.idle;
    }
  }

  lemma IdleParked(k: Sys, e: Event)
    requires KernelInv(k) && SysShape(k) && Enabled(k, e) && PrepOf(k, e).dispatch
    ensures PrepOf(k, e).s.idle == k.s.idle
    ensures IdleInRotation(k.s) ==> k.s.idle in PrepOf(k, e).s.ready
  {
    DispatchingStep(k, e);
    if e.Unblock? {
      UnblockKeepsInv(k, e.t, e.now);
    }
  }

  lemma RotationKept(s: Sched, now: Clock)
    requires Shape(s)
    ensures s.idle in s.ready ==> IdleInRotation(Dispatch(s, now))
    ensures s.ready == [] ==> IdleInRotation(Dispatch(s, now))
  {
    if s.idle in s.ready {
      assert s.ready == [s.ready[0]] + s.ready[1..];
    }
  }

  lemma IdleAt(ks: seq<Sys>, es: seq<Event>, n: nat)
    requires IsRun(ks, es) && KeepsOut(es) && n < |es|
    ensures IdleInRotation(ks[n].s) ==> IdleInRotation(ks[n + 1].s) && !TakesFallback(ks[n], es[n])
    ensures TakesFallback(ks[n], es[n]) ==> IdleInRotation(ks[n + 1].s)
  {
    RunStep(ks, es, n);
    IdleStep(ks[n], es[n]);
  }

  /** Idle joins the rotation for good: in every run, from the first step at which it is current
      or ready, it is so at every later step. */
  lemma IdleStays(ks: seq<Sys>, es: seq<Event>, m: nat, n: nat)
    requires IsRun(ks, es) && KeepsOut(es) && m <= n <= |es| && IdleInRotation(ks[m].s)
    ensures IdleInRotation(ks[n].s)
  {
    hide Follows, IsBoot, IdleInRotation, TakesFallback;
    var idle := seq(n - m + 1, i requires 0 <= i <= n - m => IdleInRotation(ks[m + i].s));
    forall i | 0 <= i < n - m
      ensures Keeps(idle, i)
    {
      IdleAt(ks, es, m + i);
    }
    KeptOn(idle, n - m);
  }

  /** What holds at position `i` still holds at the next. */
  ghost predicate Keeps(b: seq<bool>, i: nat)
    requires i + 1 < |b|
  {
    b[i] ==> b[i + 1]
  }

  lemma {:induction false} KeptOn(b: seq<bool>, n: nat)
    requires n < |b| && b[0] && forall i :: 0 <= i < n ==> Keeps(b, i)
    ensures b[n]
  {
    if n > 0 {
      KeptOn(b, n - 1);
      assert Keeps(b, n - 1);
    }
  }

  /** The idle fallback is taken at most once in any run. */
  lemma FallbackAtMostOnce(ks: seq<Sys>, es: seq<Event>, m: nat, n: nat)
    requires IsRun(ks, es) && KeepsOut(es) && m < n < |es| && TakesFallback(ks[m], es[m])
    ensures !TakesFallback(ks[n], es[n])
  {
    IdleAt(ks, es, m);
    IdleStays(ks, es, m + 1, n);
    IdleAt(ks, es, n);
  }

  // ---------------------------------------------------------------- idle among others

  /** Exactly when idle gets the processor although some task is ready: when it has come to the head of
      the ready queue, and either another task is behind it or the task that gives up the processor
      goes behind it, as it does on a clock tick and on a yield. */
  lemma IdleAheadStep(k: Sys, e: Event)
    requires KernelInv(k) && SysShape(k) && Enabled(k, e) && PrepOf(k, e).dispatch
    ensures var r := Step(k, e).s;
            r.cur == r.idle && r.ready != [] <==>
            k.s.ready != [] && k.s.ready[0] == k.s.idle && (|k.s.ready| > 1 || e.Tick? || e.Yield?)
  {
    DispatchingStep(k, e);
    IdleParked(k, e);
    PreparedQueue(k, e);
  }

  /** The ready queue that a dispatch finds: with the current task at its tail after a clock tick or a
      yield, and as it was after a block or an exit. */
  lemma PreparedQueue(k: Sys, e: Event)
    requires KernelInv(k) && SysShape(k) && Enabled(k, e) && PrepOf(k, e).dispatch
    ensures PrepOf(k, e).s.ready == if e.Tick? || e.Yield? then k.s.ready + [k.s.cur] else k.s.ready
    ensures e.Tick? ==> k.s.ready != []
    ensures (e.Yield? || e.Block? || e.Exit?) && k.s.ready == [] ==> k.s.cur != k.s.idle
  {
    if e.Unblock? {
      UnblockKeepsInv(k, e.t, e.now);
    }
  }

  lemma IdleAhead(ks: seq<Sys>, es: seq<Event>, n: nat)
    requires IsRun(ks, es) && KeepsOut(es) && n < |es| && Dispatches(ks[n], es[n])
    ensures var s, r := ks[n].s, ks[n + 1].s;
            r.cur == r.idle && r.ready != [] <==>
            s.ready != [] && s.ready[0] == s.idle && (|s.ready| > 1 || es[n].Tick? || es[n].Yield?)
  {
    RunStep(ks, es, n);
    IdleAheadStep(ks[n], es[n]);
  }

  /** The event reaches `sched_next_rr`. */
  ghost predicate Dispatches(k: Sys, e: Event) {
    SysShape(k) && Enabled(k, e) && PrepOf(k, e).dispatch
  }

  /** Idle takes its turn like any task: a run in which a yield dispatches it while two tasks wait
      behind it. Task 1 blocks, so that idle starts to run; task 1 is unblocked; idle uses up its
      quantum and is put on the ready queue; task 1 forks and yields. */
  lemma IdleRunsAheadOfOthers(b: BootArgs, now: Clock) returns (ks: seq<Sys>, es: seq<Event>)
    requires RamShape(b.ram)
    ensures IsRun(ks, es) && KeepsOut(es) && |es| == 14 && es[13] == Yield(now)
    ensures ks[13].s.cur == 1 != ks[13].s.idle
    ensures ks[14].s.cur == ks[14].s.idle && ks[14].s.ready == [2, 1]
  {
    hide BootSys, Step, IsBoot, KernelInv;
    ks, es := BootRun(b);
    RunInv(ks, es, 0);
    FirstBlock(b, now);
    ks, es := Extended(ks, es, Block(now));
    RunInv(ks, es, 1);
    UnblockWaiter(ks[1], now);
    ks, es := Extended(ks, es, Unblock(1, now));
    ks, es := CountDown(ks, es, now, 9);
    RunInv(ks, es, 11);
    IdlePreempted(ks[11], now);
    ks, es := Extended(ks, es, Tick(now));
    RunInv(ks, es, 12);
    ForkBehindIdle(ks[12], now);
    ks, es := Extended(ks, es, Fork(now));
    RunInv(ks, es, 13);
    YieldToIdle(ks[13], now);
    ks, es := Extended(ks, es, Yield(now));
  }

  ghost predicate Queues(s: Sched, cur: nat, ready: seq<nat>, blocked: seq<nat>, rq: int) {
    s.cur == cur && s.idle == 0 && s.ready == ready && s.blocked == blocked && s.rq == rq
  }

  /** Slot 2 is the next to be given out, and the PID counter has not moved. */
  ghost predicate NoForkYet(s: Sched) {
    s.free == BOOT_FREE && s.lastPid == 1000
  }

  lemma FirstBlock(b: BootArgs, now: Clock)
    requires RamShape(b.ram)
    ensures SysShape(BootSys(b)) && Enabled(BootSys(b), Block(now))
    ensures var s := Step(BootSys(b), Block(now)).s; Queues(s, 0, [], [1], 10) && NoForkYet(s)
  {
    BootInv(b);
  }

  lemma UnblockWaiter(k: Sys, now: Clock)
    requires KernelInv(k) && SysShape(k) && Queues(k.s, 0, [], [1], 10) && NoForkYet(k.s)
    ensures Enabled(k, Unblock(1, now))
    ensures var s := Step(k, Unblock(1, now)).s; Queues(s, 0, [1], [], 10) && NoForkYet(s)
  {
    UnblockIsUpdate(k.s, 1, now);
    UnblockedQueues(k.s, now);
  }

  lemma UnblockedQueues(s: Sched, now: Clock)
    requires Inv(s) && Queues(s, 0, [], [1], 10) && NoForkYet(s)
    ensures var r := UpdateProcessState(ChargeTask(s, 1, BlockedTicks, now.a, now.b), 1, ToReady, now.c);
            Queues(r, 0, [1], [], 10) && NoForkYet(r)
  {
    ChargeKeepsCore(s, 1, BlockedTicks, now.a, now.b, {s.cur});
    UnblockMoves(ChargeTask(s, 1, BlockedTicks, now.a, now.b), 1, now.c);
  }

  lemma {:induction false} CountDown(ks: seq<Sys>, es: seq<Event>, now: Clock, n: nat)
      returns (kt: seq<Sys>, et: seq<Event>)
    requires IsRun(ks, es) && KeepsOut(es) && n < ks[|es|].s.rq
    ensures IsRun(kt, et) && KeepsOut(et) && |et| == |es| + n
    ensures kt[|et|].s == ks[|es|].s.(rq := ks[|es|].s.rq - n)
  {
    kt, et := ks, es;
    if n > 0 {
      kt, et := CountDown(ks, es, now, n - 1);
      RunInv(kt, et, |et|);
      kt, et := Extended(kt, et, Tick(now));
    }
  }

  lemma IdlePreempted(k: Sys, now: Clock)
    requires KernelInv(k) && SysShape(k) && Queues(k.s, 0, [1], [], 1) && NoForkYet(k.s)
    ensures var s := Step(k, Tick(now)).s; Queues(s, 1, [0], [], 10) && NoForkYet(s)
  {
    assert k.s.cur in {k.s.cur} && 1 !in k.s.free;
  }

  lemma ForkBehindIdle(k: Sys, now: Clock)
    requires KernelInv(k) && SysShape(k) && Queues(k.s, 1, [0], [], 10) && NoForkYet(k.s)
    ensures Enabled(k, Fork(now))
    ensures Queues(Step(k, Fork(now)).s, 1, [0, 2], [], 10)
  {
    ForkStep(k, now);
  }

  lemma YieldToIdle(k: Sys, now: Clock)
    requires KernelInv(k) && SysShape(k) && Queues(k.s, 1, [0, 2], [], 10)
    ensures Enabled(k, Yield(now))
    ensures var s := Step(k, Yield(now)).s; s.cur == s.idle == 0 && s.ready == [2, 1]
  {
    assert k.s.cur in {k.s.cur};
  }
}
