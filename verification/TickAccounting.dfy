/** The tick statistics of p_stats.c and sched.c: every tick of a task's life is charged once. */
module TickAccounting {
  import opened BootState
  import opened Fairness
  import opened Kernel
  import opened KernelTypes
  import opened Runs
  import opened Scheduler
  import opened Seqs

  /** What the statistics do not record: the clock at a slot's latest `init_stats`, and the ticks
      that passed since between the two clock reads of its `block_process` and `unblock_process`
      calls. */
  datatype History = History(birth: seq<int>, lost: seq<int>)

  function NextHistory(h: History, k: Sys, e: Event): (r: History)
    requires SysShape(k) && Enabled(k, e) && |h.birth| == |h.lost| == NR_TASKS
    ensures |r.birth| == |r.lost| == NR_TASKS
  {
    if e.Block? then Lose(h, k.s.cur, e.now.a, e.now.b)
    else if e.Unblock? then Lose(h, e.t, e.now.a, e.now.b)
    else if e.Fork? && k.s.free != [] && ForkResult(k) >= 0 then
      assert k.s.free[0] in k.s.free;
      History(h.birth[k.s.free[0] := e.now.a], h.lost[k.s.free[0] := 0])
    else h
  }

  /** The four counters, the birth time and the unrecorded ticks add up to the latest clock read,
      modulo 2^32. */
  predicate Balanced(st: Stats, birth: int, lost: int) {
    (st.user + st.system + st.blocked + st.ready + birth + lost - st.elapsed) % WORD_MOD == 0
  }

  /** `v + d` on unsigned longs differs from the integer sum by a multiple of 2^32. */
  lemma WrapIsMultiple(v: Word, a: Word, elapsed: Word) returns (q: int)
    ensures Add32(v, Sub32(a, elapsed)) == v + a - elapsed + WORD_MOD * q
  {
    var d := Sub32(a, elapsed);
    q := -((a - elapsed) / WORD_MOD) - (v + d) / WORD_MOD;
  }

  lemma ShiftByMultiple(x: int, q: int)
    requires x % WORD_MOD == 0
    ensures (x + WORD_MOD * q) % WORD_MOD == 0
  {
  }

  /** One charge keeps the balance, up to the ticks between its two clock reads. */
  lemma ChargeKeepsBalance(st: Stats, bucket: Bucket, a: Word, b: Word, birth: int, lost: int)
    requires Balanced(st, birth, lost)
    ensures Balanced(ChargeSplit(st, bucket, a, b), birth, lost + b - a)
  {
    var q := WrapIsMultiple(Counter(st, bucket), a, st.elapsed);
    ShiftByMultiple(st.user + st.system + st.blocked + st.ready + birth + lost - st.elapsed, q);
  }

  /** Every live task's statistics balance. */
  ghost predicate AllBalanced(s: Sched, h: History) {
    && |s.task| == |h.birth| == |h.lost| == NR_TASKS
    && forall i :: i in Live(s) ==> Balanced(s.task[i].stats, h.birth[i], h.lost[i])
  }

  /** A task's statistics after an update that charged nothing but balanced amounts. */
  lemma ChargeTaskBalance(s: Sched, h: History, t: nat, bucket: Bucket, a: Word, b: Word)
    requires AllBalanced(s, h) && t < NR_TASKS
    ensures AllBalanced(ChargeTask(s, t, bucket, a, b), Lose(h, t, a, b))
  {
    if t in Live(s) {
      ChargeKeepsBalance(s.task[t].stats, bucket, a, b, h.birth[t], h.lost[t]);
    }
    assert Live(ChargeTask(s, t, bucket, a, b)) == Live(s);
  }

  lemma UpdateStateBalance(s: Sched, h: History, t: nat, dest: Dest, now: Word)
    requires Shape(s) && AllBalanced(s, h) && t < NR_TASKS && t in Live(s)
    ensures AllBalanced(UpdateProcessState(s, t, dest, now), h)
  {
    ChargeKeepsBalance(s.task[t].stats, SystemTicks, now, now, h.birth[t], h.lost[t]);
    WithoutAbsent(s.free, t);
    assert Live(UpdateProcessState(s, t, dest, now)) == Live(s);
  }

  lemma DispatchBalance(s: Sched, h: History, now: Clock)
    requires Shape(s) && AllBalanced(s, h)
    ensures AllBalanced(Dispatch(s, now), h)
  {
    var s1 := ChargeTask(s, s.cur, SystemTicks, now.leave, now.leave);
    ChargeTaskBalance(s, h, s.cur, SystemTicks, now.leave, now.leave);
    assert h.lost[s.cur := h.lost[s.cur] + now.leave - now.leave] == h.lost;
    var t := Chosen(s);
    if t in Live(s) {
      ChargeKeepsBalance(s1.task[t].stats, ReadyTicks, now.enter, now.enter, h.birth[t], h.lost[t]);
    }
    assert Live(Dispatch(s, now)) == Live(s);
  }

  /** Tick conservation for one event. */
  lemma StepBalance(k: Sys, h: History, e: Event)
    requires KernelInv(k) && SysShape(k) && Enabled(k, e) && StaysOut(e) && AllBalanced(k.s, h)
    ensures AllBalanced(Step(k, e).s, NextHistory(h, k, e))
  {
    if e.Block? || e.Unblock? || e.Fork? {
      RecordedBalance(k, h, e);
    } else {
      PlainBalance(k, h, e);
    }
  }

  /** The events that add to the history. */
  lemma RecordedBalance(k: Sys, h: History, e: Event)
    requires KernelInv(k) && SysShape(k) && Enabled(k, e) && AllBalanced(k.s, h)
    requires e.Block? || e.Unblock? || e.Fork?
    ensures AllBalanced(Step(k, e).s, NextHistory(h, k, e))
  {
    if e.Block? {
      BlockBalance(k, h, e.now);
    } else if e.Unblock? {
      UnblockBalance(k, h, e.t, e.now);
    } else {
      ForkBalance(k, h, e.now);
    }
  }

  /** The events that change no history. */
  lemma PlainBalance(k: Sys, h: History, e: Event)
    requires KernelInv(k) && SysShape(k) && Enabled(k, e) && StaysOut(e) && AllBalanced(k.s, h)
    requires !e.Block? && !e.Unblock? && !e.Fork?
    ensures AllBalanced(Step(k, e).s, NextHistory(h, k, e))
  {
    match e
    case Tick(now) => TickBalance(k, h, now);
    case Yield(now) => YieldBalance(k, h, now);
    case Exit(now) => ExitBalance(k, h, now);
    case EnterSystem(at) => BoundaryBalance(k.s, h, UserTicks, at);
    case LeaveSystem(at) => BoundaryBalance(k.s, h, SystemTicks, at);
    case GetStats(pid) => GetStatsBalance(k, h, pid);
    case Store(_, _, _) =>
    case TlbChange(_) =>
  }

  lemma YieldBalance(k: Sys, h: History, now: Clock)
    requires KernelInv(k) && SysShape(k) && AllBalanced(k.s, h)
    ensures AllBalanced(Dispatch(YieldPrep(k.s, now).s, now), h)
  {
    assert k.s.cur in {k.s.cur};
    UpdateStateBalance(k.s, h, k.s.cur, ToReady, now.a);
    DispatchBalance(YieldPrep(k.s, now).s, h, now);
  }

  lemma ExitBalance(k: Sys, h: History, now: Clock)
    requires KernelInv(k) && SysShape(k) && k.s.cur != k.s.idle && AllBalanced(k.s, h)
    ensures AllBalanced(Step(k, Exit(now)).s, h)
  {
    assert AllBalanced(ExitPrep(k.s).s, h);
    DispatchBalance(ExitPrep(k.s).s, h, now);
  }

  lemma BoundaryBalance(s: Sched, h: History, bucket: Bucket, at: Word)
    requires Shape(s) && AllBalanced(s, h)
    ensures AllBalanced(ChargeTask(s, s.cur, bucket, at, at), h)
  {
    ChargeTaskBalance(s, h, s.cur, bucket, at, at);
    assert h.lost[s.cur := h.lost[s.cur] + at - at] == h.lost;
  }

  lemma GetStatsBalance(k: Sys, h: History, pid: int)
    requires KernelInv(k) && SysShape(k) && AllBalanced(k.s, h)
    ensures AllBalanced(Step(k, GetStats(pid)).s, h)
  {
    assert Live(Step(k, GetStats(pid)).s) == Live(k.s);
  }

  lemma BlockBalance(k: Sys, h: History, now: Clock)
    requires KernelInv(k) && SysShape(k) && k.s.cur != k.s.idle && AllBalanced(k.s, h)
    ensures AllBalanced(Step(k, Block(now)).s, NextHistory(h, k, Block(now)))
  {
    assert k.s.cur in {k.s.cur};
    BlockPrepBalance(k.s, h, now);
    DispatchBalance(BlockPrep(k.s, now).s, Lose(h, k.s.cur, now.a, now.b), now);
  }

  lemma BlockPrepBalance(s: Sched, h: History, now: Clock)
    requires Shape(s) && AllBalanced(s, h) && s.cur in Live(s)
    ensures AllBalanced(BlockPrep(s, now).s, Lose(h, s.cur, now.a, now.b))
  {
    UpdateStateBalance(s, h, s.cur, ToBlocked, now.a);
    ChargeTaskBalance(UpdateProcessState(s, s.cur, ToBlocked, now.a), h, s.cur, SystemTicks, now.a, now.b);
  }

  lemma TickBalance(k: Sys, h: History, now: Clock)
    requires KernelInv(k) && SysShape(k) && AllBalanced(k.s, h)
    ensures AllBalanced(Step(k, Tick(now)).s, h)
  {
    assert k.s.cur in {k.s.cur};
    var s1 := k.s.(rq := k.s.rq - 1);
    assert Live(s1) == Live(k.s);
    assert AllBalanced(s1, h);
    if TickPrep(k.s, now).dispatch {
      UpdateStateBalance(s1, h, s1.cur, ToReady, now.a);
      DispatchBalance(TickPrep(k.s, now).s, h, now);
    } else {
      assert Live(TickPrep(k.s, now).s) == Live(k.s);
    }
  }

  /** The history after a pair of clock reads `a`, `b` that charged slot `t`. */
  function Lose(h: History, t: nat, a: Word, b: Word): History
    requires t < |h.lost|
  {
    h.(lost := h.lost[t := h.lost[t] + b - a])
  }

  lemma UnblockBalance(k: Sys, h: History, t: nat, now: Clock)
    requires KernelInv(k) && SysShape(k) && AllBalanced(k.s, h) && t in k.s.blocked
    ensures AllBalanced(Step(k, Unblock(t, now)).s, NextHistory(h, k, Unblock(t, now)))
  {
    UnblockIsUpdate(k.s, t, now);
    UpdateChargedBalance(k.s, h, t, BlockedTicks, ToReady, now.a, now.b, now.c);
  }

  /** A charge with two clock reads, then `update_process_state`. */
  lemma UpdateChargedBalance(s: Sched, h: History, t: nat, bucket: Bucket, dest: Dest, a: Word, b: Word, c: Word)
    requires Shape(s) && AllBalanced(s, h) && t < NR_TASKS && t in Live(s)
    ensures AllBalanced(UpdateProcessState(ChargeTask(s, t, bucket, a, b), t, dest, c), Lose(h, t, a, b))
  {
    ChargeTaskBalance(s, h, t, bucket, a, b);
    assert Live(ChargeTask(s, t, bucket, a, b)) == Live(s);
    UpdateStateBalance(ChargeTask(s, t, bucket, a, b), Lose(h, t, a, b), t, dest, c);
  }

  lemma ForkBalance(k: Sys, h: History, now: Clock)
    requires KernelInv(k) && SysShape(k) && k.s.cur != k.s.idle && k.s.lastPid < MAX_INT && AllBalanced(k.s, h)
    ensures AllBalanced(Step(k, Fork(now)).s, NextHistory(h, k, Fork(now)))
  {
    InvShape(k);
    if k.s.free != [] {
      assert k.s.free[0] in k.s.free;
      ForkAllocates(k);
      TailMembers(k.s.free);
      assert Live(ForkTask(k.s, true, now)) == Live(k.s) + {k.s.free[0]};
    }
  }

  /** The history of a run after its first `n` steps. */
  ghost function HistoryAt(ks: seq<Sys>, es: seq<Event>, n: nat): (h: History)
    requires IsRun(ks, es) && n <= |es|
    ensures |h.birth| == |h.lost| == NR_TASKS
  {
    if n == 0 then BootHistory(ks[0].s)
    else
      assert Follows(ks[n - 1], es[n - 1], ks[n]);
      NextHistory(HistoryAt(ks, es, n - 1), ks[n - 1], es[n - 1])
  }

  function BootHistory(s: Sched): (h: History)
    ensures |h.birth| == |h.lost| == NR_TASKS
  {
    History(seq(NR_TASKS, i requires 0 <= i < NR_TASKS => if i < |s.task| then s.task[i].stats.elapsed else 0),
        seq(NR_TASKS, i => 0))
  }

  /** Tick conservation: after any run, for every live task, user, system, blocked and ready ticks,
      its birth time, and the ticks between paired clock reads add up to the time of its latest
      accounting, modulo 2^32. */
  lemma {:induction false} TicksConserved(ks: seq<Sys>, es: seq<Event>, n: nat)
    requires IsRun(ks, es) && KeepsOut(es) && n <= |es|
    ensures AllBalanced(ks[n].s, HistoryAt(ks, es, n))
  {
    hide HistoryAt, AllBalanced, IsBoot, Follows;
    if n == 0 {
      BalanceAtBoot(ks, es);
    } else {
      TicksConserved(ks, es, n - 1);
      BalanceAt(ks, es, n - 1);
    }
  }

  lemma BalanceAtBoot(ks: seq<Sys>, es: seq<Event>)
    requires IsRun(ks, es)
    ensures AllBalanced(ks[0].s, HistoryAt(ks, es, 0))
  {
    var b: BootArgs :| RamShape(b.ram) && ks[0] == BootSys(b);
    BootBalance(b);
  }

  lemma BootBalance(b: BootArgs)
    ensures AllBalanced(BootSys(b).s, BootHistory(BootSys(b).s))
  {
    var s, h := BootSys(b).s, BootHistory(BootSys(b).s);
    forall i | i in Live(s)
      ensures Balanced(s.task[i].stats, h.birth[i], h.lost[i])
    {
      BootFree();
      assert s.free == BOOT_FREE;
      assert i == 0 || i == 1;
      assert s.task[i] == if i == 0 then Task(0, RUN, DEFAULT_QUANTUM, 0, InitStats(b.i0, b.i1))
          else Task(1, RUN, DEFAULT_QUANTUM, 1, InitStats(b.t0, b.t1));
      var st := s.task[i].stats;
      assert st.user == st.system == st.blocked == st.ready == 0;
      assert h.birth[i] == st.elapsed && h.lost[i] == 0;
    }
  }

  lemma BalanceAt(ks: seq<Sys>, es: seq<Event>, n: nat)
    requires IsRun(ks, es) && KeepsOut(es) && n < |es| && AllBalanced(ks[n].s, HistoryAt(ks, es, n))
    ensures AllBalanced(ks[n + 1].s, HistoryAt(ks, es, n + 1))
  {
    RunStep(ks, es, n);
    StepBalance(ks[n], HistoryAt(ks, es, n), es[n]);
  }

  // ---------------------------------------------------------------- attribution

  lemma DispatchStats(s: Sched, now: Clock, i: nat)
    requires Shape(s) && i < NR_TASKS
    ensures var st, r := s.task[i].stats, Dispatch(s, now).task[i].stats;
            && r.user == st.user && r.blocked == st.blocked
            && r.trans == (if i == Chosen(s) then Add32(st.trans, 1) else st.trans)
            && (i != Chosen(s) ==> r.ready == st.ready)
            && (i == Chosen(s) ==>
                  r.ready == Add32(st.ready, Sub32(now.enter, if i == s.cur then now.leave else st.elapsed)))
  {
  }

  /** Before a dispatch only the current task's system ticks have moved. */
  lemma PrepStats(k: Sys, e: Event, i: nat)
    requires KernelInv(k) && SysShape(k) && Enabled(k, e) && PrepOf(k, e).dispatch && i < NR_TASKS
    ensures Shape(PrepOf(k, e).s) && PrepOf(k, e).s.cur == k.s.cur
    ensures var st, r := k.s.task[i].stats, PrepOf(k, e).s.task[i].stats;
            && r.user == st.user && r.blocked == st.blocked && r.ready == st.ready && r.trans == st.trans
            && (i != k.s.cur ==> r == st)
  {
    if e.Unblock? {
      UnblockKeepsInv(k, e.t, e.now);
    }
  }

  /** Attribution: of a live task's counters, `user` moves only when it enters the system, `blocked`
      only when it is unblocked, and `ready` and `total_trans` only when it is dispatched, when
      `total_trans` goes up by one. A task that a yield dispatches again is charged for the time
      between the two clock reads of the dispatch. */
  lemma Attribution(k: Sys, e: Event, i: nat)
    requires KernelInv(k) && SysShape(k) && Enabled(k, e) && StaysOut(e) && i in Live(k.s)
    ensures i < NR_TASKS && |Step(k, e).s.task| == NR_TASKS
    ensures var st, r := k.s.task[i].stats, Step(k, e).s.task[i].stats;
            && (r.user == if e.EnterSystem? && i == k.s.cur then Add32(st.user, Sub32(e.at, st.elapsed)) else st.user)
            && (r.blocked == if e.Unblock? &&
                 i == e.t then Add32(st.blocked, Sub32(e.now.a, st.elapsed)) else st.blocked)
            && (!PrepOf(k, e).dispatch || i != Step(k, e).s.cur ==> r.ready == st.ready && r.trans == st.trans)
            && (PrepOf(k, e).dispatch && i == Step(k, e).s.cur ==> r.trans == Add32(st.trans, 1))
            && (PrepOf(k, e).dispatch && i == Step(k, e).s.cur ==>
                  r.ready == Add32(st.ready, Sub32(e.now.enter, if i == k.s.cur then e.now.leave else st.elapsed)))
  {
    if PrepOf(k, e).dispatch {
      PrepStats(k, e, i);
      DispatchingStep(k, e);
      DispatchStats(PrepOf(k, e).s, e.now, i);
      if e.Unblock? {
        UnblockKeepsInv(k, e.t, e.now);
      }
    } else {
      QuietStats(k, e, i);
    }
  }

  /** Nothing is left uncharged at a switch: the task that leaves the processor has been charged up to
      the first clock read of the dispatch, the one that gets it up to the second, an unblocked task
      up to the moment it became ready, and a task crossing the system boundary up to then. With
      `TicksConserved` and `Attribution` this fixes the system ticks as well. */
  lemma ChargedUpTo(k: Sys, e: Event)
    requires KernelInv(k) && SysShape(k) && Enabled(k, e) && StaysOut(e)
    ensures var r := Step(k, e).s;
            && |r.task| == NR_TASKS && r.cur < NR_TASKS
            && (PrepOf(k, e).dispatch ==> r.task[r.cur].stats.elapsed == e.now.enter)
            && (PrepOf(k, e).dispatch && r.cur != k.s.cur ==> r.task[k.s.cur].stats.elapsed == e.now.leave)
            && (e.Unblock? ==> r.task[e.t].stats.elapsed == e.now.c)
            && (e.EnterSystem? || e.LeaveSystem? ==> r.task[k.s.cur].stats.elapsed == e.at)
  {
    if PrepOf(k, e).dispatch {
      PrepStats(k, e, k.s.cur);
      DispatchingStep(k, e);
      DispatchElapsed(PrepOf(k, e).s, e.now);
    }
    if e.Unblock? {
      UnblockKeepsInv(k, e.t, e.now);
    }
  }

  lemma DispatchElapsed(s: Sched, now: Clock)
    requires Shape(s)
    ensures Dispatch(s, now).task[Chosen(s)].stats.elapsed == now.enter
    ensures s.cur != Chosen(s) ==> Dispatch(s, now).task[s.cur].stats.elapsed == now.leave
  {
  }

  lemma QuietStats(k: Sys, e: Event, i: nat)
    requires KernelInv(k) && SysShape(k) && Enabled(k, e) && StaysOut(e) && !PrepOf(k, e).dispatch && i in Live(k.s)
    ensures |Step(k, e).s.task| == NR_TASKS
    ensures var st, r := k.s.task[i].stats, Step(k, e).s.task[i].stats;
            && (r.user == if e.EnterSystem? && i == k.s.cur then Add32(st.user, Sub32(e.at, st.elapsed)) else st.user)
            && (r.blocked == if e.Unblock? &&
                 i == e.t then Add32(st.blocked, Sub32(e.now.a, st.elapsed)) else st.blocked)
            && r.ready == st.ready && r.trans == st.trans
  {
    if e.Unblock? {
      UnblockIsUpdate(k.s, e.t, e.now);
      UnblockedStats(k.s, e.t, e.now, i);
    } else if e.Fork? {
      ForkedStats(k, e.now, i);
    } else {
      UnmovedStats(k, e, i);
    }
  }

  lemma UnblockedStats(s: Sched, t: nat, now: Clock, i: nat)
    requires Inv(s) && t in s.blocked && t < NR_TASKS && i < NR_TASKS
    ensures var st := s.task[i].stats;
            var r := UpdateProcessState(ChargeTask(s, t, BlockedTicks, now.a, now.b), t, ToReady, now.c).task[i].stats;
            && r.user == st.user && r.ready == st.ready && r.trans == st.trans
            && r.blocked == if i == t then Add32(st.blocked, Sub32(now.a, st.elapsed)) else st.blocked
  {
  }

  lemma ForkedStats(k: Sys, now: Clock, i: nat)
    requires KernelInv(k) && SysShape(k) && Enabled(k, Fork(now)) && i in Live(k.s)
    ensures |Step(k, Fork(now)).s.task| == NR_TASKS && Step(k, Fork(now)).s.task[i].stats == k.s.task[i].stats
  {
    if k.s.free != [] {
      assert k.s.free[0] in k.s.free;
    }
  }

  lemma UnmovedStats(k: Sys, e: Event, i: nat)
    requires KernelInv(k) && SysShape(k) && Enabled(k, e) && StaysOut(e) && !PrepOf(k, e).dispatch && i in Live(k.s)
    requires !e.Unblock? && !e.Fork?
    ensures |Step(k, e).s.task| == NR_TASKS
    ensures var st, r := k.s.task[i].stats, Step(k, e).s.task[i].stats;
            && (r.user == if e.EnterSystem? && i == k.s.cur then Add32(st.user, Sub32(e.at, st.elapsed)) else st.user)
            && r.blocked == st.blocked && r.ready == st.ready && r.trans == st.trans
  {
    match e
    case Tick(now) =>
    case _ =>
  }
}
