/**
 The theorems about whole runs: what holds in every state a run from the boot state reaches,
 whatever the order of clock ticks, forks, exits, yields, blocks, unblocks and stores.
 */
module Runs {
  import opened BootState
  import opened Kernel
  import opened KernelTypes
  import opened Ownership
  import opened Paging
  import opened Scheduler

  ghost predicate IsTrace(ks: seq<Sys>, es: seq<Event>) {
    && |ks| == |es| + 1
    && forall i {:trigger es[i]} :: 0 <= i < |es| ==> Follows(ks[i], es[i], ks[i + 1])
  }

  ghost predicate Follows(k: Sys, e: Event, r: Sys) {
    SysShape(k) && Enabled(k, e) && r == Step(k, e)
  }

  ghost predicate IsRun(ks: seq<Sys>, es: seq<Event>) {
    IsTrace(ks, es) && IsBoot(ks[0])
  }

  /** No user program stores to a kernel page. Paging enforces this for task 1 only, as module
      Protection shows, so it is a hypothesis of every theorem about runs. */
  ghost predicate KeepsOut(es: seq<Event>) {
    forall i :: 0 <= i < |es| ==> StaysOut(es[i])
  }

  lemma FollowsKeepsInv(k: Sys, e: Event, r: Sys)
    requires KernelInv(k) && Follows(k, e, r) && StaysOut(e)
    ensures KernelInv(r)
  {
    StepKeepsInv(k, e);
  }

  lemma {:induction false} TraceInv(ks: seq<Sys>, es: seq<Event>, n: nat)
    requires IsTrace(ks, es) && KeepsOut(es) && KernelInv(ks[0]) && n <= |es|
    ensures KernelInv(ks[n])
  {
    if n > 0 {
      TraceInv(ks, es, n - 1);
      FollowsKeepsInv(ks[n - 1], es[n - 1], ks[n]);
    }
  }

  /** Every state of every run satisfies the kernel invariant. */
  lemma RunInv(ks: seq<Sys>, es: seq<Event>, n: nat)
    requires IsRun(ks, es) && KeepsOut(es) && n <= |es|
    ensures KernelInv(ks[n]) && SysShape(ks[n])
  {
    var b: BootArgs :| RamShape(b.ram) && ks[0] == BootSys(b);
    BootInv(b);
    TraceInv(ks, es, n);
    InvShape(ks[n]);
  }

  /** The `n`-th step of a run. */
  lemma RunStep(ks: seq<Sys>, es: seq<Event>, n: nat)
    requires IsRun(ks, es) && KeepsOut(es) && n < |es|
    ensures KernelInv(ks[n]) && SysShape(ks[n]) && Enabled(ks[n], es[n]) && StaysOut(es[n]) &&
        ks[n + 1] == Step(ks[n], es[n])
  {
    RunInv(ks, es, n);
    assert Follows(ks[n], es[n], ks[n + 1]);
  }

  // ---------------------------------------------------------------- making runs

  /** The run that has just booted. */
  lemma BootRun(b: BootArgs) returns (ks: seq<Sys>, es: seq<Event>)
    requires RamShape(b.ram)
    ensures IsRun(ks, es) && KeepsOut(es) && ks == [BootSys(b)] && es == []
  {
    ks, es := [BootSys(b)], [];
  }

  /** A run goes on with any enabled event. */
  lemma Extended(ks: seq<Sys>, es: seq<Event>, e: Event) returns (kt: seq<Sys>, et: seq<Event>)
    requires IsRun(ks, es) && SysShape(ks[|es|]) && Enabled(ks[|es|], e)
    ensures IsRun(kt, et) && kt == ks + [Step(ks[|es|], e)] && et == es + [e]
    ensures KeepsOut(es) && StaysOut(e) ==> KeepsOut(et)
  {
    kt, et := ks + [Step(ks[|es|], e)], es + [e];
    forall i | 0 <= i < |et|
      ensures Follows(kt[i], et[i], kt[i + 1])
    {
      if i < |es| {
        assert Follows(ks[i], es[i], ks[i + 1]);
      }
    }
  }

  /** A run goes on with any trace from its last state. */
  lemma Joined(ks: seq<Sys>, es: seq<Event>, kt: seq<Sys>, et: seq<Event>) returns (kr: seq<Sys>, er: seq<Event>)
    requires IsRun(ks, es) && IsTrace(kt, et) && kt[0] == ks[|es|]
    ensures IsRun(kr, er) && kr == ks + kt[1..] && er == es + et
  {
    kr, er := ks + kt[1..], es + et;
    forall i | 0 <= i < |er|
      ensures Follows(kr[i], er[i], kr[i + 1])
    {
      if i < |es| {
        assert Follows(ks[i], es[i], ks[i + 1]);
      } else {
        assert Follows(kt[i - |es|], et[i - |es|], kt[i - |es| + 1]);
      }
    }
  }

  lemma PrefixOfRun(ks: seq<Sys>, es: seq<Event>, n: nat)
    requires IsRun(ks, es) && n <= |es|
    ensures IsRun(ks[..n + 1], es[..n])
  {
    forall i | 0 <= i < n
      ensures Follows(ks[..n + 1][i], es[..n][i], ks[..n + 1][i + 1])
    {
      assert Follows(ks[i], es[i], ks[i + 1]);
    }
  }

  // ---------------------------------------------------------------- slots

  function Count(b: bool): nat {
    if b then 1 else 0
  }

  /** In how many of the five places slot `i` is. */
  function Places(s: Sched, i: nat): nat {
    Count(s.cur == i) + Count(i in s.ready) + Count(i in s.free) + Count(i in s.blocked)
    + Count(i == s.idle && s.cur != i && i !in s.ready)
  }

  /** Slot partition: every slot is always in exactly one of current, ready, free, blocked, or
      idle not yet run; and the state of a live slot tells which. */
  lemma SlotPartition(ks: seq<Sys>, es: seq<Event>, n: nat, i: nat)
    requires IsRun(ks, es) && KeepsOut(es) && n <= |es| && i < NR_TASKS
    ensures |ks[n].s.task| == NR_TASKS && Places(ks[n].s, i) == 1
    ensures var s := ks[n].s; i in Live(s) ==>
              && (s.task[i].state == READY <==> i in s.ready)
              && (s.task[i].state == BLOCKED <==> i in s.blocked)
              && (s.task[i].state == RUN <==> i == s.cur || (i == s.idle && i !in s.ready))
  {
    RunInv(ks, es, n);
    assert ks[n].s.cur in {ks[n].s.cur};
  }

  // ---------------------------------------------------------------- frames

  /** Exact ownership: a user frame is in use iff it is a shared code frame or some process's data
      frame; no two processes, and no two pages of one, share a data frame; frames in use are
      even; and every slot maps the kernel's pages to themselves. */
  lemma FrameOwnership(ks: seq<Sys>, es: seq<Event>, n: nat)
    requires IsRun(ks, es) && KeepsOut(es) && n <= |es|
    ensures var m, procs := ks[n].m, Procs(ks[n].s);
            && MemShape(m)
            && (forall f :: NUM_PAG_KERNEL <= f < TOTAL_PAGES ==> (m.phys[f] <==> IsCodeFrame(f) || Owned(m, procs, f)))
            && (forall f :: NUM_PAG_KERNEL <= f < TOTAL_PAGES && m.phys[f] ==> f % 2 == 0)
            && (forall i, d, j, e ::
                  && i in procs && j in procs && 0 <= d < NUM_PAG_DATA && 0 <= e < NUM_PAG_DATA
                  && DataFrame(m, i, d) == DataFrame(m, j, e) ==>
                  i == j && d == e)
            && (forall i, p :: 0 <= i < NR_TASKS && 0 <= p < NUM_PAG_KERNEL ==> m.pt[i][p].frame == p)
  {
    RunInv(ks, es, n);
    var m, procs := ks[n].m, Procs(ks[n].s);
    forall f | NUM_PAG_KERNEL <= f < TOTAL_PAGES && (IsCodeFrame(f) || Owned(m, procs, f))
      ensures m.phys[f]
    {
      if !IsCodeFrame(f) {
        var i, d :| i in procs && i < NR_TASKS && 0 <= d < NUM_PAG_DATA && DataFrame(m, i, d) == f;
        assert DataEntry(m, i, d).present;
      }
    }
    forall f | NUM_PAG_KERNEL <= f < TOTAL_PAGES && m.phys[f]
      ensures f % 2 == 0
    {
      UsedAreUsable(m, procs);
      assert f in UsedFrames(m.phys) && Usable(f);
    }
  }

  /** Capacity: the user frames in use always number 8 + 20 for each process, at most 188 of the
      384 usable ones, so frames never run out. */
  lemma Capacity(ks: seq<Sys>, es: seq<Event>, n: nat)
    requires IsRun(ks, es) && KeepsOut(es) && n <= |es|
    ensures MemShape(ks[n].m)
    ensures |UsedFrames(ks[n].m.phys)| == NUM_PAG_CODE + NUM_PAG_DATA * |Procs(ks[n].s)|
    ensures |Procs(ks[n].s)| == NR_TASKS - 1 - |ks[n].s.free|
    ensures |UsedFrames(ks[n].m.phys)| <= 188
    ensures |FreeFrames(ks[n].m.phys)| == USABLE_FRAMES - |UsedFrames(ks[n].m.phys)|
  {
    RunInv(ks, es, n);
    SlotCount(ks[n].s);
    UsedFrameCount(ks[n].m, Procs(ks[n].s));
  }

  /** The only way a fork fails in any run is -ENOMEM, exactly when no slot is free; otherwise it
      returns a PID that no live task has. */
  lemma ForkOutcome(ks: seq<Sys>, es: seq<Event>, n: nat)
    requires IsRun(ks, es) && KeepsOut(es) && n <= |es| && ks[n].s.cur != ks[n].s.idle
    ensures SysShape(ks[n])
    ensures ForkResult(ks[n]) == -ENOMEM <==> ks[n].s.free == []
    ensures ForkResult(ks[n]) != -EAGAIN
    ensures ks[n].s.free != [] ==> forall i :: i in Live(ks[n].s) ==> ks[n].s.task[i].pid < ForkResult(ks[n])
  {
    RunInv(ks, es, n);
    InvShape(ks[n]);
    if ks[n].s.free != [] {
      ForkAllocates(ks[n]);
    }
  }

  // ---------------------------------------------------------------- process identifiers

  /** PIDs identify processes: live tasks have distinct ones, free slots have -1, and the scan of
      `sys_get_stats` finds the live task with a given PID or there is none. */
  lemma PidsIdentify(ks: seq<Sys>, es: seq<Event>, n: nat, pid: int)
    requires IsRun(ks, es) && KeepsOut(es) && n <= |es| && 0 <= pid
    ensures |ks[n].s.task| == NR_TASKS
    ensures forall i, j :: i in Live(ks[n].s) && j in Live(ks[n].s) && i != j ==>
        ks[n].s.task[i].pid != ks[n].s.task[j].pid
    ensures forall i :: 0 <= i < NR_TASKS ==> (i !in Live(ks[n].s) <==> ks[n].s.task[i].pid == -1)
    ensures var r := FindPid(ks[n].s.task, pid, 0);
            if r == -1 then forall i :: i in Live(ks[n].s) ==> ks[n].s.task[i].pid != pid
            else r in Live(ks[n].s) && forall i :: i in Live(ks[n].s) && ks[n].s.task[i].pid == pid ==> i == r
  {
    RunInv(ks, es, n);
  }

  /** The PID counter never goes back. */
  lemma {:induction false} LastPidGrows(ks: seq<Sys>, es: seq<Event>, m: nat, n: nat)
    requires IsRun(ks, es) && KeepsOut(es) && m <= n <= |es|
    ensures ks[m].s.lastPid <= ks[n].s.lastPid
  {
    hide Follows, IsBoot, KernelInv, Step, KeepsOut;
    if m < n {
      LastPidGrows(ks, es, m, n - 1);
      LastPidAt(ks, es, n - 1);
    }
  }

  lemma LastPidAt(ks: seq<Sys>, es: seq<Event>, n: nat)
    requires IsRun(ks, es) && KeepsOut(es) && n < |es|
    ensures ks[n].s.lastPid <= ks[n + 1].s.lastPid
    ensures es[n].Fork? && ks[n].s.free != [] ==>
              SysShape(ks[n]) && ForkResult(ks[n]) == ks[n].s.lastPid + 1 == ks[n + 1].s.lastPid
  {
    RunStep(ks, es, n);
    LastPidStep(ks[n], es[n]);
  }

  lemma LastPidStep(k: Sys, e: Event)
    requires KernelInv(k) && SysShape(k) && Enabled(k, e) && StaysOut(e)
    ensures if e.Fork? && k.s.free != [] then ForkResult(k) == k.s.lastPid + 1 == Step(k, e).s.lastPid
            else Step(k, e).s.lastPid == k.s.lastPid
  {
    if e.Fork? && k.s.free != [] {
      ForkStep(k, e.now);
    } else if e.Unblock? {
      UnblockIsUpdate(k.s, e.t, e.now);
    }
  }

  /** PIDs are never used again: of two successful forks of a run the later one returns the greater. */
  lemma PidsAreFresh(ks: seq<Sys>, es: seq<Event>, m: nat, n: nat)
    requires IsRun(ks, es) && KeepsOut(es) && m < n < |es|
    requires es[m].Fork? && ks[m].s.free != [] && es[n].Fork? && ks[n].s.free != []
    ensures SysShape(ks[m]) && SysShape(ks[n]) && 1000 < ForkResult(ks[m]) < ForkResult(ks[n])
  {
    RunInv(ks, es, m);
    LastPidAt(ks, es, m);
    LastPidGrows(ks, es, m + 1, n);
    LastPidAt(ks, es, n);
  }

  // ---------------------------------------------------------------- quantum

  /** Quantum safety: the counter is between 1 and 10 at every boundary, unblocking never preempts,
      and a clock tick that switches always switches to another task. */
  lemma QuantumSafety(ks: seq<Sys>, es: seq<Event>, n: nat, now: Clock)
    requires IsRun(ks, es) && KeepsOut(es) && n <= |es|
    ensures SysShape(ks[n]) && 1 <= ks[n].s.rq <= DEFAULT_QUANTUM
    ensures forall t :: t in ks[n].s.blocked ==>
        t < NR_TASKS && !UnblockPrep(ks[n].s, t, now).dispatch && Step(ks[n], Unblock(t, now)).s.cur == ks[n].s.cur
    ensures TickPrep(ks[n].s, now).dispatch <==> ks[n].s.rq == 1 && ks[n].s.ready != []
    ensures TickPrep(ks[n].s, now).dispatch ==> Step(ks[n], Tick(now)).s.cur == ks[n].s.ready[0] != ks[n].s.cur
  {
    RunInv(ks, es, n);
    QuantumAt(ks[n], now);
  }

  lemma QuantumAt(k: Sys, now: Clock)
    requires KernelInv(k) && SysShape(k)
    ensures 1 <= k.s.rq <= DEFAULT_QUANTUM
    ensures forall t :: t in k.s.blocked ==>
        t < NR_TASKS && !UnblockPrep(k.s, t, now).dispatch && Step(k, Unblock(t, now)).s.cur == k.s.cur
    ensures TickPrep(k.s, now).dispatch <==> k.s.rq == 1 && k.s.ready != []
    ensures TickPrep(k.s, now).dispatch ==> Step(k, Tick(now)).s.cur == k.s.ready[0] != k.s.cur
  {
    assert k.s.cur in {k.s.cur};
    forall t | t in k.s.blocked
      ensures t < NR_TASKS && !UnblockPrep(k.s, t, now).dispatch && Step(k, Unblock(t, now)).s.cur == k.s.cur
    {
      UnblockKeepsInv(k, t, now);
    }
    if k.s.ready != [] {
      assert k.s.ready[0] in k.s.ready;
    }
  }
}
