/** The protocol on linked queues: every step of `Protocol` is carried out by writes to the thread objects and queue
    ends of `Threads`, and in every run all queues stay well linked and hold what the protocol says. */
module Simulation {
  import opened Base
  import opened SchedulerSpec
  import opened Protocol
  import opened ProtocolInvariant
  import opened Wakeups
  import Threads

  type Scheduler = Threads.Scheduler

  /** The linked scheduler is well formed, its queues are the sequences of `s`, and it has every wait queue. */
  ghost predicate Represents(k: Scheduler, s: Sys)
    reads k
  {
    k.Valid() && k.Abs() == s.c && s.c.waits.Keys == s.res.Keys
  }

  // ------------------------------------------------ threads on no queue are free of links

  lemma FreeOfLinks(k: Scheduler, s: Sys, t: Tid)
    requires Represents(k, s)
    ensures OnNoQueue(s, t) ==> t !in k.on
  {
    if t in k.on {
      var q := k.on[t];
      assert t in k.items[q];
      if q !in {Threads.READY, Threads.SLEEP, Threads.ZOMBIE} { assert t in s.c.Waiters(q); }
    }
  }

  lemma NotNull(k: Scheduler, t: Tid)
    requires k.Valid()
    ensures t in k.state ==> t != Threads.NULL && t in k.m.wakeTick
  {
  }

  lemma CurrentIsFree(k: Scheduler, s: Sys)
    requires Represents(k, s) && Structure(s)
    ensures k.CurrentFree()
  {
    hide Structure;
    UnlinkedIsFree(s, s.c.cur);
    FreeOfLinks(k, s, s.c.cur);
  }

  lemma HeldIsFree(k: Scheduler, s: Sys, t: Tid)
    requires Represents(k, s) && Structure(s) && s.PcOf(s.c.cur).Holds() && s.PcOf(s.c.cur).t == t
    ensures t in k.m.wakeTick && t !in k.on && t != Threads.NULL
    ensures if s.PcOf(s.c.cur).Reaping? then t !in {s.c.cur, s.c.idle, s.c.boot} else s.c.State(t) == Blocked
  {
    assert ThreadOk(s, s.c.cur) && HeldOk(s, t);
    UnlinkedIsFree(s, t);
    FreeOfLinks(k, s, t);
    assert t in k.state;
  }

  // ------------------------------------------------ one step

  ghost predicate SameNames(s: Sys, s': Sys) {
    s'.c.waits.Keys == s.c.waits.Keys && s'.res.Keys == s.res.Keys
  }

  lemma ContinueNames(s: Sys, p: Pc)
    requires s.c.waits.Keys == s.res.Keys && (p.HasQueue() ==> p.q in s.res)
    ensures SameNames(s, Continue(s, p))
  {
    hide ContinueTaking, ContinueWaking, ContinueThread, SameNames;
    TakingNames(s, p);
    WakingNames(s, p);
    ThreadNames(s, p);
  }

  lemma WakingNames(s: Sys, p: Pc)
    requires s.c.waits.Keys == s.res.Keys && (p.HasQueue() ==> p.q in s.res)
    ensures SameNames(s, ContinueWaking(s, p))
  {
  }

  lemma ThreadNames(s: Sys, p: Pc)
    ensures SameNames(s, ContinueThread(s, p))
  {
    hide Sched.Schedule;
  }

  lemma TakingNames(s: Sys, p: Pc)
    requires s.c.waits.Keys == s.res.Keys && (p.HasQueue() ==> p.q in s.res)
    ensures SameNames(s, ContinueTaking(s, p))
  {
    hide Sched.Schedule, Sched.Park;
  }

  lemma SyncNames(s: Sys, l: Label)
    ensures SameNames(s, CallSync(s, l))
  {
  }

  lemma CallNames(s: Sys, l: Label)
    ensures SameNames(s, CallThread(s, l))
  {
    hide Sched.Schedule, Sched.SleepInsert, CreateStep;
    if l.Create? { CreateNames(s, l.enqueue); }
  }

  lemma CreateNames(s: Sys, enqueue: bool)
    ensures SameNames(s, CreateStep(s, enqueue))
  {
  }

  lemma KeyNames(s: Sys, q: Qid)
    requires q in s.res && s.c.waits.Keys == s.res.Keys
    ensures SameNames(s, KeyIrqStep(s, q))
  {
  }

  /** No step adds or removes a wait queue. */
  lemma SameQueueNames(s: Sys, l: Label)
    requires s.c.waits.Keys == s.res.Keys && (s.PcOf(s.c.cur).HasQueue() ==> s.PcOf(s.c.cur).q in s.res)
    ensures Step(s, l).c.waits.Keys == Step(s, l).res.Keys
  {
    hide Sched.TimerIrq, Continue, CallSync, CallThread, KeyIrqStep;
    if l.KeyIrq? && l.q in s.res { KeyNames(s, l.q); }
    ContinueNames(s, s.PcOf(s.c.cur));
    SyncNames(s, l);
    CallNames(s, l);
  }

  lemma AtQueue(s: Sys)
    requires Structure(s)
    ensures s.PcOf(s.c.cur).HasQueue() ==> s.PcOf(s.c.cur).q in s.res
  {
    assert ThreadOk(s, s.c.cur);
  }

  method PerformWait(k: Scheduler, s: Sys, q: Qid)
    requires Represents(k, s) && Structure(s) && q in s.res && !s.PcOf(s.c.cur).Holds()
    modifies k
    ensures k.Valid() && k.Abs() == CheckOrPark(s, q, Test(q)).c == CheckOrPark(s, q, Retry(q)).c
  {
    hide Structure, Threads.WellLinked, Sched.Schedule;
    if s.Avail(q) <= 0 && k.current != k.idle && k.state[k.current] == Running {
      CurrentIsFree(k, s);
      k.WaitPush(q);
      var panicked := k.Block();
      k.Schedule();
    }
  }

  method PerformWaking(k: Scheduler, s: Sys, p: Pc)
    requires Represents(k, s) && Structure(s) && p == s.PcOf(s.c.cur) && (p.Pop? || p.PopAll? || p.Hold? || p.HoldAll?)
    modifies k
    ensures k.Valid() && k.Abs() == ContinueWaking(s, p).c
  {
    hide Structure, Threads.WellLinked, Sched.Wake, Sched.WaitPop;
    AtQueue(s);
    WakingIs(s, p);
    if p.Pop? || p.PopAll? {
      var t := k.WaitPop(p.q);
    } else {
      HeldIsFree(k, s, p.t);
      k.Wake(p.t);
    }
  }

  lemma WakingIs(s: Sys, p: Pc)
    ensures p.Pop? || p.PopAll? ==> ContinueWaking(s, p).c == s.c.WaitPop(p.q)
    ensures p.Hold? || p.HoldAll? ==> ContinueWaking(s, p).c == s.c.Wake(p.t)
  {
    hide Sched.Wake;
  }

  method PerformThread(k: Scheduler, s: Sys, p: Pc)
    requires Represents(k, s) && Structure(s) && p == s.PcOf(s.c.cur)
    modifies k
    ensures k.Valid() && k.Abs() == ContinueThread(s, p).c
  {
    hide Structure, Threads.WellLinked, Sched.Schedule;
    if p.SleepYield? || p.ExitYield? {
      CurrentIsFree(k, s);
      k.Schedule();
    } else if p.Reap? {
      var z := k.ZombiePop();
    } else if p.Reaping? {
      HeldIsFree(k, s, p.t);
      k.FreeThread(p.t);
    }
  }

  method PerformGo(k: Scheduler, s: Sys)
    requires Represents(k, s) && Structure(s)
    modifies k
    ensures k.Valid() && k.Abs() == Continue(s, s.PcOf(s.c.cur)).c
  {
    hide Structure, Threads.WellLinked, CheckOrPark, ContinueWaking, ContinueThread;
    AtQueue(s);
    var p := s.PcOf(k.current);
    if p.Wait? || p.Parked? { PerformWait(k, s, p.q); }
    else if p.Pop? || p.PopAll? || p.Hold? || p.HoldAll? { PerformWaking(k, s, p); }
    else if !p.Test? && !p.Retry? { PerformThread(k, s, p); }
  }

  method PerformKey(k: Scheduler, s: Sys, q: Qid)
    requires Represents(k, s) && Structure(s) && q in s.res
    modifies k
    ensures k.Valid() && k.Abs() == KeyIrqStep(s, q).c
  {
    hide Structure, Threads.WellLinked;
    var r := s.res[q];
    if r.kind.Ring? && r.count < r.kind.capacity {
      if s.c.Waiters(q) != [] {
        KeyWakeKeeps(s, q);
        NotNull(k, s.c.Waiters(q)[0]);
      }
      var t := k.WaitPop(q);
      k.Wake(t);
    }
  }

  method PerformStart(k: Scheduler, s: Sys, t: Tid)
    requires Represents(k, s) && Structure(s)
    modifies k
    ensures k.Valid() && k.Abs() == StartStep(s, t).c
  {
    hide Structure, Threads.WellLinked, Sched.ReadyPush;
    if t in k.state {
      NewIsFree(k, s, t);
      NotNull(k, t);
      var panicked := k.Start(t);
    }
  }

  method PerformCreate(k: Scheduler, s: Sys, enqueue: bool)
    requires Represents(k, s) && Structure(s)
    modifies k
    ensures k.Valid() && k.Abs() == CreateStep(s, enqueue).c
  {
    hide Structure, Threads.WellLinked, Sched.ReadyPush, Sched.NewThread;
    RunIsRunning(s);
    k.Create(s.nextId, enqueue);
  }

  method PerformSleep(k: Scheduler, s: Sys, n: nat)
    requires Represents(k, s) && Structure(s) && s.PcOf(s.c.cur).Run?
    modifies k
    ensures k.Valid() && k.Abs() == SleepStep(s, n).c
  {
    hide Structure, Threads.WellLinked, Sched.Schedule, Sched.SleepTicks;
    CurrentIsFree(k, s);
    RunIsRunning(s);
    if n == 0 { k.Schedule(); }
    else if k.current != k.idle { k.SleepTicks(n); }
  }

  method PerformLeave(k: Scheduler, s: Sys, l: Label)
    requires Represents(k, s) && Structure(s) && s.PcOf(s.c.cur).Run? && (l.Yield? || l.Sleep? || l.Exit?)
    modifies k
    ensures k.Valid() && k.Abs() == CallThread(s, l).c
  {
    hide Structure, Threads.WellLinked, Sched.Schedule, Sched.ExitCurrent, SleepStep;
    CurrentIsFree(k, s);
    RunIsRunning(s);
    if l.Yield? { k.Schedule(); }
    else if l.Sleep? { if l.n < WRAP { PerformSleep(k, s, l.n); } }
    else if k.current != k.idle { k.ExitCurrent(); }
  }

  method PerformCall(k: Scheduler, s: Sys, l: Label)
    requires Represents(k, s) && Structure(s) && s.PcOf(s.c.cur).Run?
    modifies k
    ensures k.Valid() && k.Abs() == CallThread(s, l).c
  {
    hide Structure, Threads.WellLinked, Sched.StartPreemption, Sched.Schedule, Sched.ExitCurrent, SleepStep, CreateStep,
         StartStep;
    if l.Yield? || l.Sleep? || l.Exit? { PerformLeave(k, s, l); }
    else if l.Create? { PerformCreate(k, s, l.enqueue); }
    else if l.Start? { PerformStart(k, s, l.t); }
    else if l.PreemptionInit? { k.StartPreemption(l.perSlice); }
  }

  lemma RunIsRunning(s: Sys)
    requires Structure(s)
    ensures s.PcOf(s.c.cur).Run? ==> s.c.State(s.c.cur) == Running
    ensures s.nextId > 0 && s.nextId !in s.c.st
  {
    assert ThreadOk(s, s.c.cur) && ThreadOk(s, s.nextId) && ThreadOk(s, s.c.boot);
  }

  lemma NewIsFree(k: Scheduler, s: Sys, t: Tid)
    requires Represents(k, s) && Structure(s)
    ensures s.c.State(t) == New ==> t !in k.on
  {
    hide Structure;
    UnlinkedIsFree(s, t);
    FreeOfLinks(k, s, t);
  }

  /** Every step of the protocol, on linked queues. */
  method Perform(k: Scheduler, s: Sys, l: Label)
    requires Represents(k, s) && Structure(s)
    modifies k
    ensures Represents(k, Step(s, l)) && Structure(Step(s, l))
  {
    hide Structure, Threads.WellLinked, Continue, CallThread, KeyIrqStep, Sched.TimerIrq;
    AtQueue(s);
    SameQueueNames(s, l);
    StepKeeps(s, l);
    if s.panic.None? {
      if l.Timer? { CurrentIsFree(k, s); k.TimerIrq(); }
      else if l.KeyIrq? { if l.q in s.res { PerformKey(k, s, l.q); } }
      else if l.Go? { PerformGo(k, s); }
      else if s.PcOf(k.current).Run? && !(l.Acquire? || l.TryAcquire? || l.Release? || l.WakeAll?) { PerformCall(k, s, l); }
    }
  }

  // ------------------------------------------------ every run

  /** In every run from the start the linked scheduler stays well formed and its queues are those of the protocol.
      Thread objects are not at address 0, and the wait queues are numbered apart from the scheduler's own three. */
  method Run(s0: Sys, labels: seq<Label>) returns (k: Scheduler, s: Sys)
    requires Init(s0) && Threads.NULL !in s0.c.st && s0.res.Keys !! {Threads.READY, Threads.SLEEP, Threads.ZOMBIE}
    ensures s == RunAll(s0, labels) && k.Valid() && k.Abs() == s.c
  {
    hide Structure, Threads.WellLinked, Step, Inv;
    k := new Threads.Scheduler(s0.c.boot, s0.c.idle, s0.res.Keys);
    s := s0;
    InitInv(s0);
    InvStructure(s0);
    assert s0.c.waits == map q | q in s0.res.Keys :: [];
    for i := 0 to |labels|
      invariant Represents(k, s) && Structure(s) && fresh(k)
      invariant RunAll(s, labels[i..]) == RunAll(s0, labels)
    {
      Perform(k, s, labels[i]);
      assert labels[i..][0] == labels[i] && labels[i..][1..] == labels[i + 1..];
      s := Step(s, labels[i]);
    }
  }

  lemma InvStructure(s: Sys)
    requires Inv(s)
    ensures Structure(s)
  {
  }
}
