/** When a tick reaches the scheduler, and that a thread keeps the processor for its slice. */
module Slices {
  import opened Base
  import opened SchedulerSpec
  import opened Protocol
  import opened ProtocolInvariant
  import opened Wakeups
  import opened Timing

  // ------------------------------------------------ one tick

  /** The first sleeper is due at the coming tick. */
  predicate DueNext(c: Globals) {
    c.sleep != [] && TickReached((c.ticks + 1) % 0x1_0000_0000, c.WakeTick(c.sleep[0]))
  }

  lemma {:induction false} WakeDueAsks(c: Globals)
    ensures var d := c.WakeDueSleepers();
            d.resched <==> c.resched || (c.sleep != [] && TickReached(c.ticks, c.WakeTick(c.sleep[0])))
    ensures c.sleep == [] || !TickReached(c.ticks, c.WakeTick(c.sleep[0])) ==> c.WakeDueSleepers() == c
    decreases |c.sleep|
  {
    if c.sleep != [] && TickReached(c.ticks, c.WakeTick(c.sleep[0])) {
      WakeDueAsks(c.(sleep := c.sleep[1..]).ReadyPush(c.sleep[0]).(resched := true));
    }
  }

  /** A tick reaches the scheduler exactly when a switch was asked for already, a sleeper is due, or preemption is on,
      somebody is ready and the slice is used up. */
  lemma TickReachesIff(c: Globals)
    ensures c.TimerTick().resched <==>
              c.resched || DueNext(c) || (c.preempt && c.ready != [] && c.slice + 1 >= c.perSlice)
  {
    hide Sched.WakeDueSleepers;
    var c1 := c.(ticks := (c.ticks + 1) % WRAP);
    WakeDueAsks(c1);
  }

  /** A tick that does not reach it leaves the thread running, with one more tick of its slice used if others wait. */
  lemma QuietTick(c: Globals)
    requires !c.resched && !DueNext(c) && !(c.preempt && c.ready != [] && c.slice + 1 >= c.perSlice)
    ensures var d := c.TimerIrq();
            && d == c.(ticks := (c.ticks + 1) % 0x1_0000_0000, slice := d.slice)
            && d.slice == if !c.preempt then c.slice else if c.ready == [] then 0 else c.slice + 1
  {
    hide Sched.WakeDueSleepers, Sched.Schedule;
    TickReachesIff(c);
    WakeDueAsks(c.(ticks := (c.ticks + 1) % WRAP));
  }

  // ------------------------------------------------ runs in which nothing asks for a switch

  /** The step neither wakes anybody nor is a call of the scheduler by the thread itself. */
  predicate Quiet(s: Sys, l: Label) {
    var p := s.PcOf(s.c.cur);
    match l
    case Timer => !DueNext(s.c)
    case KeyIrq(q) => s.c.Waiters(q) == []
    case Go => !p.Hold? && !p.HoldAll? && !p.SleepYield? && !p.ExitYield? && ((p.Wait? || p.Parked?) ==> s.Avail(p.q) > 0)
    case Yield => false
    case Sleep(_) => false
    case Exit => false
    case PreemptionInit(_) => false
    case _ => true
  }

  ghost predicate QuietRun(s: Sys, labels: seq<Label>)
    decreases |labels|
  {
    labels == [] || (Quiet(s, labels[0]) && QuietRun(Step(s, labels[0]), labels[1..]))
  }

  /** The processor stays with the thread and the slice is not restarted. */
  ghost predicate Undisturbed(c: Globals, d: Globals) {
    d.cur == c.cur && d.resched == c.resched && d.slice == c.slice && d.perSlice == c.perSlice && d.preempt == c.preempt
  }

  lemma QuietGo(s: Sys)
    requires Quiet(s, Go)
    ensures Undisturbed(s.c, Continue(s, s.PcOf(s.c.cur)).c)
  {
    hide ContinueTaking, ContinueWaking, ContinueThread, Undisturbed;
    var p := s.PcOf(s.c.cur);
    if p.Test? || p.Retry? || p.Wait? || p.Parked? { QuietTaking(s, p); }
    else if p.Pop? || p.PopAll? || p.Hold? || p.HoldAll? { QuietWaking(s, p); }
    else { QuietThread(s, p); }
  }

  lemma QuietTaking(s: Sys, p: Pc)
    requires (p.Wait? || p.Parked?) ==> s.Avail(p.q) > 0
    ensures Undisturbed(s.c, ContinueTaking(s, p).c)
  {
    hide Sched.Schedule, Sched.Park;
  }

  lemma QuietWaking(s: Sys, p: Pc)
    requires !p.Hold? && !p.HoldAll?
    ensures Undisturbed(s.c, ContinueWaking(s, p).c)
  {
    hide Sched.Wake;
  }

  lemma QuietThread(s: Sys, p: Pc)
    requires !p.SleepYield? && !p.ExitYield?
    ensures Undisturbed(s.c, ContinueThread(s, p).c)
  {
    hide Sched.Schedule;
  }

  lemma QuietCall(s: Sys, l: Label)
    requires Quiet(s, l) && !l.Go? && !l.Timer?
    ensures Undisturbed(s.c, CallSync(s, l).c) && Undisturbed(s.c, CallThread(s, l).c)
  {
    hide Sched.Schedule, Sched.SleepTicks, Sched.ExitCurrent, Sched.StartPreemption, CreateStep, StartStep;
    if l.Create? { QuietCreate(s, l.enqueue); }
    if l.Start? { QuietStart(s, l.t); }
  }

  lemma QuietCreate(s: Sys, enqueue: bool)
    ensures Undisturbed(s.c, CreateStep(s, enqueue).c)
  {
    hide Sched.NewThread, Sched.ReadyPush;
    QuietPush(s.c, s.nextId);
    QuietPush(s.c.NewThread(s.nextId), s.nextId);
  }

  lemma QuietStart(s: Sys, t: Tid)
    ensures Undisturbed(s.c, StartStep(s, t).c)
  {
    hide Sched.ReadyPush;
    QuietPush(s.c, t);
  }

  lemma QuietPush(c: Globals, t: Tid)
    ensures Undisturbed(c, c.ReadyPush(t)) && Undisturbed(c, c.NewThread(t))
  {
  }

  lemma QuietStep(s: Sys, l: Label)
    requires s.panic.None? && Quiet(s, l) && !l.Timer?
    ensures Undisturbed(s.c, Step(s, l).c) && !Schedules(s, l)
  {
    hide Sched.Schedule, Continue, CallSync, CallThread, Sched.Wake;
    if l.Go? { QuietGo(s); } else { QuietCall(s, l); }
  }

  /** One step of a run in which nothing asks for a switch and the slice is not used up. */
  lemma QuietOne(s: Sys, l: Label)
    requires !s.c.resched && Quiet(s, l) && (s.c.preempt && l.Timer? ==> s.c.slice + 1 < s.c.perSlice)
    ensures var d := Step(s, l).c;
            && d.cur == s.c.cur && !d.resched && d.perSlice == s.c.perSlice && d.preempt == s.c.preempt
            && (s.c.preempt ==> d.slice <= s.c.slice + if l.Timer? then 1 else 0) && !Schedules(s, l)
  {
    hide Continue, CallSync, CallThread, KeyIrqStep, Quiet, Sched.TimerIrq, Sched.TimerTick;
    if s.panic.None? {
      if l.Timer? {
        assert !DueNext(s.c) by { QuietTimer(s); }
        QuietTick(s.c);
        TickReachesIff(s.c);
      } else {
        QuietStep(s, l);
      }
    }
  }

  lemma QuietTimer(s: Sys)
    requires Quiet(s, Timer)
    ensures !DueNext(s.c)
  {
  }

  lemma {:induction false} KeepsSlice(s: Sys, labels: seq<Label>)
    requires !s.c.resched && QuietRun(s, labels) && (s.c.preempt ==> s.c.slice + Ticks(labels) < s.c.perSlice)
    ensures RunAll(s, labels).c.cur == s.c.cur && Calls(s, labels) == 0
    decreases |labels|
  {
    hide Step, Schedules, Quiet;
    if labels != [] {
      QuietOne(s, labels[0]);
      KeepsSlice(Step(s, labels[0]), labels[1..]);
    }
  }

  lemma FreshSchedule(c: Globals, q: Qid)
    ensures c.Schedule().slice == 0 && !c.Schedule().resched
    ensures c.Park(q).Schedule().slice == 0 && !c.Park(q).Schedule().resched
  {
  }

  /** Whatever calls the scheduler starts a slice, with no switch asked for. */
  lemma FreshSlice(s: Sys, l: Label)
    requires Schedules(s, l)
    ensures var d := Step(s, l).c; d.slice == 0 && !d.resched && d.perSlice == s.c.perSlice && d.preempt == s.c.preempt
  {
    hide Sched.Schedule, Sched.Park, Sched.TimerTick;
    var p := s.PcOf(s.c.cur);
    FreshSchedule(s.c, if p.HasQueue() then p.q else 0);
    if l.Timer? {
      FreshSchedule(s.c.TimerTick(), 0);
      TickPlan(s.c);
    }
  }

  lemma TickPlan(c: Globals)
    ensures c.TimerTick().perSlice == c.perSlice && c.TimerTick().preempt == c.preempt
  {
  }

  /** In every run, a thread that the scheduler has just chosen keeps the processor for a whole slice: as long as fewer
      ticks than the slice holds have passed, no sleeper came due, nobody was woken and the thread itself made no call of
      the scheduler, it is still the current one and nobody has called the scheduler. */
  lemma SliceGuaranteed(s0: Sys, before: seq<Label>, l: Label, labels: seq<Label>)
    requires Init(s0) && Schedules(RunAll(s0, before), l)
    requires var s := Step(RunAll(s0, before), l); QuietRun(s, labels) && (s.c.preempt ==> Ticks(labels) < s.c.perSlice)
    ensures var s := Step(RunAll(s0, before), l);
            RunAll(s, labels).c.cur == s.c.cur && Calls(s, labels) == 0
  {
    hide Step, Schedules, QuietRun;
    FreshSlice(RunAll(s0, before), l);
    KeepsSlice(Step(RunAll(s0, before), l), labels);
  }

  // ------------------------------------------------ a wake-up is served at the next tick

  /** The step moves a waiter to the ready queue. */
  predicate Wakes(s: Sys, l: Label) {
    match l
    case KeyIrq(q) => q in s.res && s.res[q].kind.Ring? && s.res[q].count < s.res[q].kind.capacity && s.c.Waiters(q) != []
    case Go => s.PcOf(s.c.cur).Hold? || s.PcOf(s.c.cur).HoldAll?
    case _ => false
  }

  /** The current thread goes to sleep, or ends, and has still to yield. */
  predicate Leaves(s: Sys, l: Label) {
    (l.Exit? || (l.Sleep? && 0 < l.n < WRAP)) && s.PcOf(s.c.cur).Run? && s.c.cur != s.c.idle
  }

  /** A wake-up, by a key or by a thread, asks for a switch, and so does a thread that goes to sleep or ends, */
  lemma WakeAsks(s: Sys, l: Label)
    requires Structure(s) && s.panic.None? && (Wakes(s, l) || Leaves(s, l))
    ensures Step(s, l).c.resched && (Wakes(s, l) ==> |Step(s, l).c.ready| == |s.c.ready| + 1)
  {
    hide Sched.SleepInsert;
    if l.KeyIrq? {
      var w := s.c.Waiters(l.q);
      assert WaiterOk(s, l.q, w[0]) && QueuedOk(s.c, s.c.idle);
    } else if l.Go? {
      var p := s.pc[s.c.cur];
      assert ThreadOk(s, s.c.cur) && HeldOk(s, p.t) && QueuedOk(s.c, s.c.idle);
    }
  }

  lemma AskStaysTaking(s: Sys, p: Pc)
    requires s.panic.None? && s.c.resched && p == s.PcOf(s.c.cur) && !Schedules(s, Go)
    requires p.Test? || p.Retry? || p.Wait? || p.Parked?
    ensures ContinueTaking(s, p).c.resched
  {
    hide Sched.Schedule, Sched.Park;
  }

  lemma AskStaysWaking(s: Sys, p: Pc)
    requires s.c.resched
    ensures ContinueWaking(s, p).c.resched && (!p.SleepYield? && !p.ExitYield? ==> ContinueThread(s, p).c.resched)
  {
    hide Sched.Schedule;
  }

  lemma AskStaysGo(s: Sys)
    requires s.panic.None? && s.c.resched && !Schedules(s, Go)
    ensures Continue(s, s.PcOf(s.c.cur)).c.resched
  {
    hide ContinueTaking, ContinueWaking, ContinueThread;
    var p := s.PcOf(s.c.cur);
    if p.Test? || p.Retry? || p.Wait? || p.Parked? { AskStaysTaking(s, p); } else { AskStaysWaking(s, p); }
  }

  lemma AskStaysCall(s: Sys, l: Label)
    requires s.panic.None? && s.c.resched && !Schedules(s, l) && s.PcOf(s.c.cur).Run? && !l.PreemptionInit?
    ensures CallSync(s, l).c.resched && CallThread(s, l).c.resched
  {
    hide Sched.Schedule, Sched.SleepInsert, CreateStep, StartStep;
    if l.Create? { AskStaysCreate(s, l.enqueue, 0); }
    if l.Start? { AskStaysCreate(s, false, l.t); }
  }

  lemma AskStaysCreate(s: Sys, enqueue: bool, t: Tid)
    requires s.c.resched
    ensures CreateStep(s, enqueue).c.resched && StartStep(s, t).c.resched
  {
  }

  /** which stands until the scheduler is called, */
  lemma AskStays(s: Sys, l: Label)
    requires s.c.resched && !Schedules(s, l) && !l.PreemptionInit?
    ensures Step(s, l).c.resched
  {
    hide Continue, CallSync, CallThread, Sched.Schedule, Sched.TimerTick;
    if s.panic.None? {
      if l.Timer? { TickReachesIff(s.c); }
      else if l.Go? { AskStaysGo(s); }
      else if !l.KeyIrq? && s.PcOf(s.c.cur).Run? { AskStaysCall(s, l); }
    }
  }

  lemma {:induction false} AskIsServed(s: Sys, labels: seq<Label>)
    requires s.c.resched && (forall l :: l in labels ==> !l.PreemptionInit?) && RunAll(s, labels).panic.None?
    requires Ticks(labels) >= 1
    ensures Calls(s, labels) >= 1
    decreases |labels|
  {
    hide Step, Schedules;
    var l := labels[0];
    assert l in labels;
    if s.panic.Some? { PanicStays(s, labels); }
    if l.Timer? { ServedNow(s); }
    else if !Schedules(s, l) {
      AskStays(s, l);
      AskIsServed(Step(s, l), labels[1..]);
    }
  }

  lemma ServedNow(s: Sys)
    requires s.panic.None? && s.c.resched
    ensures Schedules(s, Timer)
  {
    hide Sched.TimerTick;
    TickReachesIff(s.c);
  }

  /** so that in every run the scheduler is called between such a step and the end of the next timer interrupt. */
  lemma WakeIsServed(s0: Sys, before: seq<Label>, l: Label, labels: seq<Label>)
    requires Init(s0) && RunAll(s0, before).panic.None?
    requires Wakes(RunAll(s0, before), l) || Leaves(RunAll(s0, before), l)
    requires var s := Step(RunAll(s0, before), l);
             RunAll(s, labels).panic.None? && Ticks(labels) >= 1 && forall k :: k in labels ==> !k.PreemptionInit?
    ensures Calls(Step(RunAll(s0, before), l), labels) >= 1
  {
    hide Step, Calls;
    InitInv(s0);
    RunInv(s0, before);
    WakeAsks(RunAll(s0, before), l);
    AskIsServed(Step(RunAll(s0, before), l), labels);
  }
}
