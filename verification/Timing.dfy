/** Sleeping and time slices, over all runs and any number of wraps of the 32-bit tick counter. */
module Timing {
  import opened Base
  import opened SchedulerSpec
  import opened Protocol
  import opened ProtocolInvariant
  import opened Wakeups

  // ------------------------------------------------ comparing wrapped ticks

  /** Between ticks less than a whole turn of the counter apart, the wrapped comparison is right exactly when
      they are less than half a turn apart (or the second leads by exactly half). */
  lemma TickReachedExact(a: nat, b: nat)
    requires -(WRAP as int) < a - b < WRAP
    ensures (TickReached(a % WRAP, b % WRAP) <==> a >= b) <==> -(HALF as int) <= a - b < HALF
  {
    var d := a - b;
    assert (a % WRAP - b % WRAP) % WRAP == d % WRAP by {
      var x, y := a / WRAP, b / WRAP;
      assert a == WRAP * x + a % WRAP && b == WRAP * y + b % WRAP;
      ModPlus(a % WRAP - b % WRAP, x - y);
      assert d == (a % WRAP - b % WRAP) + WRAP * (x - y);
    }
    if d < 0 { ModPlus(d, 1); }
  }

  lemma ModPlus(d: int, k: int)
    ensures (d + WRAP * k) % WRAP == d % WRAP
  {
  }

  /** Whether, m ticks after falling asleep for n, a thread's wake tick has been reached. */
  predicate ReachedAfter(now: nat, n: nat, m: nat) {
    TickReached((now + m) % WRAP, (now + n) % WRAP)
  }

  /** A thread asleep alone for n ticks is due at the n-th and at none before exactly when n is at most half a
      turn of the counter and one: for longer sleeps the code wakes it early. */
  lemma LoneSleeperExact(now: nat, n: nat)
    requires 0 < n < WRAP
    ensures ReachedAfter(now, n, n)
    ensures (forall m :: 0 < m < n ==> !ReachedAfter(now, n, m)) <==> n <= HALF + 1
  {
    forall m: nat | 0 < m < n
      ensures ReachedAfter(now, n, m) <==> n - m > HALF
    {
      TickReachedExact(now + m, now + n);
    }
    if n > HALF + 1 {
      assert ReachedAfter(now, n, 1);
    }
  }

  // ------------------------------------------------ the sleep queue on the unbounded clock

  function DueAt(due: map<Tid, nat>, x: Tid): nat { if x in due then due[x] else 0 }

  /** A sleeper's 32-bit wake tick is its due tick wrapped, and that lies within half a turn ahead. */
  ghost predicate SleeperOk(c: Globals, due: map<Tid, nat>, now: nat, x: Tid) {
    now <= DueAt(due, x) <= now + HALF && c.WakeTick(x) == DueAt(due, x) % WRAP
  }

  ghost predicate SortedByDue(sleep: seq<Tid>, due: map<Tid, nat>) {
    forall i, j :: 0 <= i < j < |sleep| ==> DueAt(due, sleep[i]) <= DueAt(due, sleep[j])
  }

  ghost predicate SleepersOk(c: Globals, due: map<Tid, nat>, now: nat) {
    && c.ticks == now % WRAP && SortedByDue(c.sleep, due)
    && (forall x :: x in c.sleep ==> SleeperOk(c, due, now, x))
  }

  ghost predicate TimeOk(s: Sys) {
    SleepersOk(s.c, s.due, s.now) && forall x :: x in s.c.sleep ==> DueAt(s.due, x) > s.now
  }

  lemma WakeOne(c: Globals) returns (d: Globals)
    requires c.sleep != [] && TickReached(c.ticks, c.WakeTick(c.sleep[0])) && c.sleep[0] != c.idle
    ensures d.sleep == c.sleep[1..] && d.ready == c.ready + [c.sleep[0]]
    ensures d.ticks == c.ticks && d.wake == c.wake && d.idle == c.idle
    ensures c.WakeDueSleepers() == d.WakeDueSleepers()
  {
    d := c.(sleep := c.sleep[1..]).ReadyPush(c.sleep[0]).(resched := true);
  }

  lemma HeadDue(c: Globals, due: map<Tid, nat>, now: nat)
    requires SleepersOk(c, due, now) && c.sleep != []
    requires DueAt(due, c.sleep[0]) < now + HALF
    ensures TickReached(c.ticks, c.WakeTick(c.sleep[0])) <==> DueAt(due, c.sleep[0]) == now
    ensures DueAt(due, c.sleep[0]) >= now
  {
    assert SleeperOk(c, due, now, c.sleep[0]);
    TickReachedExact(now, DueAt(due, c.sleep[0]));
  }

  lemma TailSleepersOk(c: Globals, d: Globals, due: map<Tid, nat>, now: nat)
    requires SleepersOk(c, due, now) && c.sleep != []
    requires d.sleep == c.sleep[1..] && d.ticks == c.ticks && d.wake == c.wake
    ensures SleepersOk(d, due, now)
  {
    forall x | x in d.sleep ensures SleeperOk(d, due, now, x) { assert SleeperOk(c, due, now, x); }
  }

  lemma TailPrefix(a: seq<Tid>, b: seq<Tid>, ready: seq<Tid>, k: nat)
    requires a != [] && b == a[1..] && k <= |b|
    ensures a[k + 1..] == b[k..] && ready + a[..k + 1] == ready + [a[0]] + b[..k]
  {
  }

  /** At tick `now`, wake_due_sleepers moves exactly the sleepers due now, in order, to the ready queue. */
  lemma {:induction false} WakeDueExact(c: Globals, due: map<Tid, nat>, now: nat) returns (k: nat)
    requires SleepersOk(c, due, now) && c.idle !in c.sleep
    requires forall x :: x in c.sleep ==> DueAt(due, x) < now + HALF
    ensures k <= |c.sleep|
    ensures c.WakeDueSleepers().sleep == c.sleep[k..]
    ensures c.WakeDueSleepers().ready == c.ready + c.sleep[..k]
    ensures forall i :: 0 <= i < k ==> DueAt(due, c.sleep[i]) == now
    ensures forall i :: k <= i < |c.sleep| ==> DueAt(due, c.sleep[i]) > now
    decreases |c.sleep|
  {
    if c.sleep != [] { HeadDue(c, due, now); }
    if c.sleep == [] || DueAt(due, c.sleep[0]) > now {
      k := 0;
      assert c.WakeDueSleepers() == c;
    } else {
      var d := WakeOne(c);
      TailSleepersOk(c, d, due, now);
      var k' := WakeDueExact(d, due, now);
      k := k' + 1;
      TailPrefix(c.sleep, d.sleep, c.ready, k');
      forall i | 0 <= i < k ensures DueAt(due, c.sleep[i]) == now {
        if i > 0 { assert c.sleep[i] == d.sleep[i - 1]; }
      }
      forall i | k <= i < |c.sleep| ensures DueAt(due, c.sleep[i]) > now {
        assert c.sleep[i] == d.sleep[i - 1];
      }
    }
  }

  lemma ModStep(now: nat)
    ensures (now % WRAP + 1) % WRAP == (now + 1) % WRAP
  {
  }

  /** The timer tick's effect on the sleep queue. */
  lemma TickMovesDue(c: Globals, due: map<Tid, nat>, now: nat) returns (k: nat)
    requires SleepersOk(c, due, now) && c.idle !in c.sleep
    requires forall x :: x in c.sleep ==> DueAt(due, x) > now
    ensures k <= |c.sleep|
    ensures c.TimerTick().sleep == c.sleep[k..] && c.TimerTick().ready == c.ready + c.sleep[..k]
    ensures c.TimerIrq().sleep == c.sleep[k..]
    ensures forall i :: 0 <= i < k ==> DueAt(due, c.sleep[i]) == now + 1
    ensures forall i :: k <= i < |c.sleep| ==> DueAt(due, c.sleep[i]) > now + 1
  {
    hide Sched.WakeDueSleepers, Sched.Schedule;
    var c1 := c.(ticks := (c.ticks + 1) % WRAP);
    ModStep(now);
    forall x | x in c1.sleep ensures SleeperOk(c1, due, now + 1, x) { assert SleeperOk(c, due, now, x); }
    k := WakeDueExact(c1, due, now + 1);
  }

  lemma SuffixSleepersOk(c: Globals, d: Globals, due: map<Tid, nat>, now: nat, k: nat)
    requires SleepersOk(c, due, now) && k <= |c.sleep| && d.sleep == c.sleep[k..] && d.wake == c.wake
    requires d.ticks == (now + 1) % WRAP
    requires forall i :: k <= i < |c.sleep| ==> DueAt(due, c.sleep[i]) > now + 1
    ensures SleepersOk(d, due, now + 1) && forall x :: x in d.sleep ==> DueAt(due, x) > now + 1
  {
    forall x | x in d.sleep ensures SleeperOk(d, due, now + 1, x) { assert SleeperOk(c, due, now, x); }
  }

  lemma TimerKeepsTime(s: Sys, d: Globals)
    requires Structure(s) && TimeOk(s) && d == s.c.TimerIrq()
    ensures TimeOk(s.(c := d, now := s.now + 1))
  {
    assert QueuedOk(s.c, s.c.idle);
    var k := TickMovesDue(s.c, s.due, s.now);
    ModStep(s.now);
    SuffixSleepersOk(s.c, d, s.due, s.now, k);
  }

  /** A tick wakes exactly the sleepers due at it. */
  lemma TimerWakesDue(s: Sys, x: Tid)
    requires Structure(s) && TimeOk(s) && x in s.c.sleep
    ensures x in s.c.TimerIrq().sleep <==> DueAt(s.due, x) != s.now + 1
    ensures DueAt(s.due, x) == s.now + 1 ==> x in s.c.TimerTick().ready
  {
    assert QueuedOk(s.c, s.c.idle);
    var k := TickMovesDue(s.c, s.due, s.now);
    var i :| 0 <= i < |s.c.sleep| && s.c.sleep[i] == x;
    if i < k {
      assert s.c.sleep[..k][i] == x;
    } else {
      assert s.c.sleep[k..][i - k] == x;
    }
  }

  // ------------------------------------------------ falling asleep

  /** sleep_insert stops before the first sleeper due no earlier than the newcomer. */
  lemma {:induction false} SleepPosExact(c: Globals, due: map<Tid, nat>, now: nat, w: nat, from: nat)
    requires SleepersOk(c, due, now) && now < w <= now + HALF && from <= |c.sleep|
    requires forall x :: x in c.sleep ==> DueAt(due, x) > now
    ensures var k := SleepPos(c.sleep, c.wake, w % WRAP, from);
            && (forall i :: from <= i < k ==> DueAt(due, c.sleep[i]) < w)
            && (k < |c.sleep| ==> DueAt(due, c.sleep[k]) >= w)
    decreases |c.sleep| - from
  {
    if from < |c.sleep| {
      assert SleeperOk(c, due, now, c.sleep[from]);
      TickReachedExact(DueAt(due, c.sleep[from]), w);
      if DueAt(due, c.sleep[from]) < w { SleepPosExact(c, due, now, w, from + 1); }
    }
  }

  lemma SortedInsert(sleep: seq<Tid>, due: map<Tid, nat>, due': map<Tid, nat>, t: Tid, k: nat)
    requires SortedByDue(sleep, due) && k <= |sleep| && t !in sleep
    requires forall x :: x != t ==> DueAt(due', x) == DueAt(due, x)
    requires forall i :: 0 <= i < k ==> DueAt(due, sleep[i]) < DueAt(due', t)
    requires k < |sleep| ==> DueAt(due, sleep[k]) >= DueAt(due', t)
    ensures SortedByDue(sleep[..k] + [t] + sleep[k..], due')
  {
    var r := sleep[..k] + [t] + sleep[k..];
    forall i, j | 0 <= i < j < |r| ensures DueAt(due', r[i]) <= DueAt(due', r[j]) {
      var a := if i < k then i else i - 1;
      var b := if j < k then j else j - 1;
      if i != k && j != k { assert r[i] == sleep[a] && r[j] == sleep[b]; }
    }
  }

  lemma SleepInsertOk(c: Globals, d: Globals, due: map<Tid, nat>, due': map<Tid, nat>, now: nat, t: Tid, k: nat)
    requires SleepersOk(c, due, now) && t !in c.sleep && k <= |c.sleep|
    requires d.ticks == c.ticks && d.sleep == c.sleep[..k] + [t] + c.sleep[k..] && SortedByDue(d.sleep, due')
    requires due' == due[t := DueAt(due', t)] && d.wake == c.wake[t := DueAt(due', t) % WRAP]
    requires now < DueAt(due', t) <= now + HALF
    ensures SleepersOk(d, due', now)
    ensures forall x :: x in d.sleep <==> x in c.sleep || x == t
  {
    assert c.sleep == c.sleep[..k] + c.sleep[k..];
    forall x | x in d.sleep ensures SleeperOk(d, due', now, x) {
      if x != t { assert SleeperOk(c, due, now, x); }
    }
  }

  /** The place thread_sleep_ticks finds for a thread due at `w`. */
  lemma SleepPlace(c: Globals, due: map<Tid, nat>, now: nat, w: nat) returns (k: nat)
    requires SleepersOk(c, due, now) && now < w <= now + HALF && c.cur !in c.sleep && c.cur != c.idle
    requires forall x :: x in c.sleep ==> DueAt(due, x) > now
    ensures k <= |c.sleep| && c.SleepTicks(w - now).sleep == c.sleep[..k] + [c.cur] + c.sleep[k..]
    ensures c.SleepTicks(w - now).wake == c.wake[c.cur := w % WRAP]
    ensures forall i :: 0 <= i < k ==> DueAt(due, c.sleep[i]) < w
    ensures k < |c.sleep| ==> DueAt(due, c.sleep[k]) >= w
  {
    ModAdd(now, w - now);
    var c1 := c.(wake := c.wake[c.cur := w % WRAP]);
    forall x | x in c1.sleep ensures SleeperOk(c1, due, now, x) { assert SleeperOk(c, due, now, x); }
    SleepPosExact(c1, due, now, w, 0);
    k := SleepPos(c1.sleep, c1.wake, w % WRAP, 0);
  }

  lemma SleepTicksOk(c: Globals, d: Globals, due: map<Tid, nat>, due': map<Tid, nat>, now: nat, w: nat)
    requires SleepersOk(c, due, now) && now < w <= now + HALF && c.cur !in c.sleep && c.cur != c.idle
    requires forall x :: x in c.sleep ==> DueAt(due, x) > now
    requires due' == due[c.cur := w] && d == c.SleepTicks(w - now)
    ensures SleepersOk(d, due', now)
    ensures forall x :: x in d.sleep <==> x in c.sleep || x == c.cur
  {
    var k := SleepPlace(c, due, now, w);
    SortedInsert(c.sleep, due, due', c.cur, k);
    SleepInsertOk(c, d, due, due', now, c.cur, k);
  }

  lemma SleepKeepsTime(s: Sys, n: nat)
    requires Structure(s) && TimeOk(s) && s.pc[s.c.cur].Run? && s.c.cur != s.c.idle && 0 < n <= HALF
    ensures TimeOk(SleepStep(s, n))
    ensures s.c.cur in SleepStep(s, n).c.sleep && DueAt(SleepStep(s, n).due, s.c.cur) == s.now + n
  {
    hide Sched.SleepTicks, SleepersOk;
    assert ThreadOk(s, s.c.cur) && QueuedOk(s.c, s.c.cur);
    SleepTicksOk(s.c, s.c.SleepTicks(n), s.due, s.due[s.c.cur := s.now + n], s.now, s.now + n);
  }

  lemma ModAdd(now: nat, n: nat)
    ensures (now % WRAP + n) % WRAP == (now + n) % WRAP
  {
  }

  // ------------------------------------------------ over all runs

  /** The queue, the wake ticks and the clock are as they were; a freed thread was not asleep. */
  ghost predicate SameTime(s: Sys, s': Sys) {
    && s'.c.sleep == s.c.sleep && s'.c.ticks == s.c.ticks && s'.now == s.now
    && forall x :: x in s.c.sleep ==> s'.c.WakeTick(x) == s.c.WakeTick(x) && DueAt(s'.due, x) == DueAt(s.due, x)
  }

  lemma SameTimeKeeps(s: Sys, s': Sys)
    requires TimeOk(s) && SameTime(s, s')
    ensures TimeOk(s')
  {
    forall x | x in s'.c.sleep ensures SleeperOk(s'.c, s'.due, s'.now, x) {
      assert SleeperOk(s.c, s.due, s.now, x);
    }
  }

  lemma ContinueTakingSameTime(s: Sys, p: Pc)
    ensures SameTime(s, ContinueTaking(s, p))
  {
    match p
    case Wait(q) => CheckOrParkSameTime(s, q, Test(q));
    case Parked(q) => CheckOrParkSameTime(s, q, Retry(q));
    case _ =>
  }

  lemma CheckOrParkSameTime(s: Sys, q: Qid, leave: Pc)
    ensures SameTime(s, CheckOrPark(s, q, leave))
  {
    hide Sched.Schedule, Sched.Park;
    ParkSameTime(s, q);
  }

  lemma ParkSameTime(s: Sys, q: Qid)
    ensures SameTime(s, s.At(Parked(q)).(c := s.c.Park(q).Schedule()))
  {
    hide Sched.Schedule, Sched.Park;
  }

  lemma ContinueWakingSameTime(s: Sys, p: Pc)
    ensures SameTime(s, ContinueWaking(s, p))
  {
  }

  lemma ContinueThreadSameTime(s: Sys, p: Pc)
    requires Structure(s) && s.pc[s.c.cur] == p
    ensures SameTime(s, ContinueThread(s, p))
  {
    if p.Reaping? {
      assert ThreadOk(s, s.c.cur) && HeldOk(s, p.t) && QueuedOk(s.c, p.t);
    }
  }

  lemma ContinueSameTime(s: Sys, p: Pc)
    requires Structure(s) && s.pc[s.c.cur] == p
    ensures SameTime(s, Continue(s, p))
  {
    ContinueTakingSameTime(s, p);
    ContinueWakingSameTime(s, p);
    ContinueThreadSameTime(s, p);
  }

  lemma CallSyncSameTime(s: Sys, l: Label)
    ensures SameTime(s, CallSync(s, l))
  {
  }

  lemma CallThreadSameTime(s: Sys, l: Label)
    requires (!l.Sleep? || l.n == 0) && s.nextId !in s.c.sleep
    ensures SameTime(s, CallThread(s, l))
  {
    hide SameTime, Sched.Schedule, Sched.ExitCurrent, Sched.StartPreemption, CreateStep, StartStep;
    QuietSameTime(s, l);
    match l
    case Create(enqueue) => CreateSameTime(s, enqueue);
    case Start(t) => StartSameTime(s, t);
    case _ =>
  }

  lemma QuietSameTime(s: Sys, l: Label)
    ensures SameTime(s, s) && SameTime(s, s.At(Reap)) && SameTime(s, s.(c := s.c.Schedule()))
    ensures SameTime(s, s.At(ExitYield).(c := s.c.ExitCurrent()))
    ensures l.PreemptionInit? ==> SameTime(s, s.(c := s.c.StartPreemption(l.perSlice)))
  {
    hide Sched.Schedule;
  }

  lemma CreateSameTime(s: Sys, enqueue: bool)
    requires s.nextId !in s.c.sleep
    ensures SameTime(s, CreateStep(s, enqueue))
  {
  }

  lemma StartSameTime(s: Sys, t: Tid)
    ensures SameTime(s, StartStep(s, t))
  {
  }

  lemma CallSameTime(s: Sys, l: Label)
    requires Structure(s) && (!l.Sleep? || l.n == 0)
    ensures SameTime(s, CallSync(s, l)) && SameTime(s, CallThread(s, l))
  {
    assert ThreadOk(s, s.nextId) && QueuedOk(s.c, s.nextId);
    CallSyncSameTime(s, l);
    CallThreadSameTime(s, l);
  }

  /** The timing invariant holds as long as nobody asks to sleep for more than half a turn of the counter. */
  lemma StepKeepsTime(s: Sys, l: Label)
    requires Structure(s) && TimeOk(s) && (l.Sleep? ==> l.n <= HALF)
    ensures TimeOk(Step(s, l))
  {
    if s.panic.Some? {
    } else if l.Timer? {
      TimerKeepsTime(s, s.c.TimerIrq());
    } else if l.KeyIrq? {
      if l.q in s.res { SameTimeKeeps(s, KeyIrqStep(s, l.q)); }
    } else if l.Go? {
      ContinueSameTime(s, s.pc[s.c.cur]);
      SameTimeKeeps(s, Step(s, l));
    } else if s.pc[s.c.cur].Run? {
      if l.Sleep? && l.n > 0 {
        if s.c.cur != s.c.idle { SleepKeepsTime(s, l.n); }
      } else {
        CallSameTime(s, l);
        SameTimeKeeps(s, Step(s, l));
      }
    }
  }

  /** A sleeper stays asleep through every step but the tick it is due at, which readies it. */
  lemma StepSleeper(s: Sys, l: Label, x: Tid)
    requires Structure(s) && TimeOk(s) && x in s.c.sleep && s.panic.None?
    ensures !(l.Timer? && s.now + 1 == DueAt(s.due, x)) ==>
              x in Step(s, l).c.sleep && DueAt(Step(s, l).due, x) == DueAt(s.due, x)
    ensures l.Timer? && s.now + 1 == DueAt(s.due, x) ==>
              x !in Step(s, l).c.sleep && x in s.c.TimerTick().ready
    ensures Step(s, l).now == s.now + (if l.Timer? then 1 else 0)
  {
    if l.Timer? {
      TimerWakesDue(s, x);
    } else if l.KeyIrq? {
    } else if l.Go? {
      ContinueSameTime(s, s.pc[s.c.cur]);
    } else if s.pc[s.c.cur].Run? {
      if l.Sleep? && l.n > 0 {
        assert ThreadOk(s, s.c.cur) && QueuedOk(s.c, s.c.cur) && QueuedOk(s.c, x);
        SleepTicksHas(s.c, l.n, x);
      } else {
        CallSameTime(s, l);
      }
    }
  }

  lemma SleepTicksHas(c: Globals, n: nat, x: Tid)
    requires x in c.sleep
    ensures x in c.SleepTicks(n).sleep
  {
    if c.cur != c.idle {
      var d := c.(wake := c.wake[c.cur := (c.ticks + n) % WRAP]);
      var k := SleepPos(d.sleep, d.wake, d.WakeTick(c.cur), 0);
      assert c.sleep == c.sleep[..k] + c.sleep[k..];
    }
  }

  function Ticks(labels: seq<Label>): nat {
    if labels == [] then 0 else (if labels[0].Timer? then 1 else 0) + Ticks(labels[1..])
  }

  ghost predicate ShortSleeps(labels: seq<Label>) {
    forall l :: l in labels && l.Sleep? ==> l.n <= HALF
  }

  lemma {:induction false} PanicStays(s: Sys, labels: seq<Label>)
    requires s.panic.Some?
    ensures RunAll(s, labels) == s
    decreases |labels|
  {
    if labels != [] { PanicStays(s, labels[1..]); }
  }

  /** Through any run without a panic that stops short of its due tick, a sleeper is still asleep. */
  lemma {:induction false} StillAsleep(s: Sys, labels: seq<Label>, x: Tid)
    requires Inv(s) && TimeOk(s) && x in s.c.sleep && ShortSleeps(labels)
    requires RunAll(s, labels).panic.None? && s.now + Ticks(labels) < DueAt(s.due, x)
    ensures var s' := RunAll(s, labels);
            && Inv(s') && TimeOk(s') && x in s'.c.sleep && DueAt(s'.due, x) == DueAt(s.due, x)
            && s'.now == s.now + Ticks(labels)
    decreases |labels|
  {
    if labels != [] {
      if s.panic.Some? { PanicStays(s, labels); }
      StepSleeper(s, labels[0], x);
      StepKeepsTime(s, labels[0]);
      RunInv(s, [labels[0]]);
      assert RunAll(s, [labels[0]]) == Step(s, labels[0]);
      StillAsleep(Step(s, labels[0]), labels[1..], x);
    }
  }

  /** Nothing is asleep at first, so the timing invariant holds at first. */
  lemma InitTime(s: Sys)
    requires Init(s)
    ensures TimeOk(s)
  {
  }

  lemma {:induction false} RunKeepsTime(s: Sys, labels: seq<Label>)
    requires Inv(s) && TimeOk(s) && ShortSleeps(labels)
    ensures Inv(RunAll(s, labels)) && TimeOk(RunAll(s, labels))
    decreases |labels|
  {
    if labels != [] {
      StepKeepsTime(s, labels[0]);
      RunInv(s, [labels[0]]);
      assert RunAll(s, [labels[0]]) == Step(s, labels[0]);
      RunKeepsTime(Step(s, labels[0]), labels[1..]);
    }
  }

  /** The sleep queue is in true wake order, and every sleeper's tick is still ahead, throughout every run in
      which nobody sleeps longer than 2^31 ticks. */
  lemma SleepQueueSorted(s0: Sys, labels: seq<Label>)
    requires Init(s0) && ShortSleeps(labels)
    ensures var s := RunAll(s0, labels);
            && SortedByDue(s.c.sleep, s.due)
            && (forall x :: x in s.c.sleep ==>
                  s.now < DueAt(s.due, x) <= s.now + HALF && s.c.WakeTick(x) == DueAt(s.due, x) % WRAP)
  {
    InitInv(s0);
    InitTime(s0);
    RunKeepsTime(s0, labels);
    var s := RunAll(s0, labels);
    forall x | x in s.c.sleep ensures s.c.WakeTick(x) == DueAt(s.due, x) % WRAP && DueAt(s.due, x) <= s.now + HALF {
      assert SleeperOk(s.c, s.due, s.now, x);
    }
  }

  /** In every run, a thread that sleeps n ticks, 1 <= n <= 2^31, is asleep until the n-th following tick and readied
      by it, whatever else happens meanwhile and however often the 32-bit counter wraps. */
  lemma SleepExact(s0: Sys, before: seq<Label>, n: nat, labels: seq<Label>)
    requires Init(s0) && ShortSleeps(before) && ShortSleeps(labels) && 0 < n <= HALF
    requires var s := RunAll(s0, before); s.panic.None? && s.PcOf(s.c.cur).Run? && s.c.cur != s.c.idle
    ensures var s := RunAll(s0, before);
            var s1 := Step(s, Sleep(n));
            var s2 := RunAll(s1, labels);
            s2.panic.None? ==>
              && (Ticks(labels) < n ==> s.c.cur in s2.c.sleep)
              && (Ticks(labels) == n - 1 ==>
                    s.c.cur in s2.c.TimerTick().ready && s.c.cur !in Step(s2, Timer).c.sleep)
  {
    InitInv(s0);
    InitTime(s0);
    RunKeepsTime(s0, before);
    SleepExactFrom(RunAll(s0, before), n, labels);
  }

  lemma SleepExactFrom(s: Sys, n: nat, labels: seq<Label>)
    requires Inv(s) && TimeOk(s) && s.panic.None? && s.PcOf(s.c.cur).Run? && s.c.cur != s.c.idle
    requires 0 < n <= HALF && ShortSleeps(labels)
    ensures var s1 := Step(s, Sleep(n));
            var s2 := RunAll(s1, labels);
            s2.panic.None? ==>
              && (Ticks(labels) < n ==> s.c.cur in s2.c.sleep)
              && (Ticks(labels) == n - 1 ==>
                    s.c.cur in s2.c.TimerTick().ready && s.c.cur !in Step(s2, Timer).c.sleep)
  {
    var s1 := Step(s, Sleep(n));
    var s2 := RunAll(s1, labels);
    if s2.panic.None? && Ticks(labels) < n {
      SleepKeepsTime(s, n);
      RunInv(s, [Sleep(n)]);
      assert RunAll(s, [Sleep(n)]) == s1;
      StillAsleep(s1, labels, s.c.cur);
      if Ticks(labels) == n - 1 { StepSleeper(s2, Timer, s.c.cur); }
    }
  }

  // ------------------------------------------------ how long a sleep may be

  /** A step wakes exactly the sleepers due at it. */
  ghost predicate ExactStep(s: Sys, l: Label) {
    s.panic.None? ==>
      forall x :: x in s.c.sleep ==> (x !in Step(s, l).c.sleep <==> l.Timer? && DueAt(s.due, x) == s.now + 1)
  }

  /** Throughout a run every sleeper is woken by exactly the tick it asked for. */
  ghost predicate ExactRun(s: Sys, labels: seq<Label>)
    decreases |labels|
  {
    labels == [] || (ExactStep(s, labels[0]) && ExactRun(Step(s, labels[0]), labels[1..]))
  }

  ghost predicate SleepsAtMost(labels: seq<Label>, most: nat) {
    forall l :: l in labels && l.Sleep? ==> l.n <= most
  }

  lemma {:induction false} ShortSleepsExact(s: Sys, labels: seq<Label>)
    requires Inv(s) && TimeOk(s) && SleepsAtMost(labels, HALF)
    ensures ExactRun(s, labels)
    decreases |labels|
  {
    if labels != [] {
      var l := labels[0];
      if s.panic.None? {
        forall x | x in s.c.sleep ensures x !in Step(s, l).c.sleep <==> l.Timer? && DueAt(s.due, x) == s.now + 1 {
          StepSleeper(s, l, x);
        }
      }
      StepKeepsTime(s, l);
      RunInv(s, [l]);
      assert RunAll(s, [l]) == Step(s, l);
      ShortSleepsExact(Step(s, l), labels[1..]);
    }
  }

  // ------------------------------------------------ waiting for the processor

  /** Whether a step calls the scheduler. */
  predicate Schedules(s: Sys, l: Label) {
    s.panic.None? &&
    var p := s.PcOf(s.c.cur);
    match l
    case Timer => s.c.TimerTick().resched
    case Go =>
      || p.SleepYield? || p.ExitYield?
      || ((p.Wait? || p.Parked?) && s.Avail(p.q) <= 0 && s.c.cur != s.c.idle && s.c.State(s.c.cur) == Running)
    case Yield => p.Run?
    case Sleep(n) => p.Run? && n == 0
    case _ => false
  }

  /** What a step may do to the threads waiting for the processor: a scheduler call dispatches the first of
      them, anything else only adds behind them. */
  ghost predicate Advances(c: Globals, d: Globals, called: bool) {
    && d.perSlice == c.perSlice && d.preempt == c.preempt
    && if called then (c.ready != [] ==> d.cur == c.ready[0] && c.ready[1..] <= d.ready) && d.slice == 0
    else c.ready <= d.ready && d.slice == c.slice
  }

  lemma ScheduleAdvances(c: Globals)
    ensures Advances(c, c.Schedule(), true)
  {
  }

  lemma ParkAdvances(c: Globals, q: Qid)
    ensures Advances(c, c.Park(q).Schedule(), true)
  {
    ScheduleAdvances(c.Park(q));
  }

  lemma CheckOrParkAdvances(s: Sys, q: Qid, leave: Pc)
    ensures Advances(s.c, CheckOrPark(s, q, leave).c,
                     s.Avail(q) <= 0 && s.c.cur != s.c.idle && s.c.State(s.c.cur) == Running)
  {
    hide Sched.Schedule, Sched.Park;
    ParkAdvances(s.c, q);
  }

  lemma ContinueTakingAdvances(s: Sys, p: Pc)
    requires s.panic.None? && s.PcOf(s.c.cur) == p && (p.Test? || p.Retry? || p.Wait? || p.Parked?)
    ensures Advances(s.c, ContinueTaking(s, p).c, Schedules(s, Go))
  {
    match p
    case Wait(q) => CheckOrParkAdvances(s, q, Test(q));
    case Parked(q) => CheckOrParkAdvances(s, q, Retry(q));
    case _ =>
  }

  lemma ContinueWakingAdvances(s: Sys, p: Pc)
    requires s.PcOf(s.c.cur) == p && (p.Pop? || p.PopAll? || p.Hold? || p.HoldAll?)
    ensures Advances(s.c, ContinueWaking(s, p).c, false)
  {
  }

  lemma ContinueThreadAdvances(s: Sys, p: Pc)
    ensures Advances(s.c, ContinueThread(s, p).c, p.SleepYield? || p.ExitYield?)
  {
    hide Sched.Schedule;
    ScheduleAdvances(s.c);
  }

  lemma SleepAdvances(s: Sys, n: nat)
    ensures Advances(s.c, SleepStep(s, n).c, n == 0)
  {
    ScheduleAdvances(s.c);
  }

  lemma CreateAdvances(s: Sys, enqueue: bool, t: Tid)
    ensures Advances(s.c, CreateStep(s, enqueue).c, false)
    ensures Advances(s.c, StartStep(s, t).c, false)
  {
    hide Sched.ReadyPush, Sched.NewThread;
    PushAdvances(s.c, t);
    PushAdvances(s.c, s.nextId);
    PushAdvances(s.c.NewThread(s.nextId), s.nextId);
  }

  lemma PushAdvances(c: Globals, t: Tid)
    ensures Advances(c, c.ReadyPush(t), false) && Advances(c, c.NewThread(t), false)
  {
  }

  lemma CallThreadAdvances(s: Sys, l: Label)
    requires s.panic.None? && s.PcOf(s.c.cur).Run? && !l.PreemptionInit? && !l.Timer? && !l.Go?
    ensures Advances(s.c, CallThread(s, l).c, Schedules(s, l))
  {
    match l
    case Yield => ScheduleAdvances(s.c);
    case Sleep(n) => SleepAdvances(s, n);
    case Create(enqueue) => CreateAdvances(s, enqueue, 0);
    case Start(t) => CreateAdvances(s, false, t);
    case Exit => assert Advances(s.c, s.c.ExitCurrent(), false);
    case _ =>
  }

  lemma {:induction false} WakeDueAppends(c: Globals)
    ensures c.ready <= c.WakeDueSleepers().ready
    decreases |c.sleep|
  {
    if c.sleep != [] && TickReached(c.ticks, c.WakeTick(c.sleep[0])) {
      WakeDueAppends(c.(sleep := c.sleep[1..]).ReadyPush(c.sleep[0]).(resched := true));
    }
  }

  /** With preemption on and somebody ready, a tick either reaches the scheduler or uses up a tick of the slice. */
  lemma TimerAdvances(c: Globals)
    requires c.preempt && c.ready != []
    ensures c.TimerTick().resched ==> Advances(c, c.TimerIrq(), true)
    ensures !c.TimerTick().resched ==>
              c.ready <= c.TimerIrq().ready && c.TimerIrq().slice == c.slice + 1 < c.perSlice
  {
    hide Sched.Schedule, Sched.WakeDueSleepers;
    var c1 := c.(ticks := (c.ticks + 1) % WRAP);
    WakeDueAppends(c1);
    ScheduleAdvances(c.TimerTick());
  }

  ghost predicate SliceOk(c: Globals) { c.preempt && c.slice < c.perSlice }

  /** The slice in use is never used up between steps, whether or not anybody is ready and preemption is on. */
  lemma StepKeepsSlice(s: Sys, l: Label)
    requires Structure(s) && s.c.slice < s.c.perSlice
    ensures Step(s, l).c.slice < Step(s, l).c.perSlice
    ensures s.c.preempt ==> Step(s, l).c.preempt
  {
    hide Structure;
    if s.panic.Some? || l.PreemptionInit? || l.Timer? {
      TimerKeepsSlice(s.c);
    } else {
      StepAdvances(s, l);
    }
  }

  lemma TimerKeepsSlice(c: Globals)
    requires c.slice < c.perSlice
    ensures c.TimerIrq().slice < c.TimerIrq().perSlice
  {
    hide Sched.WakeDueSleepers, Sched.Schedule;
  }

  lemma {:induction false} RunKeepsSlice(s: Sys, labels: seq<Label>)
    requires Inv(s) && s.c.slice < s.c.perSlice
    ensures Inv(RunAll(s, labels)) && RunAll(s, labels).c.slice < RunAll(s, labels).c.perSlice
    ensures s.c.preempt ==> RunAll(s, labels).c.preempt
    decreases |labels|
  {
    if labels != [] {
      StepKeepsSlice(s, labels[0]);
      RunInv(s, [labels[0]]);
      assert RunAll(s, [labels[0]]) == Step(s, labels[0]);
      RunKeepsSlice(Step(s, labels[0]), labels[1..]);
    }
  }

  /** In every run, turning preemption on starts a fresh slice of at least one tick; from then on preemption stays on
      and a slice is always running. */
  lemma PreemptionStarts(s0: Sys, before: seq<Label>, n: nat, labels: seq<Label>)
    requires Init(s0)
    requires var s := RunAll(s0, before); s.panic.None? && s.PcOf(s.c.cur).Run?
    ensures var s1 := Step(RunAll(s0, before), PreemptionInit(n));
            s1.c.slice == 0 && !s1.c.resched && s1.c.perSlice == (if n == 0 then 1 else n) && SliceOk(RunAll(s1, labels).c)
  {
    InitInv(s0);
    RunInv(s0, before);
    var s := RunAll(s0, before);
    RunInv(s, [PreemptionInit(n)]);
    assert RunAll(s, [PreemptionInit(n)]) == Step(s, PreemptionInit(n));
    RunKeepsSlice(Step(s, PreemptionInit(n)), labels);
  }

  /** Ticks that may still pass before the thread at index k of the ready queue is dispatched. */
  function Budget(c: Globals, k: nat): int { k * c.perSlice + c.perSlice - c.slice }

  /** One step: the thread at index k is dispatched, or has moved up by one for a scheduler call, and every tick
      is paid for. */
  ghost predicate MovedUp(c: Globals, d: Globals, k: nat, called: bool, tick: bool)
    requires k < |c.ready|
  {
    && SliceOk(d) && d.perSlice == c.perSlice
    && (called && k == 0 ==> d.cur == c.ready[0])
    && (called && k > 0 ==> |d.ready| >= k && d.ready[k - 1] == c.ready[k])
    && (!called ==> |d.ready| > k && d.ready[k] == c.ready[k])
    && (!called && tick ==> d.slice == c.slice + 1)
    && (!called && !tick ==> d.slice == c.slice)
    && (called ==> d.slice == 0)
  }

  lemma StepAdvances(s: Sys, l: Label)
    requires Structure(s) && s.panic.None? && !l.PreemptionInit? && !l.Timer?
    ensures Advances(s.c, Step(s, l).c, Schedules(s, l))
  {
    if l.KeyIrq? {
    } else if l.Go? {
      var p := s.pc[s.c.cur];
      if p.Test? || p.Retry? || p.Wait? || p.Parked? { ContinueTakingAdvances(s, p); }
      else if p.Pop? || p.PopAll? || p.Hold? || p.HoldAll? { ContinueWakingAdvances(s, p); }
      else { ContinueThreadAdvances(s, p); }
    } else if s.pc[s.c.cur].Run? {
      if !(l.Acquire? || l.TryAcquire? || l.Release? || l.WakeAll?) { CallThreadAdvances(s, l); }
    }
  }

  lemma StepMovesUp(s: Sys, l: Label, k: nat)
    requires Structure(s) && s.panic.None? && SliceOk(s.c) && k < |s.c.ready| && !l.PreemptionInit?
    ensures MovedUp(s.c, Step(s, l).c, k, Schedules(s, l), l.Timer?)
  {
    if l.Timer? { TimerAdvances(s.c); } else { StepAdvances(s, l); }
    var d := Step(s, l).c;
    if Schedules(s, l) && k > 0 { assert s.c.ready[1..][k - 1] == d.ready[k - 1]; }
  }

  function Calls(s: Sys, labels: seq<Label>): nat
    decreases |labels|
  {
    if labels == [] then 0
    else (if Schedules(s, labels[0]) then 1 else 0) + Calls(Step(s, labels[0]), labels[1..])
  }

  lemma {:induction false} DispatchedFrom(s: Sys, labels: seq<Label>, k: nat) returns (i: nat)
    requires Inv(s) && SliceOk(s.c) && k < |s.c.ready|
    requires forall l :: l in labels ==> !l.PreemptionInit?
    requires RunAll(s, labels).panic.None?
    requires Calls(s, labels) > k || Ticks(labels) >= Budget(s.c, k)
    ensures 0 < i <= |labels| && Calls(s, labels[..i]) == k + 1 && RunAll(s, labels[..i]).c.cur == s.c.ready[k]
    decreases |labels|
  {
    hide Step, Schedules, Structure;
    if labels == [] {
      assert false;
    } else {
      if s.panic.Some? { PanicStays(s, labels); }
      var s1 := Step(s, labels[0]);
      StepMovesUp(s, labels[0], k);
      RunInv(s, [labels[0]]);
      assert RunAll(s, [labels[0]]) == s1;
      if Schedules(s, labels[0]) && k == 0 {
        i := 1;
        assert labels[..1] == [labels[0]];
      } else {
        var k1 := if Schedules(s, labels[0]) then k - 1 else k;
        BudgetStep(s.c, s1.c, k, Schedules(s, labels[0]), labels[0].Timer?);
        var j := DispatchedFrom(s1, labels[1..], k1);
        i := j + 1;
        assert labels[..i][0] == labels[0] && labels[..i][1..] == labels[1..][..j];
      }
    }
  }

  /** In every run, once preemption is on, the thread at index k of the ready queue is dispatched by exactly the
      (k+1)-th scheduler call that follows, and if as many ticks follow as k+1 slices hold, less the part of the current
      slice already used, that call has come, whatever is created, woken or blocked meanwhile. */
  lemma BoundedWaiting(s0: Sys, before: seq<Label>, labels: seq<Label>, k: nat) returns (i: nat)
    requires Init(s0) && RunAll(s0, before).c.preempt && k < |RunAll(s0, before).c.ready|
    requires forall l :: l in labels ==> !l.PreemptionInit?
    requires RunAll(RunAll(s0, before), labels).panic.None?
    requires Calls(RunAll(s0, before), labels) > k || Ticks(labels) >= Budget(RunAll(s0, before).c, k)
    ensures var s := RunAll(s0, before);
            0 < i <= |labels| && Calls(s, labels[..i]) == k + 1 && RunAll(s, labels[..i]).c.cur == s.c.ready[k]
  {
    InitInv(s0);
    RunKeepsSlice(s0, before);
    i := DispatchedFrom(RunAll(s0, before), labels, k);
  }

  lemma BudgetStep(c: Globals, d: Globals, k: nat, called: bool, tick: bool)
    requires SliceOk(c) && k < |c.ready| && MovedUp(c, d, k, called, tick) && (called ==> k > 0)
    ensures Budget(d, if called then k - 1 else k) <= Budget(c, k) - (if tick then 1 else 0)
  {
    if called {
      assert k * c.perSlice == (k - 1) * c.perSlice + c.perSlice;
    }
  }
}
