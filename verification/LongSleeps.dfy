/** Sleeps of more than half a turn of the tick counter: how each breaks some sleeper's wake-up, and the exact bound. */
module LongSleeps {
  import opened Base
  import opened SchedulerSpec
  import opened Protocol
  import opened ProtocolInvariant
  import opened Wakeups
  import opened Timing

  /** The current thread x is about to make a call; nothing but the given threads is ready or asleep and no tick has come. */
  ghost predicate Starting(s: Sys, x: Tid, ready: seq<Tid>, sleep: seq<Tid>) {
    && s.panic.None? && s.c.cur == x != s.c.idle && s.PcOf(x) == Run && s.c.State(x) == Running
    && s.c.ready == ready && s.c.sleep == sleep && s.c.ticks == 0 && s.now == 0
  }

  /** Falling asleep behind the given sleepers and switching to the next thread. */
  lemma FallsAsleep(s: Sys, x: Tid, ready: seq<Tid>, sleep: seq<Tid>, n: nat)
    requires Starting(s, x, ready, sleep) && 0 < n < WRAP && x !in ready
    requires sleep == [] || (|sleep| == 1 && sleep[0] != x && !TickReached(s.c.WakeTick(sleep[0]), n))
    ensures var s' := Step(Step(s, Sleep(n)), Go);
            && s'.panic.None? && s'.c.sleep == sleep + [x] && s'.c.ticks == 0 && s'.now == 0
            && s'.c.wake == s.c.wake[x := n] && s'.due == s.due[x := n] && s'.c.idle == s.c.idle
            && (ready == [] ==> s'.c.cur == s.c.idle && s'.c.ready == [])
            && (ready != [] ==> s'.c.cur == ready[0] && s'.c.ready == ready[1..] && s'.c.State(ready[0]) == Running)
            && (forall t :: t != x ==> s'.PcOf(t) == s.PcOf(t))
  {
    var c := s.c.SleepTicks(n);
    SleepsLast(s.c, n);
    var s1 := s.At(SleepYield).(c := c, due := s.due[x := n]);
    assert Step(s, Sleep(n)) == s1;
    assert Step(s1, Go) == s1.At(Run).(c := c.Schedule());
  }

  lemma SleepsLast(c: Globals, n: nat)
    requires c.cur != c.idle && c.ticks == 0 && 0 < n < WRAP
    requires c.sleep == [] || (|c.sleep| == 1 && c.sleep[0] != c.cur && !TickReached(c.WakeTick(c.sleep[0]), n))
    ensures var d := c.SleepTicks(n);
            && d.sleep == c.sleep + [c.cur] && d.wake == c.wake[c.cur := n] && d.ready == c.ready && d.ticks == 0
            && d.cur == c.cur && d.idle == c.idle && d.State(c.cur) == Sleeping
  {
    var wake' := c.wake[c.cur := (c.ticks + n) % WRAP];
    var d := c.(wake := wake');
    assert n % WRAP == n;
    var k := SleepPos(d.sleep, d.wake, n, 0);
    assert k == |c.sleep|;
    assert c.sleep[..k] + [c.cur] + c.sleep[k..] == c.sleep + [c.cur];
  }

  lemma InitStarting(s0: Sys)
    requires Init(s0)
    ensures Starting(s0, s0.c.boot, [], [])
  {
  }

  lemma CreatedStarting(s0: Sys)
    requires Init(s0)
    ensures var s, t := Step(s0, Create(true)), s0.nextId;
            && Starting(s, s0.c.boot, [t], []) && s.PcOf(t) == Run && s.c.idle == s0.c.idle && t != s0.c.idle && t != s0.c.boot
  {
  }

  lemma Ticked(s: Sys)
    requires s.panic.None?
    ensures Step(s, Timer) == s.(c := s.c.TimerIrq(), now := s.now + 1)
  {
  }

  /** A sleep of 2^31 + 2 ticks or more, alone, ends at the first tick. */
  lemma WakesEarly(s0: Sys, n: nat)
    requires Init(s0) && HALF + 1 < n < WRAP
    ensures var s := RunAll(s0, [Sleep(n), Go]);
            && s.panic.None? && s0.c.boot in s.c.sleep && s.now == 0 && DueAt(s.due, s0.c.boot) == n
            && s0.c.boot !in Step(s, Timer).c.sleep
    ensures !ExactRun(s0, [Sleep(n), Go, Timer])
  {
    hide Step, RunAll, ExactRun, ExactStep, Sched.TimerIrq;
    var b := s0.c.boot;
    InitStarting(s0);
    FallsAsleep(s0, b, [], [], n);
    var s := Step(Step(s0, Sleep(n)), Go);
    RunTwo(s0, Sleep(n), Go, []);
    RunNone(s);
    ExactTwo(s0, Sleep(n), Go, [Timer]);
    assert [Sleep(n), Go] + [] == [Sleep(n), Go] && [Sleep(n), Go] + [Timer] == [Sleep(n), Go, Timer];
    assert TickReached(1, n);
    EmptiesSleep(s.c);
    Ticked(s);
    ExactFails(s, Timer, b);
  }

  lemma EmptiesSleep(c: Globals)
    requires |c.sleep| == 1 && c.ticks == 0 && TickReached(1, c.WakeTick(c.sleep[0]))
    ensures c.TimerIrq().sleep == []
  {
    var c1 := c.(ticks := 1);
    var c2 := c1.(sleep := c.sleep[1..]).ReadyPush(c.sleep[0]).(resched := true);
    assert c2.sleep == [] && c1.WakeDueSleepers() == c2.WakeDueSleepers() == c2;
  }

  /** With a sleep of 2^31 + 1 ticks ahead of it in the queue, a sleep of one tick is not over at the first tick:
      the head of the queue is due in 2^31 ticks more, and the tick looks no further. */
  lemma StarvesAnother(s0: Sys)
    requires Init(s0)
    ensures var b, t := s0.c.boot, s0.nextId;
            var s := RunAll(s0, [Create(true), Sleep(HALF + 1), Go, Sleep(1), Go, Timer]);
            && s.panic.None? && s.now == 1 && s.c.sleep == [b, t] && DueAt(s.due, t) == 1 && DueAt(s.due, b) == HALF + 1
    ensures !ExactRun(s0, [Create(true), Sleep(HALF + 1), Go, Sleep(1), Go, Timer])
  {
    hide Step, RunAll, ExactRun, ExactStep, Sched.TimerIrq;
    var b, t := s0.c.boot, s0.nextId;
    var s1 := Step(s0, Create(true));
    var s3 := Step(Step(s1, Sleep(HALF + 1)), Go);
    var s5 := Step(Step(s3, Sleep(1)), Go);
    CreatedStarting(s0);
    FallsAsleep(s1, b, [t], [], HALF + 1);
    assert !TickReached(HALF + 1, 1) && !TickReached(1, HALF + 1);
    FallsAsleep(s3, t, [], [b], 1);
    LeavesAsleep(s5.c);
    Ticked(s5);
    SixSteps(s0, s1, s3, s5);
    ExactFails(s5, Timer, t);
  }

  lemma LeavesAsleep(c: Globals)
    requires c.sleep != [] && c.ticks == 0 && !TickReached(1, c.WakeTick(c.sleep[0]))
    ensures c.TimerIrq().sleep == c.sleep
  {
    assert c.(ticks := 1).WakeDueSleepers() == c.(ticks := 1);
  }

  lemma ExactFails(s: Sys, l: Label, x: Tid)
    requires s.panic.None? && x in s.c.sleep && l.Timer?
    requires (x !in Step(s, l).c.sleep) != (DueAt(s.due, x) == s.now + 1)
    ensures !ExactStep(s, l) && !ExactRun(s, [l])
  {
  }

  lemma RunNone(s: Sys)
    ensures RunAll(s, []) == s
  {
  }

  lemma ExactTwo(s: Sys, a: Label, b: Label, rest: seq<Label>)
    ensures !ExactRun(Step(Step(s, a), b), rest) ==> !ExactRun(s, [a, b] + rest)
  {
    hide Step, ExactStep;
    assert ([a, b] + rest)[1..] == [b] + rest && ([b] + rest)[1..] == rest;
  }

  lemma SixSteps(s0: Sys, s1: Sys, s3: Sys, s5: Sys)
    requires s1 == Step(s0, Create(true)) && s3 == Step(Step(s1, Sleep(HALF + 1)), Go) && s5 == Step(Step(s3, Sleep(1)), Go)
    ensures var labels := [Create(true), Sleep(HALF + 1), Go, Sleep(1), Go, Timer];
            && RunAll(s0, labels) == Step(s5, Timer)
            && (!ExactRun(s5, [Timer]) ==> !ExactRun(s0, labels))
  {
    hide Step, ExactStep;
    var l5 := [Timer];
    var l3 := [Sleep(1), Go] + l5;
    var l1 := [Sleep(HALF + 1), Go] + l3;
    var labels := [Create(true)] + l1;
    assert labels == [Create(true), Sleep(HALF + 1), Go, Sleep(1), Go, Timer];
    ExactTwo(s3, Sleep(1), Go, l5);
    ExactTwo(s1, Sleep(HALF + 1), Go, l3);
    RunTwo(s3, Sleep(1), Go, l5);
    RunTwo(s1, Sleep(HALF + 1), Go, l3);
    assert labels[1..] == l1;
    assert RunAll(s5, l5) == RunAll(Step(s5, Timer), []) by { assert l5[1..] == []; }
  }

  lemma RunTwo(s: Sys, a: Label, b: Label, rest: seq<Label>)
    ensures RunAll(s, [a, b] + rest) == RunAll(Step(Step(s, a), b), rest)
  {
    hide Step;
    assert ([a, b] + rest)[1..] == [b] + rest && ([b] + rest)[1..] == rest;
  }

  /** The labels, one of them a sleep of n ticks and any other sleep a single tick. */
  ghost predicate OneLongSleep(labels: seq<Label>, n: nat) {
    Sleep(n) in labels && forall l :: l in labels && l.Sleep? ==> l.n == n || l.n == 1
  }

  /** Every sleep of more than 2^31 ticks breaks some run: its own wake-up comes early, or another's late. */
  lemma LongSleepBreaks(s0: Sys, n: nat) returns (labels: seq<Label>)
    requires Init(s0) && HALF < n < WRAP
    ensures OneLongSleep(labels, n) && !ExactRun(s0, labels)
  {
    if n == HALF + 1 {
      StarvesAnother(s0);
      labels := [Create(true), Sleep(HALF + 1), Go, Sleep(1), Go, Timer];
      assert labels[1] == Sleep(n);
    } else {
      WakesEarly(s0, n);
      labels := [Sleep(n), Go, Timer];
      assert labels[0] == Sleep(n);
    }
  }

  /** All runs whose sleeps are at most N ticks wake everybody at exactly the right tick, if and only if N <= 2^31. */
  lemma SleepsExactIff(s0: Sys, most: nat)
    requires Init(s0)
    ensures (forall labels :: SleepsAtMost(labels, most) ==> ExactRun(s0, labels)) <==> most <= HALF
  {
    if most <= HALF {
      InitInv(s0);
      InitTime(s0);
      forall labels | SleepsAtMost(labels, most) ensures ExactRun(s0, labels) { ShortSleepsExact(s0, labels); }
    } else {
      var labels := LongSleepBreaks(s0, HALF + 1);
      assert SleepsAtMost(labels, most);
    }
  }

  const BOOT: Sys := Sys(
    Sched(map[1 := Running, 2 := New], map[1 := 0, 2 := 0], [], [], [], map[], 1, 2, 1, 0, 0, 1, false, false),
    map[1 := Run, 2 := Run], map[], map[], 3, 0, map[], None)

  /** There is an initial state. */
  lemma BootIsInitial()
    ensures Init(BOOT)
  {
  }
}
