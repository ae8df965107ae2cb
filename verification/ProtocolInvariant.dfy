/** What every step of the protocol keeps. */
module ProtocolInvariant {
  import opened Base
  import opened SchedulerSpec
  import opened Protocol

  type Globals = Sched<Tid, Qid>

  // ------------------------------------------------ the invariant, thread by thread

  /** Ready, sleep and zombie queues hold exactly the threads whose state says so;
      only the current thread and idle are RUNNING. */
  ghost predicate QueuedOk(c: Globals, x: Tid) {
    && (x in c.ready <==> x in c.st && c.st[x] == Ready)
    && (x in c.sleep <==> x in c.st && c.st[x] == Sleeping)
    && (x in c.zombie ==> x in c.st && c.st[x] == Zombie && x != c.boot)
    && (x in c.st && c.st[x] == Running ==> x == c.cur || x == c.idle)
  }

  ghost predicate GlobalsOk(c: Globals) {
    && NoDup(c.ready) && NoDup(c.sleep) && NoDup(c.zombie)
    && c.cur in c.st && c.idle in c.st && c.boot in c.st && c.boot != c.idle
    && (c.st[c.idle] == New || c.st[c.idle] == Running)
    && (c.cur == c.idle ==> c.st[c.idle] == Running)
  }

  ghost predicate QueuesMatch(c: Globals) {
    GlobalsOk(c) && forall x :: QueuedOk(c, x)
  }

  /** A thread's state says where it stands; a blocked or dead thread is on its queue or held by one thread. */
  ghost predicate ThreadOk(s: Sys, x: Tid) {
    && (x in s.c.st <==> x in s.pc)
    && (x in s.pc ==>
          var p := s.pc[x];
          && x < s.nextId && (p.HasQueue() ==> p.q in s.res)
          && (s.c.st[x] == Zombie <==> p.ExitYield? || p.ExitDone?)
          && (s.c.st[x] == Zombie ==> x == s.c.boot || x in s.c.zombie || x in s.heldBy)
          && (s.c.st[x] == Sleeping ==> p.SleepYield? || p.Run?)
          && (s.c.st[x] == New ==> p.Run?)
          && (s.c.st[x] == Blocked ==> p.Parked? && (x in s.heldBy || x in s.c.Waiters(p.q)))
          && (p.Holds() ==> p.t in s.heldBy && s.heldBy[p.t] == x))
  }

  /** A thread off every queue is held by a thread that is about to wake it or free it. */
  ghost predicate HeldOk(s: Sys, x: Tid) {
    x in s.heldBy ==>
      && x in s.pc && x in s.c.st
      && s.heldBy[x] in s.pc
      && var p := s.pc[s.heldBy[x]];
         && p.Holds() && p.t == x
         && if p.Reaping? then s.c.st[x] == Zombie && x !in s.c.zombie && x != s.c.boot && x != s.c.cur
            else s.c.st[x] == Blocked && s.pc[x] == Parked(p.q) && x !in s.c.Waiters(p.q)
  }

  /** A wait queue holds blocked threads parked on it that no waker has taken. */
  ghost predicate WaiterOk(s: Sys, q: Qid, x: Tid) {
    x in s.c.Waiters(q) ==>
      x in s.pc && x in s.c.st && s.c.st[x] == Blocked && s.pc[x] == Parked(q) && x !in s.heldBy
  }

  ghost predicate WaitQueueOk(s: Sys, q: Qid) {
    NoDup(s.c.Waiters(q)) && (q in s.c.waits ==> q in s.res)
  }

  /** The current thread is RUNNING, or has just gone to sleep or exited and not yet yielded. */
  ghost predicate CurrentOk(s: Sys) {
    && s.c.cur in s.pc && s.c.cur in s.c.st && !s.pc[s.c.cur].ExitDone?
    && (s.c.st[s.c.cur] == Running
        || (s.c.st[s.c.cur] == Sleeping && s.pc[s.c.cur].SleepYield?)
        || s.c.st[s.c.cur] == Zombie)
  }

  ghost predicate Settled(s: Sys) {
    && QueuesMatch(s.c)
    && (forall x :: ThreadOk(s, x))
    && (forall x :: HeldOk(s, x))
    && (forall q, x :: WaiterOk(s, q, x))
    && (forall q :: WaitQueueOk(s, q))
  }

  ghost predicate Structure(s: Sys) {
    Settled(s) && CurrentOk(s)
  }

  // ------------------------------------------------ what the scheduler's functions keep

  lemma ReadyPushKeeps(c: Globals, t: Tid)
    requires QueuesMatch(c) && t in c.st && t != c.idle
    requires c.st[t] != Ready && c.st[t] != Sleeping && c.st[t] != Zombie
    ensures QueuesMatch(c.ReadyPush(t))
  {
    assert QueuedOk(c, t);
    NoDupAppend(c.ready, t);
    var d := c.ReadyPush(t);
    forall x ensures QueuedOk(d, x) { assert QueuedOk(c, x); }
  }

  lemma DispatchReadyKeeps(c: Globals)
    requires QueuesMatch(c) && c.ready != []
    requires c.cur == c.idle || c.st[c.cur] != Running
    ensures QueuesMatch(c.(ready := c.ready[1..]).Dispatch(c.ready[0]))
  {
    NoDupTail(c.ready);
    var d := c.(ready := c.ready[1..]).Dispatch(c.ready[0]);
    assert QueuedOk(c, c.ready[0]);
    forall x ensures QueuedOk(d, x) { assert QueuedOk(c, x); }
  }

  lemma DispatchIdleKeeps(c: Globals)
    requires QueuesMatch(c) && c.st[c.cur] != Running
    ensures QueuesMatch(c.Dispatch(c.idle))
  {
    var d := c.Dispatch(c.idle);
    assert QueuedOk(c, c.idle);
    forall x ensures QueuedOk(d, x) { assert QueuedOk(c, x); }
  }

  lemma SameQueues(c: Globals, d: Globals)
    requires QueuesMatch(c)
    requires d.ready == c.ready && d.sleep == c.sleep && d.zombie == c.zombie && d.st == c.st
    requires d.cur == c.cur && d.idle == c.idle && d.boot == c.boot
    ensures QueuesMatch(d)
  {
    forall x ensures QueuedOk(d, x) { assert QueuedOk(c, x); }
  }

  lemma ScheduleKeepsQueues(c: Globals)
    requires QueuesMatch(c)
    ensures QueuesMatch(c.Schedule())
  {
    if c.ready == [] {
      if c.cur == c.idle || c.st[c.cur] == Running {
        SameQueues(c, c.Schedule());
      } else {
        DispatchIdleKeeps(c);
      }
    } else if c.cur != c.idle && c.st[c.cur] == Running {
      ReadyPushKeeps(c, c.cur);
      DispatchReadyKeeps(c.ReadyPush(c.cur));
    } else {
      DispatchReadyKeeps(c);
    }
  }

  /** No thread became or stopped being blocked, dead, new (but idle) or asleep (but READY now). */
  ghost predicate StateKept(c: Globals, d: Globals, x: Tid) {
    && (x in c.st <==> x in d.st)
    && (x in c.st ==>
          && (d.st[x] == Blocked <==> c.st[x] == Blocked)
          && (d.st[x] == Zombie <==> c.st[x] == Zombie)
          && (d.st[x] == New ==> c.st[x] == New)
          && (d.st[x] == Sleeping ==> c.st[x] == Sleeping))
  }

  ghost predicate SameParked(c: Globals, d: Globals) {
    && d.waits == c.waits && d.zombie == c.zombie && d.idle == c.idle && d.boot == c.boot
    && forall x :: StateKept(c, d, x)
  }

  /** A switch leaves the current thread RUNNING. */
  lemma ScheduleKeepsStates(c: Globals, d: Globals)
    requires QueuesMatch(c) && d == c.Schedule()
    ensures d.cur in d.st && d.st[d.cur] == Running
    ensures SameParked(c, d)
  {
    if c.ready != [] {
      assert QueuedOk(c, c.ready[0]) && QueuedOk(c, c.cur);
    }
    forall x ensures StateKept(c, d, x) { }
  }

  lemma WakeFirstKeeps(c: Globals, d: Globals)
    requires QueuesMatch(c) && c.sleep != []
    requires d == c.(sleep := c.sleep[1..]).ReadyPush(c.sleep[0]).(resched := true)
    ensures QueuesMatch(d) && SameParked(c, d)
  {
    var t := c.sleep[0];
    assert QueuedOk(c, t) && QueuedOk(c, c.idle);
    NoDupTail(c.sleep);
    NoDupAppend(c.ready, t);
    forall x ensures QueuedOk(d, x) && StateKept(c, d, x) { assert QueuedOk(c, x); }
  }

  lemma WakeDueKeeps(c: Globals)
    requires QueuesMatch(c)
    ensures QueuesMatch(c.WakeDueSleepers())
    ensures SameParked(c, c.WakeDueSleepers())
    ensures c.WakeDueSleepers().resched || c.WakeDueSleepers() == c
    ensures c.WakeDueSleepers().cur == c.cur
    decreases |c.sleep|
  {
    if c.sleep != [] && TickReached(c.ticks, c.WakeTick(c.sleep[0])) {
      var d := c.(sleep := c.sleep[1..]).ReadyPush(c.sleep[0]).(resched := true);
      WakeFirstKeeps(c, d);
      WakeDueKeeps(d);
      assert c.WakeDueSleepers() == d.WakeDueSleepers();
      var e := d.WakeDueSleepers();
      forall x ensures StateKept(c, e, x) { assert StateKept(c, d, x) && StateKept(d, e, x); }
    } else {
      assert c.WakeDueSleepers() == c;
      forall x ensures StateKept(c, c, x) { }
    }
  }

  // ------------------------------------------------ what each step keeps

  lemma FrameParked(s: Sys, d: Globals)
    requires Settled(s) && SameParked(s.c, d) && QueuesMatch(d)
    requires d.cur == s.c.cur || d.st[d.cur] == Running
    ensures Settled(s.(c := d))
  {
    var s' := s.(c := d);
    forall x ensures ThreadOk(s', x) { assert StateKept(s.c, d, x) && ThreadOk(s, x); }
    forall x ensures HeldOk(s', x) { assert StateKept(s.c, d, x) && HeldOk(s, x); }
    forall q, x ensures WaiterOk(s', q, x) { assert StateKept(s.c, d, x) && WaiterOk(s, q, x); }
    forall q ensures WaitQueueOk(s', q) { assert WaitQueueOk(s, q); }
  }

  lemma SwitchKeeps(s: Sys)
    requires Settled(s)
    ensures Structure(s.(c := s.c.Schedule()))
  {
    var d := s.c.Schedule();
    ScheduleKeepsQueues(s.c);
    ScheduleKeepsStates(s.c, d);
    FrameParked(s, d);
    assert ThreadOk(s.(c := d), d.cur);
  }

  lemma TimerTickKeeps(c: Globals, d: Globals)
    requires QueuesMatch(c) && d == c.TimerTick()
    ensures QueuesMatch(d) && SameParked(c, d) && d.cur == c.cur
    ensures d.resched || d.st == c.st
  {
    var c1 := c.(ticks := (c.ticks + 1) % WRAP);
    SameQueues(c, c1);
    WakeDueKeeps(c1);
    var c2 := c1.WakeDueSleepers();
    SameQueues(c2, d);
    forall x ensures StateKept(c, d, x) { assert StateKept(c1, c2, x); }
  }

  lemma TimerKeeps(s: Sys, d: Globals)
    requires Structure(s) && d == s.c.TimerIrq()
    ensures Structure(s.(c := d))
  {
    var e := s.c.TimerTick();
    TimerTickKeeps(s.c, e);
    FrameParked(s, e);
    if e.resched {
      SwitchKeeps(s.(c := e));
    }
  }

  /** The current thread moves on without touching a queue. */
  lemma MoveKeeps(s: Sys, p: Pc)
    requires Structure(s)
    requires !s.PcOf(s.c.cur).Holds() && !p.Holds()
    requires !p.ExitYield? && !p.ExitDone? && s.c.st[s.c.cur] != Zombie
    requires s.c.st[s.c.cur] == Sleeping ==> p.SleepYield?
    requires p.HasQueue() ==> p.q in s.res
    ensures Structure(s.At(p))
  {
    var s' := s.At(p);
    assert QueuedOk(s.c, s.c.cur);
    forall x ensures ThreadOk(s', x) { assert ThreadOk(s, x); }
    forall x ensures HeldOk(s', x) { assert HeldOk(s, x); }
    forall q, x ensures WaiterOk(s', q, x) { assert WaiterOk(s, q, x); }
    forall q ensures WaitQueueOk(s', q) { assert WaitQueueOk(s, q); }
  }

  /** Counters, history, the clock and a panic play no part in the structure. */
  lemma SameStructure(s: Sys, s': Sys)
    requires Structure(s)
    requires s'.c == s.c && s'.pc == s.pc && s'.heldBy == s.heldBy && s'.nextId == s.nextId
    requires s'.res.Keys == s.res.Keys
    ensures Structure(s')
  {
    forall x ensures ThreadOk(s', x) { assert ThreadOk(s, x); }
    forall x ensures HeldOk(s', x) { assert HeldOk(s, x); }
    forall q, x ensures WaiterOk(s', q, x) { assert WaiterOk(s, q, x); }
    forall q ensures WaitQueueOk(s', q) { assert WaitQueueOk(s, q); }
  }

  lemma ParkKeeps(s: Sys, q: Qid)
    requires Structure(s) && s.c.cur != s.c.idle && s.c.st[s.c.cur] == Running && q in s.res
    requires !s.pc[s.c.cur].Holds()
    ensures Structure(s.At(Parked(q)).(c := s.c.Park(q).Schedule()))
  {
    var t := s.c.cur;
    var d := s.c.Park(q);
    var s' := s.At(Parked(q)).(c := d);
    assert HeldOk(s, t) && ThreadOk(s, t) && WaiterOk(s, q, t) && WaitQueueOk(s, q);
    NoDupAppend(s.c.Waiters(q), t);
    forall x ensures QueuedOk(d, x) { assert QueuedOk(s.c, x); }
    forall x ensures ThreadOk(s', x) { assert ThreadOk(s, x); }
    forall x ensures HeldOk(s', x) { assert HeldOk(s, x); }
    forall r, x ensures WaiterOk(s', r, x) { assert WaiterOk(s, r, x); }
    forall r ensures WaitQueueOk(s', r) { assert WaitQueueOk(s, r); }
    SwitchKeeps(s');
  }

  lemma PopWaiterThreads(s: Sys, q: Qid, all: bool)
    requires Structure(s) && s.pc[s.c.cur] == (if all then PopAll(q) else Pop(q)) && s.c.Waiters(q) != []
    ensures var s' := PopWaiter(s, q, all); forall x :: ThreadOk(s', x) && HeldOk(s', x)
  {
    var t := s.c.Waiters(q)[0];
    var s' := PopWaiter(s, q, all);
    assert WaiterOk(s, q, t) && WaitQueueOk(s, q) && ThreadOk(s, s.c.cur) && QueuedOk(s.c, t);
    NoDupTail(s.c.Waiters(q));
    forall x ensures ThreadOk(s', x) { assert ThreadOk(s, x) && WaiterOk(s, q, x); }
    forall x ensures HeldOk(s', x) { assert HeldOk(s, x); }
  }

  lemma PopWaiterQueues(s: Sys, q: Qid, all: bool)
    requires Structure(s) && s.pc[s.c.cur] == (if all then PopAll(q) else Pop(q)) && s.c.Waiters(q) != []
    ensures var s' := PopWaiter(s, q, all); (forall r, x :: WaiterOk(s', r, x)) && (forall r :: WaitQueueOk(s', r))
  {
    var t := s.c.Waiters(q)[0];
    var s' := PopWaiter(s, q, all);
    assert WaiterOk(s, q, t) && WaitQueueOk(s, q) && ThreadOk(s, s.c.cur) && QueuedOk(s.c, t);
    NoDupTail(s.c.Waiters(q));
    forall r, x ensures WaiterOk(s', r, x) { assert WaiterOk(s, r, x); }
    forall r ensures WaitQueueOk(s', r) { assert WaitQueueOk(s, r); }
  }

  lemma PopWaiterKeeps(s: Sys, q: Qid, all: bool)
    requires Structure(s) && s.pc[s.c.cur] == (if all then PopAll(q) else Pop(q))
    ensures Structure(PopWaiter(s, q, all))
  {
    if s.c.Waiters(q) == [] {
      assert ThreadOk(s, s.c.cur);
      MoveKeeps(s, Run);
    } else {
      PopWaiterThreads(s, q, all);
      PopWaiterQueues(s, q, all);
      SameQueues(s.c, PopWaiter(s, q, all).c);
      assert ThreadOk(s, s.c.cur) && WaiterOk(s, q, s.c.Waiters(q)[0]);
    }
  }

  lemma WakeHeldFrame(s: Sys, t: Tid, next: Pc, d: Globals)
    requires Structure(s) && s.pc[s.c.cur].Holds() && s.pc[s.c.cur].t == t
    requires next.Run? || (next.PopAll? && next.q in s.res)
    requires s.c.State(t) == Blocked
    requires QueuesMatch(d) && d.st == s.c.st[t := Ready] && d.waits == s.c.waits && d.zombie == s.c.zombie
    requires d.cur == s.c.cur && d.idle == s.c.idle && d.boot == s.c.boot
    ensures Structure(s.At(next).(c := d, heldBy := s.heldBy - {t}))
  {
    var s' := s.At(next).(c := d, heldBy := s.heldBy - {t});
    assert ThreadOk(s, s.c.cur) && HeldOk(s, t) && QueuedOk(s.c, s.c.cur);
    forall x ensures ThreadOk(s', x) { assert ThreadOk(s, x); }
    forall x ensures HeldOk(s', x) { assert HeldOk(s, x); }
    forall r, x ensures WaiterOk(s', r, x) { assert WaiterOk(s, r, x); }
    forall r ensures WaitQueueOk(s', r) { assert WaitQueueOk(s, r); }
  }

  /** thread_wake always finds the popped thread BLOCKED: the wake is never dropped. */
  lemma WakeHeldKeeps(s: Sys, t: Tid, next: Pc)
    requires Structure(s) && s.pc[s.c.cur].Holds() && s.pc[s.c.cur].t == t && !s.pc[s.c.cur].Reaping?
    requires next.Run? || (next.PopAll? && next.q in s.res)
    ensures s.c.State(t) == Blocked
    ensures Structure(WakeHeld(s, t, next))
  {
    assert ThreadOk(s, s.c.cur) && HeldOk(s, t);
    ReadyPushKeeps(s.c, t);
    var d := s.c.Wake(t);
    SameQueues(s.c.ReadyPush(t), d);
    WakeHeldFrame(s, t, next, d);
  }

  lemma PopZombieFrame(s: Sys, z: Tid, d: Globals)
    requires Structure(s) && s.pc[s.c.cur].Reap? && z in s.c.zombie
    requires QueuesMatch(d) && d == s.c.(zombie := d.zombie)
    requires forall x :: x in d.zombie <==> x in s.c.zombie && x != z
    ensures Structure(s.At(Reaping(z)).(c := d, heldBy := s.heldBy[z := s.c.cur]))
  {
    var s' := s.At(Reaping(z)).(c := d, heldBy := s.heldBy[z := s.c.cur]);
    assert QueuedOk(s.c, z) && ThreadOk(s, z) && HeldOk(s, z) && ThreadOk(s, s.c.cur);
    forall x ensures ThreadOk(s', x) { assert ThreadOk(s, x); }
    forall x ensures HeldOk(s', x) { assert HeldOk(s, x); }
    forall r, x ensures WaiterOk(s', r, x) { assert WaiterOk(s, r, x); }
    forall r ensures WaitQueueOk(s', r) { assert WaitQueueOk(s, r); }
  }

  lemma PopZombieKeeps(s: Sys)
    requires Structure(s) && s.pc[s.c.cur].Reap?
    ensures Structure(PopZombie(s))
  {
    if s.c.zombie == [] {
      assert ThreadOk(s, s.c.cur);
      MoveKeeps(s, Run);
    } else {
      NoDupTail(s.c.zombie);
      var d := s.c.(zombie := s.c.zombie[1..]);
      forall x ensures QueuedOk(d, x) { assert QueuedOk(s.c, x); }
      PopZombieFrame(s, s.c.zombie[0], d);
    }
  }

  lemma FreeZombieThreads(s: Sys, z: Tid)
    requires Structure(s) && s.pc[s.c.cur] == Reaping(z)
    ensures var s' := FreeZombie(s, z); QueuesMatch(s'.c) && CurrentOk(s') && forall x :: ThreadOk(s', x)
  {
    var s' := FreeZombie(s, z);
    assert ThreadOk(s, s.c.cur) && HeldOk(s, z) && ThreadOk(s, z) && QueuedOk(s.c, z) && QueuedOk(s.c, s.c.cur);
    forall x ensures QueuedOk(s'.c, x) { assert QueuedOk(s.c, x); }
    forall x ensures ThreadOk(s', x) { assert ThreadOk(s, x); }
  }

  lemma FreeZombieKeeps(s: Sys, z: Tid)
    requires Structure(s) && s.pc[s.c.cur] == Reaping(z)
    ensures Structure(FreeZombie(s, z))
  {
    hide QueuedOk, ThreadOk, HeldOk, WaiterOk, CurrentOk;
    FreeZombieThreads(s, z);
    var s' := FreeZombie(s, z);
    forall x ensures HeldOk(s', x) { FreeZombieHeld(s, z, x); }
    forall r, x ensures WaiterOk(s', r, x) { FreeZombieWaiter(s, z, r, x); }
    forall r ensures WaitQueueOk(s', r) { assert WaitQueueOk(s, r); }
  }

  lemma FreeZombieHeld(s: Sys, z: Tid, x: Tid)
    requires Structure(s) && s.pc[s.c.cur] == Reaping(z)
    ensures HeldOk(FreeZombie(s, z), x)
  {
    assert HeldOk(s, x) && ThreadOk(s, s.c.cur) && HeldOk(s, z) && ThreadOk(s, z);
  }

  lemma FreeZombieWaiter(s: Sys, z: Tid, r: Qid, x: Tid)
    requires Structure(s) && s.pc[s.c.cur] == Reaping(z)
    ensures WaiterOk(FreeZombie(s, z), r, x)
  {
    assert WaiterOk(s, r, x) && ThreadOk(s, s.c.cur) && HeldOk(s, z) && CurrentOk(s);
  }

  lemma SleepQueues(c: Globals, d: Globals, k: nat)
    requires QueuesMatch(c) && c.cur != c.idle && c.st[c.cur] == Running && k <= |c.sleep|
    requires d.sleep == c.sleep[..k] + [c.cur] + c.sleep[k..] && d.st == c.st[c.cur := Sleeping]
    requires d.ready == c.ready && d.zombie == c.zombie && d.cur == c.cur && d.idle == c.idle && d.boot == c.boot
    ensures QueuesMatch(d)
  {
    assert QueuedOk(c, c.cur);
    assert forall x :: x in d.sleep <==> x in c.sleep || x == c.cur by {
      assert c.sleep == c.sleep[..k] + c.sleep[k..];
    }
    forall x ensures QueuedOk(d, x) { assert QueuedOk(c, x); }
  }

  lemma SleepFrame(s: Sys, d: Globals, due': map<Tid, nat>)
    requires Structure(s) && s.pc[s.c.cur].Run? && s.c.st[s.c.cur] == Running
    requires QueuesMatch(d) && d.st == s.c.st[s.c.cur := Sleeping] && d.waits == s.c.waits && d.zombie == s.c.zombie
    requires d.cur == s.c.cur && d.idle == s.c.idle && d.boot == s.c.boot
    ensures Structure(s.At(SleepYield).(c := d, due := due'))
  {
    var s' := s.At(SleepYield).(c := d, due := due');
    assert ThreadOk(s, s.c.cur) && HeldOk(s, s.c.cur);
    forall x ensures ThreadOk(s', x) { assert ThreadOk(s, x); }
    forall x ensures HeldOk(s', x) { assert HeldOk(s, x); }
    forall r, x ensures WaiterOk(s', r, x) { assert WaiterOk(s, r, x); }
    forall r ensures WaitQueueOk(s', r) { assert WaitQueueOk(s, r); }
  }

  lemma SleepKeeps(s: Sys, n: nat)
    requires Structure(s) && s.pc[s.c.cur].Run? && s.c.cur != s.c.idle && n > 0
    ensures Structure(SleepStep(s, n))
  {
    assert ThreadOk(s, s.c.cur);
    var d := s.c.SleepTicks(n);
    SleepQueues(s.c, d, SleepPos(s.c.sleep, d.wake, d.WakeTick(s.c.cur), 0));
    SleepFrame(s, d, s.due[s.c.cur := s.now + n]);
  }

  lemma ExitQueues(c: Globals, d: Globals)
    requires QueuesMatch(c) && c.cur != c.idle && c.st[c.cur] == Running && d == c.ExitCurrent()
    ensures QueuesMatch(d)
    ensures forall x :: x in d.zombie <==> x in c.zombie || (x == c.cur && x != c.boot)
  {
    assert QueuedOk(c, c.cur);
    NoDupAppend(c.zombie, c.cur);
    forall x ensures QueuedOk(d, x) { assert QueuedOk(c, x); }
  }

  lemma ExitFrame(s: Sys, d: Globals)
    requires Structure(s) && s.pc[s.c.cur].Run? && s.c.st[s.c.cur] == Running
    requires QueuesMatch(d) && d.st == s.c.st[s.c.cur := Zombie] && d.waits == s.c.waits
    requires d.cur == s.c.cur && d.idle == s.c.idle && d.boot == s.c.boot
    requires forall x :: x in d.zombie <==> x in s.c.zombie || (x == s.c.cur && x != s.c.boot)
    ensures Structure(s.At(ExitYield).(c := d))
  {
    var s' := s.At(ExitYield).(c := d);
    assert ThreadOk(s, s.c.cur) && HeldOk(s, s.c.cur);
    forall x ensures ThreadOk(s', x) { assert ThreadOk(s, x); }
    forall x ensures HeldOk(s', x) { assert HeldOk(s, x); }
    forall r, x ensures WaiterOk(s', r, x) { assert WaiterOk(s, r, x); }
    forall r ensures WaitQueueOk(s', r) { assert WaitQueueOk(s, r); }
  }

  lemma ExitKeeps(s: Sys)
    requires Structure(s) && s.pc[s.c.cur].Run? && s.c.cur != s.c.idle
    ensures Structure(s.At(ExitYield).(c := s.c.ExitCurrent()))
  {
    var d := s.c.ExitCurrent();
    assert ThreadOk(s, s.c.cur);
    ExitQueues(s.c, d);
    ExitFrame(s, d);
  }

  lemma ExitYieldKeeps(s: Sys)
    requires Structure(s) && s.pc[s.c.cur].ExitYield?
    ensures Structure(s.At(ExitDone).(c := s.c.Schedule()))
  {
    var s' := s.At(ExitDone);
    assert ThreadOk(s, s.c.cur);
    forall x ensures ThreadOk(s', x) { assert ThreadOk(s, x); }
    forall x ensures HeldOk(s', x) { assert HeldOk(s, x); }
    forall r, x ensures WaiterOk(s', r, x) { assert WaiterOk(s, r, x); }
    forall r ensures WaitQueueOk(s', r) { assert WaitQueueOk(s, r); }
    SwitchKeeps(s');
  }

  lemma SleepYieldKeeps(s: Sys)
    requires Structure(s) && s.pc[s.c.cur].SleepYield?
    ensures Structure(s.At(Run).(c := s.c.Schedule()))
  {
    var s' := s.At(Run);
    assert ThreadOk(s, s.c.cur);
    forall x ensures ThreadOk(s', x) { assert ThreadOk(s, x); }
    forall x ensures HeldOk(s', x) { assert HeldOk(s, x); }
    forall r, x ensures WaiterOk(s', r, x) { assert WaiterOk(s, r, x); }
    forall r ensures WaitQueueOk(s', r) { assert WaitQueueOk(s, r); }
    SwitchKeeps(s');
  }

  lemma NewThreadKeeps(s: Sys)
    requires Structure(s)
    ensures var t := s.nextId; Structure(s.(c := s.c.NewThread(t), pc := s.pc[t := Run], nextId := t + 1))
  {
    var t := s.nextId;
    var s' := s.(c := s.c.NewThread(t), pc := s.pc[t := Run], nextId := t + 1);
    assert ThreadOk(s, t) && QueuedOk(s.c, t);
    forall x ensures QueuedOk(s'.c, x) { assert QueuedOk(s.c, x) && ThreadOk(s, x); }
    forall x ensures ThreadOk(s', x) { assert ThreadOk(s, x); }
    forall x ensures HeldOk(s', x) { assert HeldOk(s, x); }
    forall r, x ensures WaiterOk(s', r, x) { assert WaiterOk(s, r, x); }
    forall r ensures WaitQueueOk(s', r) { assert WaitQueueOk(s, r); }
    assert ThreadOk(s, s.c.idle) && ThreadOk(s, s.c.boot) && ThreadOk(s, s.c.cur);
  }

  lemma CreateKeeps(s: Sys, enqueue: bool)
    requires Structure(s)
    ensures Structure(CreateStep(s, enqueue))
  {
    hide Structure;
    NewThreadKeeps(s);
    var t := s.nextId;
    if enqueue { EnqueueNewKeeps(s.(c := s.c.NewThread(t), pc := s.pc[t := Run], nextId := t + 1), t); }
  }

  lemma EnqueueNewKeeps(s: Sys, t: Tid)
    requires Structure(s) && t in s.c.st && s.c.st[t] == New
    ensures Structure(s.(c := s.c.ReadyPush(t)))
  {
    if t != s.c.idle {
      var d := s.c.ReadyPush(t);
      ReadyPushKeeps(s.c, t);
      forall x ensures StateKept(s.c, d, x) { }
      FrameParked(s, d);
    }
  }

  /** A key press wakes a waiter it pops within one interrupt. */
  lemma KeyWakeKeeps(s: Sys, q: Qid)
    requires Structure(s) && s.c.Waiters(q) != []
    ensures s.c.State(s.c.Waiters(q)[0]) == Blocked
    ensures Structure(s.(c := s.c.WaitPop(q).Wake(s.c.Waiters(q)[0])))
  {
    var w := s.c.Waiters(q);
    var t := w[0];
    assert WaiterOk(s, q, t) && WaitQueueOk(s, q) && QueuedOk(s.c, t) && ThreadOk(s, t);
    NoDupTail(w);
    var c1 := s.c.WaitPop(q);
    SameQueues(s.c, c1);
    ReadyPushKeeps(c1, t);
    var s' := s.(c := c1.Wake(t));
    SameQueues(c1.ReadyPush(t), s'.c);
    forall x ensures ThreadOk(s', x) { assert ThreadOk(s, x) && WaiterOk(s, q, x); }
    forall x ensures HeldOk(s', x) { assert HeldOk(s, x); }
    forall r, x ensures WaiterOk(s', r, x) { assert WaiterOk(s, r, x); }
    forall r ensures WaitQueueOk(s', r) { assert WaitQueueOk(s, r); }
  }

  lemma TakeOrWaitKeeps(s: Sys, q: Qid)
    requires Structure(s) && q in s.res && s.c.st[s.c.cur] == Running && !s.pc[s.c.cur].Holds()
    ensures Structure(TakeOrWait(s, q))
  {
    if s.Avail(q) > 0 {
      SameStructure(s, Take(s, q));
      MoveKeeps(Take(s, q), Run);
    } else {
      MoveKeeps(s, Wait(q));
    }
  }

  lemma CheckOrParkKeeps(s: Sys, q: Qid, leave: Pc)
    requires Structure(s) && s.c.st[s.c.cur] == Running && !s.pc[s.c.cur].Holds()
    requires leave == Test(q) || leave == Retry(q)
    ensures q in s.res ==> Structure(CheckOrPark(s, q, leave))
    ensures CheckOrPark(s, q, leave).panic in {s.panic, Some(IdleBlocks)}
  {
    if q !in s.res {
    } else if s.Avail(q) > 0 {
      MoveKeeps(s, leave);
    } else if s.c.cur != s.c.idle {
      ParkKeeps(s, q);
    } else {
      SameStructure(s, s.Fail(IdleBlocks));
    }
  }

  lemma ContinueTakingKeeps(s: Sys, p: Pc)
    requires Structure(s) && s.pc[s.c.cur] == p && (p.Test? || p.Retry? || p.Wait? || p.Parked?)
    ensures Structure(ContinueTaking(s, p))
    ensures ContinueTaking(s, p).panic in {s.panic, Some(IdleBlocks)}
  {
    assert ThreadOk(s, s.c.cur);
    match p
    case Test(q) => TakeOrWaitKeeps(s, q);
    case Retry(q) => TakeOrWaitKeeps(s, q);
    case Wait(q) => CheckOrParkKeeps(s, q, Test(q));
    case Parked(q) => CheckOrParkKeeps(s, q, Retry(q));
  }

  lemma ContinueWakingKeeps(s: Sys, p: Pc)
    requires Structure(s) && s.pc[s.c.cur] == p && (p.Pop? || p.PopAll? || p.Hold? || p.HoldAll?)
    ensures Structure(ContinueWaking(s, p))
  {
    assert ThreadOk(s, s.c.cur);
    match p
    case Pop(q) => PopWaiterKeeps(s, q, false);
    case PopAll(q) => PopWaiterKeeps(s, q, true);
    case Hold(q, t) => WakeHeldKeeps(s, t, Run);
    case HoldAll(q, t) => WakeHeldKeeps(s, t, PopAll(q));
  }

  lemma ContinueThreadKeeps(s: Sys, p: Pc)
    requires Structure(s) && s.pc[s.c.cur] == p
    ensures Structure(ContinueThread(s, p))
    ensures ContinueThread(s, p).panic == s.panic
  {
    match p
    case SleepYield => SleepYieldKeeps(s);
    case ExitYield => ExitYieldKeeps(s);
    case Reap => PopZombieKeeps(s);
    case Reaping(z) => FreeZombieKeeps(s, z);
    case _ =>
  }

  /** Neither thread_exit's panic nor the one for blocking a thread that is not RUNNING is reached. */
  lemma ContinueKeeps(s: Sys, p: Pc)
    requires Structure(s) && s.pc[s.c.cur] == p
    ensures Structure(Continue(s, p))
    ensures Continue(s, p).panic in {s.panic, Some(IdleBlocks)}
  {
    if p.Test? || p.Retry? || p.Wait? || p.Parked? { ContinueTakingKeeps(s, p); }
    else if p.Pop? || p.PopAll? || p.Hold? || p.HoldAll? { ContinueWakingKeeps(s, p); }
    else { ContinueThreadKeeps(s, p); }
  }

  lemma AcquireReleaseKeeps(s: Sys, q: Qid)
    requires Structure(s) && s.pc[s.c.cur].Run? && q in s.res
    ensures Structure(AcquireStep(s, q)) && Structure(ReleaseStep(s, q))
  {
    assert ThreadOk(s, s.c.cur);
    MoveKeeps(s, Wait(q));
    TakeOrWaitKeeps(s, q);
    SameStructure(s, Give(s, q));
    MoveKeeps(Give(s, q), Pop(q));
    forall p: Panic ensures Structure(s.Fail(p)) { SameStructure(s, s.Fail(p)); }
  }

  lemma KeyIrqKeeps(s: Sys, q: Qid)
    requires Structure(s) && q in s.res
    ensures Structure(KeyIrqStep(s, q))
  {
    var r := s.res[q];
    var s' := s.(res := s.res[q := r.(count := r.count + 1, gives := r.gives + 1)]);
    SameStructure(s, s');
    if s.c.Waiters(q) != [] {
      KeyWakeKeeps(s', q);
    }
  }

  lemma CallSyncKeeps(s: Sys, l: Label)
    requires Structure(s) && s.pc[s.c.cur].Run?
    ensures Structure(CallSync(s, l))
  {
    assert ThreadOk(s, s.c.cur);
    match l
    case Acquire(q) => if q in s.res { AcquireReleaseKeeps(s, q); }
    case Release(q) => if q in s.res { AcquireReleaseKeeps(s, q); }
    case TryAcquire(q) => if q in s.res { SameStructure(s, Take(s, q)); }
    case WakeAll(q) => if q in s.res { MoveKeeps(s, PopAll(q)); }
    case _ =>
  }

  lemma CallThreadKeeps(s: Sys, l: Label)
    requires Structure(s) && s.pc[s.c.cur].Run?
    ensures Structure(CallThread(s, l))
  {
    match l
    case Yield => SwitchKeeps(s);
    case Sleep(n) =>
      if n == 0 { SwitchKeeps(s); }
      else if s.c.cur != s.c.idle { SleepKeeps(s, n); }
    case Exit => if s.c.cur != s.c.idle { ExitKeeps(s); }
    case Create(enqueue) => CreateKeeps(s, enqueue);
    case Start(t) =>
      SameStructure(s, s.Fail(StartNotNew));
      if t in s.c.st && s.c.st[t] == New { EnqueueNewKeeps(s, t); }
    case ReapZombies =>
      assert ThreadOk(s, s.c.cur);
      MoveKeeps(s, Reap);
    case PreemptionInit(n) =>
      var d := CallThread(s, l).c;
      SameQueues(s.c, d);
      forall x ensures StateKept(s.c, d, x) { }
      FrameParked(s, d);
    case _ =>
  }

  /** Every step of every thread, and every interrupt, keeps the structure. */
  lemma StepKeeps(s: Sys, l: Label)
    requires Structure(s)
    ensures Structure(Step(s, l))
  {
    if s.panic.Some? {
    } else if l.Timer? {
      var d := s.c.TimerIrq();
      TimerKeeps(s, d);
      SameStructure(s.(c := d), Step(s, l));
    } else if l.KeyIrq? {
      if l.q in s.res { KeyIrqKeeps(s, l.q); }
    } else if l.Go? {
      ContinueKeeps(s, s.pc[s.c.cur]);
    } else if s.pc[s.c.cur].Run? {
      CallSyncKeeps(s, l);
      CallThreadKeeps(s, l);
    }
  }
}
