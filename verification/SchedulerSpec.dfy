/** What the sections of the scheduler that run with interrupts disabled do to the ready, sleep,
    zombie and wait queues, as functions on sequences.  The class `Scheduler` links real thread
    objects and is proved against these functions; the module `Protocol` interleaves them. */
module SchedulerSpec {
  datatype ThreadState = New | Ready | Running | Blocked | Sleeping | Zombie

  /** One past the largest value of a 32-bit counter, and the sign bit of one. */
  const WRAP: nat := 0x1_0000_0000
  const HALF: nat := 0x8000_0000

  /** `tick_reached`: the wrapped difference of two 32-bit ticks, read as a signed number, is not negative. */
  predicate TickReached(now: nat, target: nat) {
    (now - target) % WRAP < HALF
  }

  ghost predicate NoDup<A>(s: seq<A>) {
    forall i, j :: 0 <= i < j < |s| ==> s[i] != s[j]
  }

  lemma NoDupAppend<A>(s: seq<A>, x: A)
    requires NoDup(s) && x !in s
    ensures NoDup(s + [x])
    ensures forall y :: y in s + [x] <==> y in s || y == x
  {
  }

  lemma NoDupTail<A>(s: seq<A>)
    requires NoDup(s) && s != []
    ensures NoDup(s[1..]) && s[0] !in s[1..]
    ensures forall x :: x in s <==> x == s[0] || x in s[1..]
  {
    assert s == [s[0]] + s[1..];
  }

  function TickOf<T>(wake: map<T, nat>, t: T): nat {
    if t in wake then wake[t] else 0
  }

  /** Where `sleep_insert` stops: the first sleeper whose wake tick has reached `target`. */
  function SleepPos<T>(sleep: seq<T>, wake: map<T, nat>, target: nat, from: nat): (k: nat)
    requires from <= |sleep|
    ensures from <= k <= |sleep|
    decreases |sleep| - from
  {
    if from == |sleep| || TickReached(TickOf(wake, sleep[from]), target) then from
    else SleepPos(sleep, wake, target, from + 1)
  }

  /** The scheduler's globals.  `T` names threads and `Q` wait queues. */
  datatype Sched<T(==), Q(==)> = Sched(
    st: map<T, ThreadState>,
    wake: map<T, nat>,
    ready: seq<T>, sleep: seq<T>, zombie: seq<T>,
    waits: map<Q, seq<T>>,
    cur: T, idle: T, boot: T,
    ticks: nat, slice: nat, perSlice: nat, preempt: bool, resched: bool)
  {
    /** A thread object that does not exist reads as NEW. */
    function State(t: T): ThreadState {
      if t in st then st[t] else New
    }

    function WakeTick(t: T): nat {
      TickOf(wake, t)
    }

    function Waiters(q: Q): seq<T> {
      if q in waits then waits[q] else []
    }

    function ReadyPush(t: T): Sched<T, Q> {
      if t == idle then this else this.(st := st[t := Ready], ready := ready + [t])
    }

    function ZombiePush(t: T): Sched<T, Q> {
      if t == idle || t == boot then this else this.(zombie := zombie + [t])
    }

    /** `sleep_insert` of a thread whose wake tick is set: before the first sleeper whose tick has reached it. */
    function SleepInsert(t: T): seq<T> {
      var k := SleepPos(sleep, wake, WakeTick(t), 0);
      sleep[..k] + [t] + sleep[k..]
    }

    function WakeDueSleepers(): (s: Sched<T, Q>)
      ensures s.waits == waits && s.zombie == zombie && s.cur == cur && s.idle == idle && s.boot == boot
      ensures s.wake == wake && s.ticks == ticks && s.preempt == preempt && s.perSlice == perSlice && s.slice == slice
      decreases |sleep|
    {
      if sleep == [] || !TickReached(ticks, WakeTick(sleep[0])) then this
      else this.(sleep := sleep[1..]).ReadyPush(sleep[0]).(resched := true).WakeDueSleepers()
    }

    /** The section of `thread_sleep_ticks` for a positive count, up to its yield. */
    function SleepTicks(n: nat): (s: Sched<T, Q>) {
      if cur == idle then this
      else
        var wake' := wake[cur := (ticks + n) % WRAP];
        this.(wake := wake', st := st[cur := Sleeping], sleep := this.(wake := wake').SleepInsert(cur), resched := true)
    }

    function Dispatch(t: T): Sched<T, Q> {
      this.(st := st[t := Running], cur := t, slice := 0, resched := false)
    }

    /** `thread_schedule_from_interrupt` */
    function Schedule(): (s: Sched<T, Q>)
      ensures s.waits == waits && s.zombie == zombie && s.sleep == sleep && s.idle == idle && s.boot == boot
      ensures s.wake == wake && s.ticks == ticks && s.preempt == preempt && s.perSlice == perSlice && s.slice == 0
    {
      if ready == [] then
        if cur == idle || State(cur) == Running then this.(slice := 0, resched := false)
        else Dispatch(idle)
      else
        var s := if cur != idle && State(cur) == Running then ReadyPush(cur) else this;
        s.(ready := s.ready[1..]).Dispatch(s.ready[0])
    }

    /** The part of `thread_on_timer_tick` after the wake-ups: a tick of the slice is used up. */
    function CountSlice(): Sched<T, Q> {
      if !preempt then this
      else if ready == [] then this.(slice := 0)
      else this.(slice := slice + 1, resched := resched || slice + 1 >= perSlice)
    }

    /** `thread_on_timer_tick` */
    function TimerTick(): Sched<T, Q> {
      this.(ticks := (ticks + 1) % WRAP).WakeDueSleepers().CountSlice()
    }

    /** The timer interrupt: the tick and, if it asked for one, the switch, with interrupts off throughout. */
    function TimerIrq(): (s: Sched<T, Q>)
      ensures s.waits == waits && s.zombie == zombie && s.idle == idle && s.boot == boot
      ensures s.wake == wake && s.ticks == (ticks + 1) % WRAP && s.preempt == preempt && s.perSlice == perSlice
    {
      var s := TimerTick();
      if s.resched then s.Schedule() else s
    }

    /** `wait_queue_push_locked` of the current thread. */
    function WaitPush(q: Q): Sched<T, Q> {
      this.(waits := waits[q := Waiters(q) + [cur]])
    }

    /** `thread_block_current` */
    function Block(): Sched<T, Q> {
      this.(st := st[cur := Blocked], resched := true)
    }

    /** What a turn of the loop of `wait_queue_wait` does before it yields. */
    function Park(q: Q): (s: Sched<T, Q>)
      ensures s.sleep == sleep && s.wake == wake && s.ticks == ticks && s.zombie == zombie && s.ready == ready
      ensures s.cur == cur && s.idle == idle && s.boot == boot && s.st == st[cur := Blocked]
      ensures s.preempt == preempt && s.perSlice == perSlice && s.waits == waits[q := Waiters(q) + [cur]]
    {
      WaitPush(q).Block()
    }

    /** `wait_queue_pop_locked` */
    function WaitPop(q: Q): Sched<T, Q> {
      if Waiters(q) == [] then this else this.(waits := waits[q := Waiters(q)[1..]])
    }

    /** `thread_wake` */
    function Wake(t: T): Sched<T, Q> {
      if State(t) == Blocked then ReadyPush(t).(resched := true) else this
    }

    /** `thread_create_internal` before the thread is queued. */
    function NewThread(t: T): Sched<T, Q> {
      this.(st := st[t := New], wake := wake[t := 0])
    }

    /** `zombie_pop` */
    function ZombiePop(): Sched<T, Q> {
      if zombie == [] then this else this.(zombie := zombie[1..])
    }

    /** The thread object is gone. */
    function FreeThread(t: T): Sched<T, Q> {
      this.(st := st - {t}, wake := wake - {t})
    }

    /** `thread_preemption_init` */
    function StartPreemption(n: nat): Sched<T, Q> {
      this.(perSlice := if n == 0 then 1 else n, slice := 0, resched := false, preempt := true)
    }

    /** The section of `thread_exit` before its yield. */
    function ExitCurrent(): Sched<T, Q> {
      this.(st := st[cur := Zombie]).ZombiePush(cur).(resched := true)
    }
  }
}
