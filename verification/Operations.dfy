/** What complete calls do, as their callers see it, when nothing interrupts them. */
module Operations {
  import opened Base
  import opened SchedulerSpec
  import opened Protocol
  import opened ProtocolInvariant
  import opened Wakeups

  /** The current thread is about to make a call. */
  ghost predicate Calling(s: Sys) {
    Inv(s) && s.panic.None? && s.pc[s.c.cur].Run?
  }

  /** Nothing but one resource and where the current thread stands differs. */
  ghost predicate OnlyResource(s: Sys, s': Sys, q: Qid) {
    && s'.c == s.c && s'.heldBy == s.heldBy && s'.panic == s.panic && s'.res.Keys == s.res.Keys
    && (forall p :: p in s.res && p != q ==> s'.res[p] == s.res[p])
    && (forall t :: t != s.c.cur ==> s'.PcOf(t) == s.PcOf(t))
  }

  // ------------------------------------------------ the sections of a call, put together

  lemma WaitSections(s: Sys, q: Qid)
    requires s.panic.None? && s.PcOf(s.c.cur) == Run && q in s.res && s.Avail(q) <= 0 && s.c.cur != s.c.idle
    requires s.c.State(s.c.cur) == Running && (s.res[q].kind.Mutex? ==> s.res[q].owner != Some(s.c.cur))
    ensures Step(Step(s, Acquire(q)), Go) == s.At(Parked(q)).(c := s.c.Park(q).Schedule())
  {
    hide Sched.Schedule, Sched.Park;
    assert Step(s, Acquire(q)) == s.At(Wait(q));
    assert s.At(Wait(q)).At(Parked(q)) == s.At(Parked(q));
  }

  lemma TakeSections(s: Sys, q: Qid, leave: Pc)
    requires s.panic.None? && q in s.res && s.Avail(q) > 0
    requires (s.PcOf(s.c.cur) == Wait(q) && leave == Test(q)) || (s.PcOf(s.c.cur) == Parked(q) && leave == Retry(q))
    ensures Step(Step(s, Go), Go) == Take(s, q).At(Run)
  {
    assert Step(s, Go) == s.At(leave);
    assert s.At(leave).At(Run) == s.At(Run);
  }

  lemma GiveSections(s: Sys, q: Qid, w: seq<Tid>)
    requires s.panic.None? && s.PcOf(s.c.cur) == Pop(q) && w == s.c.Waiters(q) != []
    ensures Step(Step(s, Go), Go)
            == s.At(Run).(c := s.c.WaitPop(q).Wake(w[0]), heldBy := s.heldBy[w[0] := s.c.cur] - {w[0]})
  {
    hide Sched.Wake, Sched.WaitPop;
    assert s.c.WaitPop(q).cur == s.c.cur by { PopSameCurrent(s.c, q); }
    assert Step(s, Go) == s.At(Hold(q, w[0])).(c := s.c.WaitPop(q), heldBy := s.heldBy[w[0] := s.c.cur]);
    assert s.At(Hold(q, w[0])).At(Run) == s.At(Run);
  }

  lemma PopSameCurrent(c: Globals, q: Qid)
    ensures c.WaitPop(q).cur == c.cur
  {
  }

  // ------------------------------------------------ taking and giving

  /** `mutex_lock`, `semaphore_wait` and `keyboard_getchar_blocking`: what is available is taken and nothing else
      changes; if nothing is, the caller ends BLOCKED at the end of the wait queue, with another thread running, and
      the resource as it was.  Locking twice, and waiting on the idle thread, panic. */
  lemma AcquireCall(s: Sys, q: Qid)
    requires Calling(s) && q in s.res
    ensures var me, r := s.c.cur, s.res[q];
            if r.kind.Mutex? && r.owner == Some(me) then Step(s, Acquire(q)).panic == Some(RecursiveLock)
            else if s.Avail(q) > 0 then
              var s' := if r.kind.Ring? then Step(Step(Step(s, Acquire(q)), Go), Go) else Step(s, Acquire(q));
              && OnlyResource(s, s', q) && s'.PcOf(me) == Run && s'.Avail(q) == s.Avail(q) - 1
              && (r.kind.Mutex? ==> s'.res[q].owner == Some(me) && s'.res[q].inside == {me})
            else
              var s' := Step(Step(s, Acquire(q)), Go);
              if me == s.c.idle then s'.panic == Some(IdleBlocks)
              else
                && s'.panic.None? && s'.res == s.res && s'.PcOf(me) == Parked(q) && s'.c.cur != me
                && s'.c.State(me) == Blocked && s'.c.Waiters(q) == s.c.Waiters(q) + [me]
  {
    hide Step;
    var me, r := s.c.cur, s.res[q];
    assert ResourceOk(r) && ThreadOk(s, me) && QueuedOk(s.c, me) && CurrentOk(s);
    AcquireStarts(s, q);
    if r.kind.Mutex? && r.owner == Some(me) {
    } else if s.Avail(q) > 0 {
      if r.kind.Ring? { TakeSections(s.At(Wait(q)), q, Test(q)); assert s.At(Wait(q)).At(Run) == s.At(Run); }
    } else if me == s.c.idle {
      IdlePanics(s.At(Wait(q)), q);
    } else {
      WaitSections(s, q);
      BlocksAway(s.c, q);
    }
  }

  lemma AcquireStarts(s: Sys, q: Qid)
    requires s.panic.None? && s.PcOf(s.c.cur) == Run && q in s.res && ResourceOk(s.res[q])
    ensures var r := s.res[q];
            Step(s, Acquire(q)) == if r.kind.Mutex? && r.owner == Some(s.c.cur) then s.Fail(RecursiveLock)
                                   else if s.Avail(q) > 0 && !r.kind.Ring? then Take(s, q).At(Run) else s.At(Wait(q))
  {
  }

  lemma IdlePanics(s: Sys, q: Qid)
    requires s.panic.None? && s.PcOf(s.c.cur) == Wait(q) && s.Avail(q) <= 0 && s.c.cur == s.c.idle
    ensures Step(s, Go).panic == Some(IdleBlocks)
  {
  }

  lemma BlocksAway(c: Globals, q: Qid)
    requires c.cur != c.idle && c.cur !in c.ready
    ensures var d := c.Park(q).Schedule();
            d.cur != c.cur && d.State(c.cur) == Blocked && d.Waiters(q) == c.Waiters(q) + [c.cur]
  {
    if c.ready != [] { assert c.ready[0] in c.ready; }
  }

  /** A release that neither panics nor finds the ring full. */
  ghost predicate MayRelease(s: Sys, q: Qid)
    requires q in s.res
  {
    match s.res[q].kind
    case Mutex => s.res[q].owner == Some(s.c.cur)
    case Semaphore => s.res[q].count < 0x7FFF_FFFF
    case Ring(cap) => s.res[q].count < cap
  }

  /** `mutex_unlock` by the owner, `semaphore_signal` and a key put into the ring: one more unit is available, and the
      first waiter, if any, has moved from the wait queue to the end of the ready queue; everyone else stays put. */
  lemma ReleaseCall(s: Sys, q: Qid)
    requires Calling(s) && q in s.res && MayRelease(s, q)
    ensures var w := s.c.Waiters(q);
            var s1 := Step(Step(s, Release(q)), Go);
            var s' := if w == [] then s1 else Step(s1, Go);
            && s'.panic.None? && s'.PcOf(s.c.cur) == Run && s'.c.cur == s.c.cur && s'.Avail(q) == s.Avail(q) + 1
            && s'.res.Keys == s.res.Keys && (forall p :: p in s.res && p != q ==> s'.res[p] == s.res[p])
            && (if w == [] then s'.c == s.c
                else s'.c.Waiters(q) == w[1..] && s'.c.ready == s.c.ready + [w[0]] && s'.c.st == s.c.st[w[0] := Ready])
  {
    hide Step;
    var w := s.c.Waiters(q);
    assert ResourceOk(s.res[q]);
    ReleaseStarts(s, q);
    var g := Give(s, q).At(Pop(q));
    if w == [] { NobodyWaits(g, q); }
    else {
      assert WaiterOk(s, q, w[0]) && QueuedOk(s.c, s.c.idle);
      GiveSections(g, q, w);
    }
  }

  lemma ReleaseStarts(s: Sys, q: Qid)
    requires s.panic.None? && s.PcOf(s.c.cur) == Run && q in s.res && ResourceOk(s.res[q]) && MayRelease(s, q)
    ensures Step(s, Release(q)) == Give(s, q).At(Pop(q))
  {
  }

  lemma NobodyWaits(s: Sys, q: Qid)
    requires s.panic.None? && s.PcOf(s.c.cur) == Pop(q) && s.c.Waiters(q) == []
    ensures Step(s, Go) == s.At(Run)
  {
  }

  /** The two misuses of `mutex_unlock` panic. */
  lemma UnlockMisused(s: Sys, q: Qid)
    requires Calling(s) && q in s.res && s.res[q].kind.Mutex? && !MayRelease(s, q)
    ensures Step(s, Release(q)).panic == Some(if s.res[q].owner == None then UnlockUnlocked else UnlockByOther)
  {
    assert ResourceOk(s.res[q]);
  }

  /** Taking and giving back, with nobody waiting, leaves the system as it was but for the history counters. */
  lemma TakeGiveBack(s: Sys, q: Qid)
    requires Calling(s) && q in s.res && !s.res[q].kind.Ring? && s.Avail(q) > 0 && s.c.Waiters(q) == []
    ensures var r := s.res[q];
            Step(Step(Step(s, Acquire(q)), Release(q)), Go)
            == s.(res := s.res[q := r.(gives := r.gives + 1, takes := r.takes + 1)])
  {
    hide Step;
    var r := s.res[q];
    assert ResourceOk(r);
    AcquireStarts(s, q);
    var t := Take(s, q).At(Run);
    assert t.pc == s.pc;
    assert ResourceOk(t.res[q]);
    ReleaseStarts(t, q);
    NobodyWaits(Give(t, q).At(Pop(q)), q);
    assert s.pc[s.c.cur := Pop(q)][s.c.cur := Run] == s.pc;
  }

  ghost predicate OwnedBy(s: Sys, q: Qid, t: Tid) {
    q in s.res && s.res[q].kind.Mutex? && s.res[q].locked && s.res[q].owner == Some(t) && s.res[q].inside == {t}
  }

  /** `a` runs outside any call. */
  ghost predicate Free(s: Sys, a: Tid) {
    s.panic.None? && s.c.cur == a != s.c.idle && s.PcOf(a) == Run && s.c.State(a) == Running
  }

  /** `a` holds the mutex and runs, and `b` is the only waiter. */
  ghost predicate Contended(s: Sys, q: Qid, a: Tid, b: Tid) {
    && Free(s, a) && OwnedBy(s, q, a) && s.c.ready == [] && s.c.Waiters(q) == [b]
    && a != b && b != s.c.idle && s.c.State(b) == Blocked && s.PcOf(b) == Parked(q)
  }

  /** The mutex is free, `a` runs, and `b` has been woken. */
  ghost predicate Offered(s: Sys, q: Qid, a: Tid, b: Tid) {
    && Free(s, a) && q in s.res && s.res[q].kind.Mutex? && !s.res[q].locked && s.res[q].inside == {}
    && s.c.ready == [b] && s.c.Waiters(q) == [] && a != b && s.PcOf(b) == Parked(q)
  }

  lemma BlocksOnOwner(s: Sys, q: Qid, a: Tid)
    requires Free(s, s.c.cur) && OwnedBy(s, q, a) && s.c.Waiters(q) == []
    requires s.c.ready == [a] && s.PcOf(a) == Run && s.c.cur != a && a != s.c.idle
    ensures Contended(Step(Step(s, Acquire(q)), Go), q, a, s.c.cur)
  {
    hide Step;
    WaitSections(s, q);
    HandedTo(s.c, q, a);
  }

  lemma HandedTo(c: Globals, q: Qid, a: Tid)
    requires c.ready == [a] && c.cur != c.idle && c.cur != a && c.Waiters(q) == []
    ensures var d := c.Park(q).Schedule();
            && d.cur == a && d.ready == [] && d.Waiters(q) == [c.cur] && d.idle == c.idle
            && d.State(c.cur) == Blocked && d.State(a) == Running
  {
  }

  lemma UnlocksFor(s: Sys, q: Qid, a: Tid, b: Tid)
    requires Contended(s, q, a, b)
    ensures Offered(Step(Step(Step(s, Release(q)), Go), Go), q, a, b)
  {
    hide Step;
    assert Step(s, Release(q)) == Give(s, q).At(Pop(q)) by { UnlockStarts(s, q); }
    GiveSections(Give(s, q).At(Pop(q)), q, [b]);
  }

  lemma UnlockStarts(s: Sys, q: Qid)
    requires Free(s, s.c.cur) && OwnedBy(s, q, s.c.cur)
    ensures Step(s, Release(q)) == Give(s, q).At(Pop(q))
  {
  }

  lemma TakesOffered(s: Sys, q: Qid, a: Tid, b: Tid)
    requires Offered(s, q, a, b)
    ensures var s' := Step(Step(Step(s, Yield), Go), Go);
            && OwnedBy(s', q, b) && s'.panic.None? && s'.c.cur == b && s'.PcOf(b) == Run
            && s'.c.ready == [a] && s'.c.Waiters(q) == []
  {
    hide Step;
    YieldsTo(s, a, b);
    TakeSections(s.(c := s.c.Schedule()), q, Retry(q));
  }

  lemma YieldsTo(s: Sys, a: Tid, b: Tid)
    requires Free(s, a) && s.c.ready == [b]
    ensures Step(s, Yield) == s.(c := s.c.Schedule())
    ensures var d := s.c.Schedule(); d.cur == b && d.ready == [a] && d.State(b) == Running
  {
  }

  /** A mutex changes hands: a thread that finds it locked waits; its owner, the only other thread that can run,
      unlocks and yields; and the first is back with the mutex its own and the queue empty. */
  lemma Handover(s: Sys, q: Qid, a: Tid) returns (waiting: Sys, given: Sys, taken: Sys)
    requires Calling(s) && OwnedBy(s, q, a) && s.c.Waiters(q) == []
    requires s.c.ready == [a] && s.PcOf(a) == Run && s.c.cur != s.c.idle && s.c.cur != a
    ensures waiting == Step(Step(s, Acquire(q)), Go) && Contended(waiting, q, a, s.c.cur)
    ensures given == Step(Step(Step(waiting, Release(q)), Go), Go) && Offered(given, q, a, s.c.cur)
    ensures taken == Step(Step(Step(given, Yield), Go), Go)
    ensures OwnedBy(taken, q, s.c.cur) && taken.panic.None? && taken.c.cur == s.c.cur && taken.PcOf(s.c.cur) == Run
    ensures taken.c.ready == [a] && taken.c.Waiters(q) == []
  {
    hide Step, Contended, Offered, Inv;
    RunsFree(s, a);
    waiting := Step(Step(s, Acquire(q)), Go);
    BlocksOnOwner(s, q, a);
    given := Step(Step(Step(waiting, Release(q)), Go), Go);
    UnlocksFor(waiting, q, a, s.c.cur);
    taken := Step(Step(Step(given, Yield), Go), Go);
    TakesOffered(given, q, a, s.c.cur);
  }

  lemma RunsFree(s: Sys, a: Tid)
    requires Calling(s) && s.c.cur != s.c.idle && a in s.c.ready
    ensures Free(s, s.c.cur) && a != s.c.idle
  {
    assert ThreadOk(s, s.c.cur) && CurrentOk(s) && QueuedOk(s.c, a);
  }

  /** `mutex_try_lock` and `semaphore_try_wait`: what is available is taken, and nothing ever waits. */
  lemma TryAcquireCall(s: Sys, q: Qid)
    requires Calling(s) && q in s.res
    ensures var s', me := Step(s, TryAcquire(q)), s.c.cur;
            if s.Avail(q) <= 0 then s' == s
            else
              && OnlyResource(s, s', q) && s'.PcOf(me) == Run && s'.Avail(q) == s.Avail(q) - 1
              && (s.res[q].kind.Mutex? ==> s'.res[q].owner == Some(me) && s'.res[q].inside == {me})
  {
    assert ResourceOk(s.res[q]);
  }

  // ------------------------------------------------ the ring

  /** A key that finds room is stored and wakes the first waiter at once; one that does not is dropped. */
  lemma KeyArrives(s: Sys, q: Qid)
    requires Inv(s) && s.panic.None? && q in s.res && s.res[q].kind.Ring?
    ensures var s', r, w := Step(s, KeyIrq(q)), s.res[q], s.c.Waiters(q);
            if r.count == r.kind.capacity then s' == s
            else
              && s'.res[q].count == r.count + 1 && s'.c.cur == s.c.cur
              && (w == [] ==> s'.c == s.c)
              && (w != [] ==> s'.c.Waiters(q) == w[1..] && s'.c.ready == s.c.ready + [w[0]] && s'.c.State(w[0]) == Ready)
  {
    assert ResourceOk(s.res[q]);
    var w := s.c.Waiters(q);
    if w != [] { assert WaiterOk(s, q, w[0]) && QueuedOk(s.c, s.c.idle); }
  }

  // ------------------------------------------------ waking and waiting

  /** Popping and waking: the first waiter leaves the queue and joins the end of the ready queue. */
  lemma WakesFirst(s: Sys, q: Qid)
    requires Structure(s) && s.panic.None? && s.pc[s.c.cur] == Pop(q)
    ensures var w := s.c.Waiters(q);
            if w == [] then Step(s, Go) == s.At(Run)
            else
              var s' := Step(Step(s, Go), Go);
              && s'.PcOf(s.c.cur) == Run && s'.panic.None? && s'.c.cur == s.c.cur
              && s'.c.Waiters(q) == w[1..] && s'.c.ready == s.c.ready + [w[0]] && s'.c.State(w[0]) == Ready
              && s'.heldBy.Keys == s.heldBy.Keys - {w[0]}
  {
    var w := s.c.Waiters(q);
    if w != [] { assert WaiterOk(s, q, w[0]) && ThreadOk(s, s.c.cur) && QueuedOk(s.c, s.c.idle) && HeldOk(s, w[0]); }
  }

  /** If it is gone again, the thread waits again: it rejoins the end of the queue and gives up the processor. */
  lemma WokenWaitsAgain(s: Sys, q: Qid)
    requires Inv(s) && s.panic.None? && s.pc[s.c.cur] == Parked(q) && s.Avail(q) <= 0 && s.c.cur != s.c.idle
    ensures var s' := Step(s, Go);
            && s'.panic.None? && s'.c.Waiters(q) == s.c.Waiters(q) + [s.c.cur] && s'.c.State(s.c.cur) == Blocked
            && s'.PcOf(s.c.cur) == Parked(q) && s'.c.cur != s.c.cur
  {
    assert ThreadOk(s, s.c.cur) && QueuedOk(s.c, s.c.cur) && CurrentOk(s);
  }

  function Gos(n: nat): seq<Label> {
    if n == 0 then [] else [Go] + Gos(n - 1)
  }

  lemma GoTwice(s: Sys, n: nat)
    ensures RunAll(s, Gos(n + 2)) == RunAll(Step(Step(s, Go), Go), Gos(n))
  {
    assert Gos(n + 2)[1..] == Gos(n + 1) && Gos(n + 1)[1..] == Gos(n);
  }

  lemma CurrentStands(s: Sys)
    requires Structure(s)
    ensures s.c.cur in s.pc
  {
    assert CurrentOk(s);
  }

  /** With nobody left to wake or to free, the call returns. */
  lemma NothingToDo(s: Sys)
    requires s.panic.None? && s.c.cur in s.pc
    requires (s.pc[s.c.cur].PopAll? && s.c.Waiters(s.pc[s.c.cur].q) == []) || (s.pc[s.c.cur].Reap? && s.c.zombie == [])
    ensures RunAll(s, Gos(1)) == s.At(Run)
  {
    assert Gos(1) == [Go] && RunAll(s, [Go]) == RunAll(Step(s, Go), []);
  }

  /** One turn of the loop of `wait_queue_wake_all`. */
  lemma WakeAllTurn(s: Sys, q: Qid)
    requires Structure(s) && s.panic.None? && s.pc[s.c.cur] == PopAll(q) && s.c.Waiters(q) != []
    ensures var s', w := Step(Step(s, Go), Go), s.c.Waiters(q);
            && Structure(s') && s'.panic.None? && s'.c.cur == s.c.cur && s'.PcOf(s.c.cur) == PopAll(q)
            && s'.c.Waiters(q) == w[1..] && s'.c.ready == s.c.ready + [w[0]]
  {
    var w := s.c.Waiters(q);
    StepKeeps(s, Go);
    StepKeeps(Step(s, Go), Go);
    assert WaiterOk(s, q, w[0]) && ThreadOk(s, s.c.cur) && QueuedOk(s.c, s.c.idle) && HeldOk(s, w[0]);
  }

  /** `wait_queue_wake_all` wakes every waiter, in the order they came. */
  lemma {:induction false} WakesAll(s: Sys, q: Qid)
    requires Structure(s) && s.panic.None? && s.PcOf(s.c.cur) == PopAll(q)
    ensures var w := s.c.Waiters(q); var s' := RunAll(s, Gos(2 * |w| + 1));
            && s'.panic.None? && s'.c.cur == s.c.cur && s'.PcOf(s.c.cur) == Run
            && s'.c.Waiters(q) == [] && s'.c.ready == s.c.ready + w
    decreases |s.c.Waiters(q)|
  {
    hide Step, Structure, RunAll, Gos;
    CurrentStands(s);
    var w := s.c.Waiters(q);
    if w == [] {
      NothingToDo(s);
    } else {
      WakeAllTurn(s, q);
      GoTwice(s, 2 * |w| - 1);
      var s2 := Step(Step(s, Go), Go);
      WakesAll(s2, q);
      assert w == [w[0]] + w[1..];
    }
  }

  /** One turn of the loop of `thread_reap_zombies`. */
  lemma ReapTurn(s: Sys)
    requires Structure(s) && s.panic.None? && s.pc[s.c.cur] == Reap && s.c.zombie != []
    ensures var s', z := Step(Step(s, Go), Go), s.c.zombie;
            && Structure(s') && s'.panic.None? && s'.c.cur == s.c.cur && s'.PcOf(s.c.cur) == Reap
            && s'.c.zombie == z[1..] && s'.c.st == s.c.st - {z[0]}
  {
    StepKeeps(s, Go);
    StepKeeps(Step(s, Go), Go);
    assert ThreadOk(s, s.c.cur) && QueuedOk(s.c, s.c.zombie[0]) && CurrentOk(s);
  }

  /** `thread_reap_zombies` frees exactly the threads on the zombie queue. */
  lemma {:induction false} ReapsAll(s: Sys, x: Tid)
    requires Structure(s) && s.panic.None? && s.PcOf(s.c.cur) == Reap
    ensures var s' := RunAll(s, Gos(2 * |s.c.zombie| + 1));
            && s'.panic.None? && s'.c.cur == s.c.cur && s'.PcOf(s.c.cur) == Run && s'.c.zombie == []
            && (x in s'.c.st <==> x in s.c.st && x !in s.c.zombie)
    decreases |s.c.zombie|
  {
    hide Step, Structure, RunAll, Gos;
    CurrentStands(s);
    var z := s.c.zombie;
    if z == [] {
      NothingToDo(s);
    } else {
      ReapTurn(s);
      GoTwice(s, 2 * |z| - 1);
      var s2 := Step(Step(s, Go), Go);
      ReapsAll(s2, x);
      assert z == [z[0]] + z[1..];
    }
  }

  // ------------------------------------------------ threads

  /** Whom the scheduler chooses: the first ready thread, else the current one if it still runs, else idle; a thread that
      was preempted goes to the end of the ready queue. */
  lemma ScheduleChooses(c: Globals)
    requires QueuesMatch(c)
    ensures var d := c.Schedule(); var runs := c.State(c.cur) == Running && c.cur != c.idle;
            && d.cur == (if c.ready != [] then c.ready[0] else if runs then c.cur else c.idle)
            && d.ready == (if c.ready == [] then [] else c.ready[1..] + (if runs then [c.cur] else []))
            && d.State(d.cur) == Running && (c.ready != [] && runs ==> d.State(c.cur) == Ready)
            && d.slice == 0 && !d.resched
            && (forall x :: x != d.cur && x != c.cur ==> d.State(x) == c.State(x))
  {
    assert QueuedOk(c, c.cur);
    if c.ready != [] { assert c.ready[0] in c.ready && QueuedOk(c, c.ready[0]); }
  }

  /** `thread_yield`, and a sleep of no ticks, call the scheduler and change nothing else. */
  lemma YieldCall(s: Sys)
    requires Calling(s)
    ensures Step(s, Yield) == s.(c := s.c.Schedule()) == Step(s, Sleep(0))
  {
  }

  /** `thread_start`: a new thread goes to the end of the ready queue; any other panics.  Idle is never queued. */
  lemma StartCall(s: Sys, t: Tid)
    requires Calling(s) && t in s.c.st
    ensures var s' := Step(s, Start(t));
            if s.c.State(t) != New then s' == s.Fail(StartNotNew)
            else if t == s.c.idle then s' == s
            else s' == s.(c := s.c.(st := s.c.st[t := Ready], ready := s.c.ready + [t]))
  {
  }

  /** `wait_queue_wake_all` from its call to its return. */
  lemma WakeAllCall(s: Sys, q: Qid)
    requires Calling(s) && q in s.res
    ensures var w := s.c.Waiters(q); var s' := RunAll(Step(s, WakeAll(q)), Gos(2 * |w| + 1));
            && s'.panic.None? && s'.c.cur == s.c.cur && s'.PcOf(s.c.cur) == Run
            && s'.c.Waiters(q) == [] && s'.c.ready == s.c.ready + w
  {
    hide RunAll, Gos, Structure;
    StepKeeps(s, WakeAll(q));
    WakesAll(Step(s, WakeAll(q)), q);
  }

  /** `thread_reap_zombies` from its call to its return. */
  lemma ReapCall(s: Sys, x: Tid)
    requires Calling(s)
    ensures var s' := RunAll(Step(s, ReapZombies), Gos(2 * |s.c.zombie| + 1));
            && s'.panic.None? && s'.c.cur == s.c.cur && s'.PcOf(s.c.cur) == Run && s'.c.zombie == []
            && (x in s'.c.st <==> x in s.c.st && x !in s.c.zombie)
  {
    hide RunAll, Gos, Structure;
    StepKeeps(s, ReapZombies);
    ReapsAll(Step(s, ReapZombies), x);
  }

  /** `thread_create` makes a new thread with a fresh id, at the end of the ready queue if it is to run at once. */
  lemma CreateAdds(s: Sys, enqueue: bool)
    requires Calling(s)
    ensures var s', t := Step(s, Create(enqueue)), s.nextId;
            && t !in s.c.st && s'.c.st.Keys == s.c.st.Keys + {t} && s'.c.State(t) == (if enqueue then Ready else New)
            && s'.c.ready == (if enqueue then s.c.ready + [t] else s.c.ready) && s'.c.cur == s.c.cur
  {
    assert ThreadOk(s, s.nextId) && QueuedOk(s.c, s.c.idle);
  }

  /** `thread_exit` ends with the thread a zombie, on the zombie queue unless it is the boot thread, and another running. */
  lemma ExitLeaves(s: Sys)
    requires Structure(s) && s.panic.None? && s.PcOf(s.c.cur) == Run && s.c.cur != s.c.idle && s.c.State(s.c.cur) == Running
    ensures var s', me := Step(Step(s, Exit), Go), s.c.cur;
            && s'.panic.None? && s'.c.State(me) == Zombie && s'.c.cur != me && me !in s'.c.ready
            && s'.c.zombie == (if me == s.c.boot then s.c.zombie else s.c.zombie + [me])
  {
    assert QueuedOk(s.c, s.c.cur);
    ExitSteps(s);
    SwitchesAway(s.c.ExitCurrent());
  }

  lemma ExitSteps(s: Sys)
    requires s.panic.None? && s.PcOf(s.c.cur) == Run && s.c.cur != s.c.idle
    ensures var s' := Step(Step(s, Exit), Go); s'.panic.None? && s'.c == s.c.ExitCurrent().Schedule()
  {
    var d := s.c.ExitCurrent();
    assert Step(s, Exit) == s.At(ExitYield).(c := d);
    assert Step(s.At(ExitYield).(c := d), Go) == s.At(ExitYield).(c := d).At(ExitDone).(c := d.Schedule());
  }

  lemma SwitchesAway(c: Globals)
    requires c.cur != c.idle && c.State(c.cur) == Zombie && c.cur !in c.ready
    ensures c.Schedule().cur != c.cur && c.Schedule().State(c.cur) == Zombie && c.cur !in c.Schedule().ready
  {
    if c.ready != [] { assert c.ready[0] in c.ready && c.ready == [c.ready[0]] + c.ready[1..]; }
  }
}
