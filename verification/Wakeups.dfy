/** Mutual exclusion, conservation and the absence of lost wake-ups, over all runs. */
module Wakeups {
  import opened Base
  import opened SchedulerSpec
  import opened Protocol
  import opened ProtocolInvariant

  // ------------------------------------------------ counters and owners

  /** What is available is what was given less what was taken; a mutex is locked exactly when it has
      an owner, and then that owner is the only thread between its lock and its unlock. */
  ghost predicate ResourceOk(r: Resource) {
    && r.Avail() == r.initial + r.gives - r.takes
    && match r.kind
       case Mutex =>
         && r.initial == 1 && (r.locked <==> r.owner.Some?)
         && r.inside == (if r.owner.Some? then {r.owner.value} else {})
       case Semaphore => 0 <= r.count <= INT32_MAX
       case Ring(cap) => 0 <= r.count <= cap
  }

  ghost predicate ResourcesOk(s: Sys) {
    forall q :: q in s.res ==> ResourceOk(s.res[q])
  }

  lemma TakeGiveKeepResources(s: Sys, q: Qid)
    requires ResourcesOk(s) && q in s.res
    ensures s.Avail(q) > 0 ==> ResourcesOk(Take(s, q))
    ensures s.res[q].kind.Mutex? && s.res[q].owner == Some(s.c.cur) ==> ResourcesOk(Give(s, q))
    ensures s.res[q].kind.Semaphore? && s.res[q].count < INT32_MAX ==> ResourcesOk(Give(s, q))
    ensures s.res[q].kind.Ring? && s.res[q].count < s.res[q].kind.capacity ==> ResourcesOk(Give(s, q))
  {
    assert ResourceOk(s.res[q]);
  }

  lemma ContinueKeepsResources(s: Sys, p: Pc)
    requires ResourcesOk(s)
    ensures ResourcesOk(Continue(s, p))
  {
    hide Sched.Schedule, Sched.Park, Sched.Wake, Sched.WaitPop, Sched.FreeThread, ResourceOk;
    if (p.Test? || p.Retry?) && p.q in s.res {
      TakeGiveKeepResources(s, p.q);
    } else {
      assert Continue(s, p).res == s.res;
    }
  }

  lemma CallSyncKeepsResources(s: Sys, l: Label)
    requires ResourcesOk(s)
    ensures ResourcesOk(CallSync(s, l))
  {
    match l
    case Acquire(q) => if q in s.res { TakeGiveKeepResources(s, q); }
    case TryAcquire(q) => if q in s.res { TakeGiveKeepResources(s, q); }
    case Release(q) => if q in s.res { TakeGiveKeepResources(s, q); }
    case _ =>
  }

  lemma StepKeepsResources(s: Sys, l: Label)
    requires ResourcesOk(s)
    ensures ResourcesOk(Step(s, l))
  {
    hide Continue, CallSync, Sched.TimerIrq, Sched.Schedule, Sched.Wake, Sched.WaitPop;
    if s.panic.Some? || l.Timer? {
    } else if l.KeyIrq? {
      if l.q in s.res { assert ResourceOk(s.res[l.q]); }
    } else if l.Go? {
      ContinueKeepsResources(s, s.PcOf(s.c.cur));
    } else {
      CallSyncKeepsResources(s, l);
      assert CallThread(s, l).res == s.res;
    }
  }

  // ------------------------------------------------ wake-ups still owed

  /** A thread at `p` still owes queue `q` a wake-up or a re-check: it has given and not yet popped, or it was
      taken off the queue and has not yet tested the resource again. */
  predicate Owes(p: Pc, queued: bool, q: Qid) {
    p == Pop(q) || p == Retry(q) || (p == Parked(q) && !queued)
  }

  function Pending(pc: map<Tid, Pc>, waiters: seq<Tid>, q: Qid): set<Tid> {
    set x | x in pc && Owes(pc[x], x in waiters, q)
  }

  /** If somebody waits, no more is available than there are wake-ups still owed. */
  predicate Covered(s: Sys, q: Qid) {
    s.c.Waiters(q) != [] ==> s.Avail(q) <= |Pending(s.pc, s.c.Waiters(q), q)|
  }

  /** A thread moves on: it may join or leave those that owe. */
  lemma PendingMove(pc: map<Tid, Pc>, w: seq<Tid>, q: Qid, u: Tid, p: Pc)
    requires u in pc && u !in w
    ensures Pending(pc[u := p], w, q) ==
            if Owes(p, false, q) then Pending(pc, w, q) + {u} else Pending(pc, w, q) - {u}
    ensures u in Pending(pc, w, q) <==> Owes(pc[u], false, q)
  {
  }

  lemma PendingPop(pc: map<Tid, Pc>, w: seq<Tid>, q: Qid)
    requires w != [] && NoDup(w) && w[0] in pc && pc[w[0]] == Parked(q)
    ensures Pending(pc, w[1..], q) == Pending(pc, w, q) + {w[0]} && w[0] !in Pending(pc, w, q)
  {
    NoDupTail(w);
  }

  // ------------------------------------------------ every step keeps every queue covered

  /** The current thread moves on, between places where it owes nothing, or always the same. */
  lemma MoveCovers(s: Sys, s': Sys, r: Qid, p: Pc)
    requires Structure(s) && Covered(s, r)
    requires s.c.st[s.c.cur] != Blocked && (Owes(p, false, r) <==> Owes(s.pc[s.c.cur], false, r))
    requires s'.pc == s.pc[s.c.cur := p] && s'.c.Waiters(r) == s.c.Waiters(r) && s'.Avail(r) <= s.Avail(r)
    ensures Covered(s', r)
  {
    assert WaiterOk(s, r, s.c.cur);
    PendingMove(s.pc, s.c.Waiters(r), r, s.c.cur, p);
  }

  lemma TakeOrWaitCovers(s: Sys, q: Qid, r: Qid)
    requires Structure(s) && Covered(s, r) && q in s.res && s.c.st[s.c.cur] == Running
    requires s.pc[s.c.cur] == Run || s.pc[s.c.cur] == Test(q) || s.pc[s.c.cur] == Retry(q)
    ensures Covered(TakeOrWait(s, q), r)
  {
    var s' := TakeOrWait(s, q);
    if r != q || s.pc[s.c.cur] != Retry(q) {
      MoveCovers(s, s', r, s'.pc[s.c.cur]);
    } else if s.Avail(q) > 0 {
      assert WaiterOk(s, q, s.c.cur);
      PendingMove(s.pc, s.c.Waiters(q), q, s.c.cur, Run);
    }
  }

  lemma ParkCovers(s: Sys, q: Qid, d: Globals, r: Qid)
    requires Structure(s) && Covered(s, r) && s.c.st[s.c.cur] == Running && r != q
    requires s.pc[s.c.cur] == Wait(q) || s.pc[s.c.cur] == Parked(q)
    requires d.waits == s.c.waits[q := s.c.Waiters(q) + [s.c.cur]]
    ensures Covered(s.At(Parked(q)).(c := d), r)
  {
    MoveCovers(s, s.At(Parked(q)).(c := d), r, Parked(q));
  }

  lemma CheckOrParkCovers(s: Sys, q: Qid, leave: Pc, r: Qid)
    requires Structure(s) && Covered(s, r) && s.c.st[s.c.cur] == Running
    requires (s.pc[s.c.cur] == Wait(q) && leave == Test(q)) || (s.pc[s.c.cur] == Parked(q) && leave == Retry(q))
    ensures Covered(CheckOrPark(s, q, leave), r)
  {
    if s.Avail(q) > 0 {
      MoveCovers(s, s.At(leave), r, leave);
    } else if r != q {
      ParkCovers(s, q, s.c.Park(q).Schedule(), r);
    } else {
      assert CheckOrPark(s, q, leave).Avail(q) <= 0;
    }
  }

  lemma PopWaiterCovers(s: Sys, q: Qid, all: bool, r: Qid)
    requires Structure(s) && Covered(s, r) && s.pc[s.c.cur] == (if all then PopAll(q) else Pop(q))
    ensures Covered(PopWaiter(s, q, all), r)
  {
    var s' := PopWaiter(s, q, all);
    var w := s.c.Waiters(q);
    assert ThreadOk(s, s.c.cur);
    if r != q {
      MoveCovers(s, s', r, s'.pc[s.c.cur]);
    } else if w != [] {
      assert WaiterOk(s, q, w[0]) && WaitQueueOk(s, q) && WaiterOk(s, q, s.c.cur);
      PendingPop(s.pc, w, q);
      NoDupTail(w);
      PendingMove(s.pc, w[1..], q, s.c.cur, s'.pc[s.c.cur]);
    }
  }

  lemma ReleaseCovers(s: Sys, q: Qid, r: Qid)
    requires Structure(s) && Covered(s, r) && s.pc[s.c.cur].Run? && q in s.res
    ensures Covered(Give(s, q).At(Pop(q)), r)
  {
    var s' := Give(s, q).At(Pop(q));
    assert ThreadOk(s, s.c.cur);
    if r != q {
      MoveCovers(s, s', r, Pop(q));
    } else {
      assert WaiterOk(s, q, s.c.cur);
      PendingMove(s.pc, s.c.Waiters(q), q, s.c.cur, Pop(q));
    }
  }

  lemma KeyIrqCovers(s: Sys, q: Qid, r: Qid)
    requires Structure(s) && Covered(s, r) && q in s.res
    ensures Covered(KeyIrqStep(s, q), r)
  {
    var w := s.c.Waiters(q);
    if r == q && w != [] {
      assert WaiterOk(s, q, w[0]) && WaitQueueOk(s, q);
      PendingPop(s.pc, w, q);
    }
  }

  lemma ContinueTakingCovers(s: Sys, p: Pc, r: Qid)
    requires Structure(s) && Covered(s, r) && s.pc[s.c.cur] == p && (p.Test? || p.Retry? || p.Wait? || p.Parked?)
    ensures Covered(ContinueTaking(s, p), r)
  {
    assert ThreadOk(s, s.c.cur);
    match p
    case Test(q) => TakeOrWaitCovers(s, q, r);
    case Retry(q) => TakeOrWaitCovers(s, q, r);
    case Wait(q) => CheckOrParkCovers(s, q, Test(q), r);
    case Parked(q) => CheckOrParkCovers(s, q, Retry(q), r);
  }

  lemma ContinueWakingCovers(s: Sys, p: Pc, r: Qid)
    requires Structure(s) && Covered(s, r) && s.pc[s.c.cur] == p && (p.Pop? || p.PopAll? || p.Hold? || p.HoldAll?)
    ensures Covered(ContinueWaking(s, p), r)
  {
    assert ThreadOk(s, s.c.cur);
    match p
    case Pop(q) => PopWaiterCovers(s, q, false, r);
    case PopAll(q) => PopWaiterCovers(s, q, true, r);
    case Hold(q, t) => MoveCovers(s, WakeHeld(s, t, Run), r, Run);
    case HoldAll(q, t) => MoveCovers(s, WakeHeld(s, t, PopAll(q)), r, PopAll(q));
  }

  lemma FreeZombieCovers(s: Sys, z: Tid, r: Qid)
    requires Structure(s) && Covered(s, r) && s.pc[s.c.cur] == Reaping(z)
    ensures Covered(FreeZombie(s, z), r)
  {
    assert HeldOk(s, z) && ThreadOk(s, z) && ThreadOk(s, s.c.cur);
    var w := s.c.Waiters(r);
    assert Pending(s.pc - {z}, w, r) == Pending(s.pc, w, r);
    assert WaiterOk(s, r, s.c.cur);
    PendingMove(s.pc - {z}, w, r, s.c.cur, Reap);
  }

  lemma ContinueThreadCovers(s: Sys, p: Pc, r: Qid)
    requires Structure(s) && Covered(s, r) && s.pc[s.c.cur] == p && !p.HasQueue()
    ensures Covered(ContinueThread(s, p), r)
  {
    var s' := ContinueThread(s, p);
    if p.Reaping? {
      FreeZombieCovers(s, p.t, r);
    } else {
      MoveCovers(s, s', r, s'.PcOf(s.c.cur));
    }
  }

  lemma AcquireCovers(s: Sys, q: Qid, r: Qid)
    requires Structure(s) && Covered(s, r) && s.pc[s.c.cur].Run? && q in s.res
    ensures Covered(AcquireStep(s, q), r)
  {
    assert ThreadOk(s, s.c.cur);
    TakeOrWaitCovers(s, q, r);
    MoveCovers(s, s.At(Wait(q)), r, Wait(q));
  }

  lemma CallSyncCovers(s: Sys, l: Label, r: Qid)
    requires Structure(s) && Covered(s, r) && s.pc[s.c.cur].Run?
    ensures Covered(CallSync(s, l), r)
  {
    assert ThreadOk(s, s.c.cur);
    match l
    case Acquire(q) => if q in s.res { AcquireCovers(s, q, r); }
    case TryAcquire(q) =>
    case Release(q) => if q in s.res { ReleaseCovers(s, q, r); }
    case WakeAll(q) => MoveCovers(s, s.At(PopAll(q)), r, PopAll(q));
    case _ =>
  }

  lemma SleepCovers(s: Sys, n: nat, r: Qid)
    requires Structure(s) && Covered(s, r) && s.pc[s.c.cur].Run?
    ensures Covered(SleepStep(s, n), r)
  {
    assert ThreadOk(s, s.c.cur);
    if n > 0 && s.c.cur != s.c.idle {
      MoveCovers(s, SleepStep(s, n), r, SleepYield);
    }
  }

  lemma ExitCovers(s: Sys, r: Qid)
    requires Structure(s) && Covered(s, r) && s.pc[s.c.cur].Run?
    ensures Covered(s.At(ExitYield).(c := s.c.ExitCurrent()), r)
  {
    assert ThreadOk(s, s.c.cur);
    MoveCovers(s, s.At(ExitYield).(c := s.c.ExitCurrent()), r, ExitYield);
  }

  lemma CreateCovers(s: Sys, enqueue: bool, r: Qid)
    requires Structure(s) && Covered(s, r)
    ensures Covered(CreateStep(s, enqueue), r)
  {
    assert ThreadOk(s, s.nextId);
    var pc' := s.pc[s.nextId := Run];
    assert Pending(pc', s.c.Waiters(r), r) == Pending(s.pc, s.c.Waiters(r), r);
  }

  lemma CallThreadCovers(s: Sys, l: Label, r: Qid)
    requires Structure(s) && Covered(s, r) && s.pc[s.c.cur].Run?
    ensures Covered(CallThread(s, l), r)
  {
    hide Sched.Schedule, SleepStep, CreateStep, Sched.ExitCurrent;
    match l
    case Sleep(n) => SleepCovers(s, n, r);
    case Exit => ExitCovers(s, r);
    case Create(enqueue) => CreateCovers(s, enqueue, r);
    case ReapZombies =>
      assert ThreadOk(s, s.c.cur);
      MoveCovers(s, s.At(Reap), r, Reap);
    case _ =>
  }

  /** Every step keeps every queue covered. */
  lemma StepCovers(s: Sys, l: Label, r: Qid)
    requires Structure(s) && Covered(s, r)
    ensures Covered(Step(s, l), r)
  {
    if s.panic.Some? {
    } else if l.Timer? {
    } else if l.KeyIrq? {
      if l.q in s.res { KeyIrqCovers(s, l.q, r); }
    } else if l.Go? {
      var p := s.pc[s.c.cur];
      if p.Test? || p.Retry? || p.Wait? || p.Parked? { ContinueTakingCovers(s, p, r); }
      else if p.Pop? || p.PopAll? || p.Hold? || p.HoldAll? { ContinueWakingCovers(s, p, r); }
      else { ContinueThreadCovers(s, p, r); }
    } else if s.pc[s.c.cur].Run? {
      CallSyncCovers(s, l, r);
      CallThreadCovers(s, l, r);
    }
  }

  // ------------------------------------------------ over all runs

  ghost predicate Inv(s: Sys) {
    Structure(s) && ResourcesOk(s) && forall q :: Covered(s, q)
  }

  lemma InitInv(s: Sys)
    requires Init(s)
    ensures Inv(s)
  {
    forall x ensures QueuedOk(s.c, x) && ThreadOk(s, x) && HeldOk(s, x) { }
  }

  lemma {:induction false} RunInv(s: Sys, labels: seq<Label>)
    requires Inv(s)
    ensures Inv(RunAll(s, labels))
    decreases |labels|
  {
    if labels != [] {
      StepKeeps(s, labels[0]);
      StepKeepsResources(s, labels[0]);
      forall q ensures Covered(Step(s, labels[0]), q) { StepCovers(s, labels[0], q); }
      RunInv(Step(s, labels[0]), labels[1..]);
    }
  }

  /** Where a thread can be. */
  datatype Place =
    | OnReady(i: nat) | OnSleep(i: nat) | OnZombie(i: nat) | OnWait(q: Qid, i: nat)
    | HeldByThread(u: Tid) | Unstarted | ExitedBootstrap

  ghost predicate At(s: Sys, t: Tid, p: Place) {
    match p
    case OnReady(i) => i < |s.c.ready| && s.c.ready[i] == t
    case OnSleep(i) => i < |s.c.sleep| && s.c.sleep[i] == t
    case OnZombie(i) => i < |s.c.zombie| && s.c.zombie[i] == t
    case OnWait(q, i) => i < |s.c.Waiters(q)| && s.c.Waiters(q)[i] == t
    case HeldByThread(u) => u in s.pc && s.pc[u].Holds() && s.pc[u].t == t
    case Unstarted => s.c.State(t) == New
    case ExitedBootstrap => t == s.c.boot && s.c.State(t) == Zombie
  }

  lemma AtMostOnePlace(s: Sys, t: Tid, p: Place, p': Place)
    requires Structure(s) && t in s.c.st && At(s, t, p) && At(s, t, p')
    ensures p == p'
  {
    assert QueuedOk(s.c, t) && HeldOk(s, t) && ThreadOk(s, t);
    if p.HeldByThread? { assert ThreadOk(s, p.u); }
    if p'.HeldByThread? { assert ThreadOk(s, p'.u); }
    if p.OnWait? { assert WaiterOk(s, p.q, t) && WaitQueueOk(s, p.q); }
    if p'.OnWait? { assert WaiterOk(s, p'.q, t) && WaitQueueOk(s, p'.q); }
  }

  lemma SomePlace(s: Sys, t: Tid) returns (p: Place)
    requires Structure(s) && t in s.c.st && t != s.c.idle && t != s.c.cur
    ensures At(s, t, p)
  {
    assert QueuedOk(s.c, t) && HeldOk(s, t) && ThreadOk(s, t);
    match s.c.st[t]
    case New => p := Unstarted;
    case Ready => var i :| 0 <= i < |s.c.ready| && s.c.ready[i] == t; p := OnReady(i);
    case Sleeping => var i :| 0 <= i < |s.c.sleep| && s.c.sleep[i] == t; p := OnSleep(i);
    case Blocked =>
      if t in s.heldBy {
        p := HeldByThread(s.heldBy[t]);
      } else {
        var w := s.c.Waiters(s.pc[t].q);
        var i :| 0 <= i < |w| && w[i] == t;
        p := OnWait(s.pc[t].q, i);
      }
    case Zombie =>
      if t == s.c.boot {
        p := ExitedBootstrap;
      } else if t in s.heldBy {
        p := HeldByThread(s.heldBy[t]);
      } else {
        var i :| 0 <= i < |s.c.zombie| && s.c.zombie[i] == t;
        p := OnZombie(i);
      }
  }

  lemma IdleOnNoQueue(s: Sys)
    requires Structure(s)
    ensures forall p :: At(s, s.c.idle, p) ==> p.Unstarted?
  {
    assert QueuedOk(s.c, s.c.idle) && HeldOk(s, s.c.idle);
    assert forall q :: s.c.idle !in s.c.Waiters(q) by {
      forall q ensures s.c.idle !in s.c.Waiters(q) { assert WaiterOk(s, q, s.c.idle); }
    }
    assert forall u :: u in s.pc && s.pc[u].Holds() ==> s.pc[u].t != s.c.idle by {
      forall u ensures u in s.pc && s.pc[u].Holds() ==> s.pc[u].t != s.c.idle { assert ThreadOk(s, u); }
    }
  }

  ghost predicate OnNoQueue(s: Sys, x: Tid) {
    x !in s.c.ready && x !in s.c.sleep && x !in s.c.zombie && forall q :: x !in s.c.Waiters(q)
  }

  lemma UnlinkedIsFree(s: Sys, x: Tid)
    requires Structure(s)
    ensures (x == s.c.cur && s.c.State(x) == Running) || x in s.heldBy || s.c.State(x) == New ==> OnNoQueue(s, x)
  {
    assert QueuedOk(s.c, x) && HeldOk(s, x) && CurrentOk(s);
    forall q ensures x in s.c.Waiters(q) ==> s.c.State(x) == Blocked && x !in s.heldBy { assert WaiterOk(s, q, x); }
  }

  /** In every run the threads that the queue operations link, a RUNNING current thread, one taken by its waker or
      reaper, or a new one, are on no queue: what those operations ask of their callers. */
  lemma LinkedThreadsAreFree(s0: Sys, labels: seq<Label>, x: Tid)
    requires Init(s0)
    ensures var s := RunAll(s0, labels);
            (x == s.c.cur && s.c.State(x) == Running) || x in s.heldBy || s.c.State(x) == New ==> OnNoQueue(s, x)
  {
    InitInv(s0);
    RunInv(s0, labels);
    UnlinkedIsFree(RunAll(s0, labels), x);
  }

  /** In every run, every thread but idle and the current one is in exactly one place: at one position of one
      queue, not yet started, taken off its queue by exactly one thread, or it is the boot thread after its exit, which
      is on no queue and never reaped.  Idle is on no queue, and even the current thread is nowhere twice. */
  lemma NoThreadLostOrQueuedTwice(s0: Sys, labels: seq<Label>, t: Tid)
    requires Init(s0)
    ensures var s := RunAll(s0, labels);
            && (t in s.c.st && t != s.c.idle && t != s.c.cur ==> exists p :: At(s, t, p))
            && (t in s.c.st ==> forall p, p' :: At(s, t, p) && At(s, t, p') ==> p == p')
            && (forall p :: At(s, s.c.idle, p) ==> p.Unstarted?)
  {
    InitInv(s0);
    RunInv(s0, labels);
    var s := RunAll(s0, labels);
    if t in s.c.st {
      forall p, p' | At(s, t, p) && At(s, t, p') ensures p == p' { AtMostOnePlace(s, t, p, p'); }
      if t != s.c.idle && t != s.c.cur { var p := SomePlace(s, t); }
    }
    IdleOnNoQueue(s);
  }

  /** In every run, if a mutex is free while threads wait on it, some thread has still to wake one of them or,
      taken off that queue, to test it again; and a semaphore's or the ring's count with waiters never exceeds
      the number of such threads. */
  lemma NoLostWakeup(s0: Sys, labels: seq<Label>, q: Qid)
    requires Init(s0)
    ensures var s := RunAll(s0, labels);
            s.c.Waiters(q) != [] ==>
              && s.Avail(q) <= |Pending(s.pc, s.c.Waiters(q), q)|
              && (q in s.res && s.res[q].kind.Mutex? && !s.res[q].locked ==>
                    exists x :: x in Pending(s.pc, s.c.Waiters(q), q))
  {
    InitInv(s0);
    RunInv(s0, labels);
    var s := RunAll(s0, labels);
    assert Covered(s, q);
    var pending := Pending(s.pc, s.c.Waiters(q), q);
    assert pending == {} || exists x :: x in pending;
  }

  ghost predicate CanRun(s: Sys, x: Tid) {
    x in s.c.ready || (x == s.c.cur && s.c.State(x) == Running) || (x == s.c.idle && s.c.State(x) == Running)
  }

  /** In every run, a thread that owes a wake-up or a re-check is itself waiting for nothing but the processor,
      or has been taken by a waker that is. */
  lemma PendingCanRun(s0: Sys, labels: seq<Label>, q: Qid, x: Tid)
    requires Init(s0)
    ensures var s := RunAll(s0, labels);
            x in Pending(s.pc, s.c.Waiters(q), q) ==>
              CanRun(s, x) || exists u :: u in s.pc && s.pc[u].Holds() && s.pc[u].t == x && CanRun(s, u)
  {
    InitInv(s0);
    RunInv(s0, labels);
    var s := RunAll(s0, labels);
    assert QueuedOk(s.c, x) && ThreadOk(s, x) && HeldOk(s, x);
    if x in Pending(s.pc, s.c.Waiters(q), q) && x in s.heldBy {
      var u := s.heldBy[x];
      assert QueuedOk(s.c, u) && ThreadOk(s, u);
      assert CanRun(s, u);
    }
  }

  /** In every run at most one thread is between its lock and its unlock, and it is the recorded owner. */
  lemma MutualExclusion(s0: Sys, labels: seq<Label>, q: Qid, a: Tid, b: Tid)
    requires Init(s0)
    requires q in RunAll(s0, labels).res && RunAll(s0, labels).res[q].kind.Mutex?
    ensures var r := RunAll(s0, labels).res[q];
            && (r.locked <==> r.owner.Some?)
            && (a in r.inside <==> r.owner == Some(a))
            && (a in r.inside && b in r.inside ==> a == b)
  {
    InitInv(s0);
    RunInv(s0, labels);
    assert ResourceOk(RunAll(s0, labels).res[q]);
  }

  /** In every run a count is what it started at, plus the completed gives, less the completed takes, and
      never negative. */
  lemma CountConserved(s0: Sys, labels: seq<Label>, q: Qid)
    requires Init(s0) && q in RunAll(s0, labels).res
    ensures var r := RunAll(s0, labels).res[q];
            r.Avail() == r.initial + r.gives - r.takes && r.Avail() >= 0
  {
    InitInv(s0);
    RunInv(s0, labels);
    assert ResourceOk(RunAll(s0, labels).res[q]);
  }

  lemma StepPanics(s: Sys, l: Label)
    requires Structure(s)
    ensures Step(s, l).panic == s.panic || Step(s, l).panic !in {Some(BlockNotRunning), Some(ExitReturned)}
  {
    if l.Go? && s.panic.None? {
      ContinueKeeps(s, s.pc[s.c.cur]);
    }
  }

  /** No run reaches the panic of thread_exit or the one of thread_block_current for a thread not RUNNING. */
  lemma {:induction false} UnreachablePanics(s: Sys, labels: seq<Label>)
    requires Inv(s) && s.panic !in {Some(BlockNotRunning), Some(ExitReturned)}
    ensures RunAll(s, labels).panic !in {Some(BlockNotRunning), Some(ExitReturned)}
    decreases |labels|
  {
    if labels != [] {
      StepPanics(s, labels[0]);
      RunInv(s, [labels[0]]);
      assert RunAll(s, [labels[0]]) == Step(s, labels[0]);
      UnreachablePanics(Step(s, labels[0]), labels[1..]);
    }
  }
}
