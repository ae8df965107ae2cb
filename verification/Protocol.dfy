/** The kernel's concurrency protocol: threads interleaved at every boundary of a section that runs
    with interrupts disabled.  A step is a label; a run is any sequence of labels.  A label that is not
    enabled leaves the state alone, and a panic is a state that no label leaves. */
module Protocol {
  import opened Base
  import opened SchedulerSpec

  type Tid = nat
  type Qid = nat

  const INT32_MAX: int := 0x7FFF_FFFF

  /** Where a thread stands inside a blocking call.  `Run` is any code outside these calls. */
  datatype Pc =
    | Run
    | Test(q: Qid)            // about to test and take, never queued by this call
    | Wait(q: Qid)            // about to enter wait_queue_wait
    | Parked(q: Qid)          // queued by wait_queue_wait, re-checks when it next runs
    | Retry(q: Qid)           // left wait_queue_wait after being queued, about to test and take
    | Pop(q: Qid)             // has given, about to pop a waiter
    | Hold(q: Qid, t: Tid)    // popped t, about to wake it
    | PopAll(q: Qid)
    | HoldAll(q: Qid, t: Tid)
    | SleepYield | ExitYield | ExitDone
    | Reap
    | Reaping(t: Tid)         // popped zombie t, about to free it
  {
    predicate Holds() { Hold? || HoldAll? || Reaping? }
    predicate HasQueue() { Test? || Wait? || Parked? || Retry? || Pop? || Hold? || PopAll? || HoldAll? }
  }

  datatype Kind = Mutex | Semaphore | Ring(capacity: nat)

  /** A mutex, a semaphore or the keyboard ring (of which only the fill count matters here).
      `initial`, `gives`, `takes` and, for a mutex, `inside` are history: they record completed
      operations and the threads between their lock and their unlock. */
  datatype Resource = Resource(
    kind: Kind, locked: bool, owner: Option<Tid>, count: int,
    initial: int, gives: nat, takes: nat, inside: set<Tid>)
  {
    function Avail(): int {
      if kind.Mutex? then (if locked then 0 else 1) else count
    }
  }

  datatype Panic = RecursiveLock | UnlockUnlocked | UnlockByOther | IdleBlocks | BlockNotRunning
                 | StartNotNew | ExitReturned | CountOverflow

  /** `heldBy` maps a thread taken off a queue to the thread that took it; `now` counts all ticks ever
      and `due` holds the tick, on that scale, a sleeper asked for. */
  datatype Sys = Sys(
    c: Sched<Tid, Qid>, pc: map<Tid, Pc>, heldBy: map<Tid, Tid>,
    res: map<Qid, Resource>, nextId: Tid, now: nat, due: map<Tid, nat>, panic: Option<Panic>)
  {
    function PcOf(t: Tid): Pc { if t in pc then pc[t] else Run }
    function At(p: Pc): Sys { this.(pc := pc[c.cur := p]) }
    function Fail(p: Panic): Sys { this.(panic := Some(p)) }
    function Avail(q: Qid): int { if q in res then res[q].Avail() else 0 }
  }

  datatype Label =
    | Timer | KeyIrq(q: Qid) | Yield | Go
    | Acquire(q: Qid) | TryAcquire(q: Qid) | Release(q: Qid) | WakeAll(q: Qid)
    | Sleep(n: nat) | Exit
    | Create(enqueue: bool) | Start(t: Tid)
    | ReapZombies | PreemptionInit(perSlice: nat)

  // ---------------------------------------------------------------- steps

  function Take(s: Sys, q: Qid): Sys
    requires q in s.res
  {
    var r := s.res[q];
    s.(res := s.res[q :=
         if r.kind.Mutex? then
           r.(takes := r.takes + 1, locked := true, owner := Some(s.c.cur), inside := r.inside + {s.c.cur})
         else r.(takes := r.takes + 1, count := r.count - 1)])
  }

  function Give(s: Sys, q: Qid): Sys
    requires q in s.res
  {
    var r := s.res[q];
    s.(res := s.res[q :=
         if r.kind.Mutex? then
           r.(gives := r.gives + 1, locked := false, owner := None, inside := r.inside - {s.c.cur})
         else r.(gives := r.gives + 1, count := r.count + 1)])
  }

  /** The test-and-take section shared by mutex_lock, semaphore_wait and keyboard_getchar_blocking. */
  function TakeOrWait(s: Sys, q: Qid): Sys
    requires q in s.res
  {
    if s.Avail(q) > 0 then Take(s, q).At(Run) else s.At(Wait(q))
  }

  /** One turn of the loop of wait_queue_wait, from its test to its yield. */
  function CheckOrPark(s: Sys, q: Qid, leave: Pc): Sys {
    if s.Avail(q) > 0 then s.At(leave)
    else if s.c.cur == s.c.idle then s.Fail(IdleBlocks)
    else if s.c.State(s.c.cur) != Running then s.Fail(BlockNotRunning)
    else s.At(Parked(q)).(c := s.c.Park(q).Schedule())
  }

  function PopWaiter(s: Sys, q: Qid, all: bool): Sys {
    var w := s.c.Waiters(q);
    if w == [] then s.At(Run)
    else s.At(if all then HoldAll(q, w[0]) else Hold(q, w[0]))
          .(c := s.c.WaitPop(q), heldBy := s.heldBy[w[0] := s.c.cur])
  }

  function WakeHeld(s: Sys, t: Tid, next: Pc): Sys {
    s.At(next).(c := s.c.Wake(t), heldBy := s.heldBy - {t})
  }

  function PopZombie(s: Sys): Sys {
    var z := s.c.zombie;
    if z == [] then s.At(Run)
    else s.At(Reaping(z[0])).(c := s.c.ZombiePop(), heldBy := s.heldBy[z[0] := s.c.cur])
  }

  function FreeZombie(s: Sys, z: Tid): Sys {
    s.(c := s.c.FreeThread(z), pc := (s.pc - {z})[s.c.cur := Reap],
       heldBy := s.heldBy - {z}, due := s.due - {z})
  }

  function ContinueTaking(s: Sys, p: Pc): Sys {
    match p
    case Test(q) => if q in s.res then TakeOrWait(s, q) else s
    case Retry(q) => if q in s.res then TakeOrWait(s, q) else s
    case Wait(q) => CheckOrPark(s, q, Test(q))
    case Parked(q) => CheckOrPark(s, q, Retry(q))
    case _ => s
  }

  function ContinueWaking(s: Sys, p: Pc): Sys {
    match p
    case Pop(q) => PopWaiter(s, q, false)
    case PopAll(q) => PopWaiter(s, q, true)
    case Hold(q, t) => WakeHeld(s, t, Run)
    case HoldAll(q, t) => WakeHeld(s, t, PopAll(q))
    case _ => s
  }

  function ContinueThread(s: Sys, p: Pc): Sys {
    match p
    case SleepYield => s.At(Run).(c := s.c.Schedule())
    case ExitYield => s.At(ExitDone).(c := s.c.Schedule())
    case ExitDone => s.Fail(ExitReturned)
    case Reap => PopZombie(s)
    case Reaping(z) => FreeZombie(s, z)
    case _ => s
  }

  /** The current thread, which stands at `p`, runs the next section of the call it is in. */
  function Continue(s: Sys, p: Pc): Sys {
    if p.Test? || p.Retry? || p.Wait? || p.Parked? then ContinueTaking(s, p)
    else if p.Pop? || p.PopAll? || p.Hold? || p.HoldAll? then ContinueWaking(s, p)
    else ContinueThread(s, p)
  }

  function AcquireStep(s: Sys, q: Qid): Sys
    requires q in s.res
  {
    var r := s.res[q];
    if r.kind.Ring? then s.At(Wait(q))
    else if r.kind.Mutex? && r.locked && r.owner == Some(s.c.cur) then s.Fail(RecursiveLock)
    else TakeOrWait(s, q)
  }

  function ReleaseStep(s: Sys, q: Qid): Sys
    requires q in s.res
  {
    var r := s.res[q];
    match r.kind
    case Mutex =>
      if !r.locked then s.Fail(UnlockUnlocked)
      else if r.owner != Some(s.c.cur) then s.Fail(UnlockByOther)
      else Give(s, q).At(Pop(q))
    case Semaphore =>
      if r.count >= INT32_MAX then s.Fail(CountOverflow) else Give(s, q).At(Pop(q))
    case Ring(cap) =>
      if r.count >= cap then s else Give(s, q).At(Pop(q))
  }

  /** keyboard_deliver_char from the interrupt handler: push, pop a waiter and wake it, all with interrupts off. */
  function KeyIrqStep(s: Sys, q: Qid): Sys
    requires q in s.res
  {
    var r := s.res[q];
    if !r.kind.Ring? || r.count >= r.kind.capacity then s
    else
      var s' := s.(res := s.res[q := r.(count := r.count + 1, gives := r.gives + 1)]);
      var w := s.c.Waiters(q);
      if w == [] then s' else s'.(c := s.c.WaitPop(q).Wake(w[0]))
  }

  function SleepStep(s: Sys, n: nat): Sys {
    if n == 0 then s.(c := s.c.Schedule())
    else if s.c.cur == s.c.idle then s
    else s.At(SleepYield).(c := s.c.SleepTicks(n), due := s.due[s.c.cur := s.now + n])
  }

  function CreateStep(s: Sys, enqueue: bool): Sys {
    var t := s.nextId;
    var s' := s.(c := s.c.NewThread(t), pc := s.pc[t := Run], nextId := t + 1);
    if enqueue then s'.(c := s'.c.ReadyPush(t)) else s'
  }

  function StartStep(s: Sys, t: Tid): Sys {
    if t !in s.c.st then s
    else if s.c.st[t] != New then s.Fail(StartNotNew)
    else s.(c := s.c.ReadyPush(t))
  }

  /** Calls on a mutex, a semaphore or the ring. */
  function CallSync(s: Sys, l: Label): Sys {
    match l
    case Acquire(q) => if q in s.res then AcquireStep(s, q) else s
    case TryAcquire(q) => if q in s.res && s.Avail(q) > 0 then Take(s, q) else s
    case Release(q) => if q in s.res then ReleaseStep(s, q) else s
    case WakeAll(q) => if q in s.res then s.At(PopAll(q)) else s
    case _ => s
  }

  /** Calls on threads. */
  function CallThread(s: Sys, l: Label): Sys {
    match l
    case Yield => s.(c := s.c.Schedule())
    case Sleep(n) => if n < WRAP then SleepStep(s, n) else s
    case Exit => if s.c.cur == s.c.idle then s else s.At(ExitYield).(c := s.c.ExitCurrent())
    case Create(enqueue) => CreateStep(s, enqueue)
    case Start(t) => StartStep(s, t)
    case ReapZombies => s.At(Reap)
    case PreemptionInit(n) => s.(c := s.c.StartPreemption(n))
    case _ => s
  }

  /** Interrupts strike anywhere; `Go` runs the section the current thread has reached; the current thread
      starts a call from outside the others. */
  function Step(s: Sys, l: Label): Sys {
    if s.panic.Some? then s
    else if l.Timer? then s.(c := s.c.TimerIrq(), now := s.now + 1)
    else if l.KeyIrq? then (if l.q in s.res then KeyIrqStep(s, l.q) else s)
    else if l.Go? then Continue(s, s.PcOf(s.c.cur))
    else if s.PcOf(s.c.cur) != Run then s
    else if l.Acquire? || l.TryAcquire? || l.Release? || l.WakeAll? then CallSync(s, l)
    else CallThread(s, l)
  }

  function RunAll(s: Sys, labels: seq<Label>): Sys
    decreases |labels|
  {
    if labels == [] then s else RunAll(Step(s, labels[0]), labels[1..])
  }

  /** The state after threading_init, with its mutexes, semaphores and ring freshly initialised. */
  ghost predicate Init(s: Sys) {
    && s.c.boot != s.c.idle && s.c.cur == s.c.boot && s.c.boot < s.nextId && s.c.idle < s.nextId
    && s.c.st == map[s.c.boot := Running, s.c.idle := New]
    && s.pc == map[s.c.boot := Run, s.c.idle := Run]
    && s.c.ready == [] && s.c.sleep == [] && s.c.zombie == []
    && s.c.wake == map[s.c.boot := 0, s.c.idle := 0] && !s.c.resched
    && s.c.waits.Keys == s.res.Keys && (forall q | q in s.res :: s.c.waits[q] == []) && s.heldBy == map[]
    && s.c.ticks == 0 && s.now == 0 && s.c.slice == 0 && s.c.perSlice == 1 && !s.c.preempt
    && s.panic == None
    && (forall q | q in s.res :: InitResource(s.res[q]))
  }

  ghost predicate InitResource(r: Resource) {
    && r.gives == 0 && r.takes == 0 && r.inside == {} && r.initial == r.Avail()
    && match r.kind
       case Mutex => !r.locked && r.owner == None
       case Semaphore => 0 <= r.count <= INT32_MAX
       case Ring(cap) => r.count == 0
  }
}
