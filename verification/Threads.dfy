/** The scheduler's sections that run with interrupts disabled, over thread objects whose single pair of
    links every queue shares.  A thread is named by its address; each field of the thread structure is a map
    from addresses, and address 0 is the null pointer.  Every method is proved to do to the sequences behind
    the links what `SchedulerSpec` says. */
module Threads {
  import opened SchedulerSpec

  type Ptr = nat
  type Qid = nat

  const NULL: Ptr := 0

  /** The i-th element of a queue, or null beyond either end. */
  function Nth(s: seq<Ptr>, i: int): Ptr {
    if 0 <= i < |s| then s[i] else NULL
  }

  ghost predicate LinksAt(next: map<Ptr, Ptr>, prev: map<Ptr, Ptr>, s: seq<Ptr>, i: nat)
    requires i < |s|
  {
    s[i] in next && s[i] in prev && next[s[i]] == Nth(s, i + 1) && prev[s[i]] == Nth(s, i - 1)
  }

  /** `head` and `tail` bound a doubly linked chain that runs through exactly `s`. */
  ghost predicate Chain(next: map<Ptr, Ptr>, prev: map<Ptr, Ptr>, head: Ptr, tail: Ptr, s: seq<Ptr>) {
    && NoDup(s) && NULL !in s && head == Nth(s, 0) && tail == Nth(s, |s| - 1)
    && forall i :: 0 <= i < |s| ==> LinksAt(next, prev, s, i)
  }

  lemma ChainFrame(next: map<Ptr, Ptr>, prev: map<Ptr, Ptr>, next': map<Ptr, Ptr>, prev': map<Ptr, Ptr>,
                   head: Ptr, tail: Ptr, s: seq<Ptr>)
    requires Chain(next, prev, head, tail, s)
    requires forall x :: x in s ==> x in next' && x in prev'
    requires forall x :: x in s && x in next ==> next'[x] == next[x]
    requires forall x :: x in s && x in prev ==> prev'[x] == prev[x]
    ensures Chain(next', prev', head, tail, s)
  {
    forall i | 0 <= i < |s| ensures LinksAt(next', prev', s, i) {
      assert LinksAt(next, prev, s, i) && s[i] in s;
    }
  }

  lemma ChainAppend(next: map<Ptr, Ptr>, prev: map<Ptr, Ptr>, head: Ptr, tail: Ptr, s: seq<Ptr>, t: Ptr,
                    next': map<Ptr, Ptr>, prev': map<Ptr, Ptr>)
    requires Chain(next, prev, head, tail, s) && t !in s && t != NULL
    requires prev' == prev[t := tail]
    requires next' == if tail != NULL then next[t := NULL][tail := t] else next[t := NULL]
    ensures Chain(next', prev', if tail != NULL then head else t, t, s + [t])
  {
    NoDupAppend(s, t);
    var r := s + [t];
    assert s != [] ==> tail in s;
    forall i | 0 <= i < |r| ensures LinksAt(next', prev', r, i) {
      if i < |s| { assert LinksAt(next, prev, s, i); }
    }
  }

  lemma ChainTail(next: map<Ptr, Ptr>, prev: map<Ptr, Ptr>, head: Ptr, tail: Ptr, s: seq<Ptr>,
                  next': map<Ptr, Ptr>, prev': map<Ptr, Ptr>)
    requires Chain(next, prev, head, tail, s) && s != []
    requires next' == next[s[0] := NULL]
    requires prev' == if Nth(s, 1) != NULL then prev[Nth(s, 1) := NULL][s[0] := NULL] else prev[s[0] := NULL]
    ensures Chain(next', prev', Nth(s, 1), if Nth(s, 1) != NULL then tail else NULL, s[1..])
  {
    NoDupTail(s);
    var r := s[1..];
    assert forall i :: 0 <= i < |r| ==> r[i] == s[i + 1] && s[i + 1] in s;
    forall i | 0 <= i < |r| ensures LinksAt(next', prev', r, i) {
      assert LinksAt(next, prev, s, i + 1);
    }
  }

  /** Linking `t` in front of the k-th element, as `sleep_insert` does in each of its three cases. */
  lemma ChainInsert(next: map<Ptr, Ptr>, prev: map<Ptr, Ptr>, head: Ptr, tail: Ptr, s: seq<Ptr>, t: Ptr, k: nat,
                    next': map<Ptr, Ptr>, prev': map<Ptr, Ptr>)
    requires Chain(next, prev, head, tail, s) && t !in s && t != NULL && k <= |s|
    requires next' == if k > 0 then next[t := Nth(s, k)][s[k - 1] := t] else next[t := Nth(s, k)]
    requires prev' == if k < |s| then prev[t := Nth(s, k - 1)][s[k] := t] else prev[t := Nth(s, k - 1)]
    ensures Chain(next', prev', if k == 0 then t else head, if k == |s| then t else tail, s[..k] + [t] + s[k..])
  {
    var r := s[..k] + [t] + s[k..];
    InsertNoDup(s, t, k);
    forall i | 0 <= i < |r| ensures LinksAt(next', prev', r, i) {
      if i < k { assert LinksAt(next, prev, s, i); }
      if i > k { assert LinksAt(next, prev, s, i - 1); }
    }
  }

  lemma InsertNoDup(s: seq<Ptr>, t: Ptr, k: nat)
    requires NoDup(s) && t !in s && k <= |s|
    ensures NoDup(s[..k] + [t] + s[k..])
    ensures forall x :: x in s[..k] + [t] + s[k..] <==> x in s || x == t
  {
    assert s == s[..k] + s[k..];
  }

  // ------------------------------------------------ all queues at once

  type Lists = map<Qid, seq<Ptr>>

  /** Every queue's head and tail bound a chain through exactly its threads. */
  ghost predicate ChainOf(next: map<Ptr, Ptr>, prev: map<Ptr, Ptr>, head: map<Qid, Ptr>, tail: map<Qid, Ptr>,
                          items: Lists, q: Qid)
    requires q in items
  {
    q in head && q in tail && Chain(next, prev, head[q], tail[q], items[q])
  }

  ghost predicate Chains(next: map<Ptr, Ptr>, prev: map<Ptr, Ptr>, head: map<Qid, Ptr>, tail: map<Qid, Ptr>,
                         items: Lists) {
    forall q :: q in items ==> ChainOf(next, prev, head, tail, items, q)
  }

  ghost predicate HomeOf(on: map<Ptr, Qid>, items: Lists, q: Qid)
    requires q in items
  {
    forall t :: t in items[q] ==> t in on && on[t] == q
  }

  /** `on` says which queue a thread is on: so no thread is on two. */
  ghost predicate Homes(on: map<Ptr, Qid>, items: Lists) {
    && (forall q :: q in items ==> HomeOf(on, items, q))
    && (forall t :: t in on ==> on[t] in items && t in items[on[t]])
  }

  /** Links written only in threads of queue `q`, and in `t`, leave every other queue's chain alone. */
  lemma OtherChains(next: map<Ptr, Ptr>, prev: map<Ptr, Ptr>, head: map<Qid, Ptr>, tail: map<Qid, Ptr>,
                    items: Lists, on: map<Ptr, Qid>, q: Qid, t: Ptr,
                    next': map<Ptr, Ptr>, prev': map<Ptr, Ptr>, head': map<Qid, Ptr>, tail': map<Qid, Ptr>,
                    s: seq<Ptr>)
    requires Chains(next, prev, head, tail, items) && Homes(on, items) && q in items
    requires t in on ==> on[t] == q
    requires forall x :: x in next ==> x in next' && (x != t && x !in items[q] ==> next'[x] == next[x])
    requires forall x :: x in prev ==> x in prev' && (x != t && x !in items[q] ==> prev'[x] == prev[x])
    requires forall r :: r in head && r != q ==> r in head' && head'[r] == head[r]
    requires forall r :: r in tail && r != q ==> r in tail' && tail'[r] == tail[r]
    requires q in head' && q in tail' && Chain(next', prev', head'[q], tail'[q], s)
    ensures Chains(next', prev', head', tail', items[q := s])
  {
    var items' := items[q := s];
    forall r | r in items' ensures ChainOf(next', prev', head', tail', items', r) {
      if r != q {
        assert ChainOf(next, prev, head, tail, items, r) && HomeOf(on, items, r) && HomeOf(on, items, q);
        forall x | x in items[r] ensures x in next && x in prev && x !in items[q] && x != t {
          var i :| 0 <= i < |items[r]| && items[r][i] == x;
          assert LinksAt(next, prev, items[r], i);
        }
        ChainFrame(next, prev, next', prev', head[r], tail[r], items[r]);
      }
    }
  }

  lemma HomesAdd(on: map<Ptr, Qid>, items: Lists, q: Qid, t: Ptr, s: seq<Ptr>)
    requires Homes(on, items) && q in items && t !in on
    requires forall x :: x in s <==> x in items[q] || x == t
    ensures Homes(on[t := q], items[q := s])
  {
    assert HomeOf(on, items, q);
    var on', items' := on[t := q], items[q := s];
    forall r | r in items' ensures HomeOf(on', items', r) {
      if r != q { assert HomeOf(on, items, r); }
    }
  }

  lemma HomesRemove(on: map<Ptr, Qid>, items: Lists, q: Qid, t: Ptr, s: seq<Ptr>)
    requires Homes(on, items) && q in items && t in items[q]
    requires forall x :: x in s <==> x in items[q] && x != t
    ensures t in on && Homes(on - {t}, items[q := s])
  {
    assert HomeOf(on, items, q);
    var on', items' := on - {t}, items[q := s];
    forall r | r in items' ensures HomeOf(on', items', r) {
      if r != q { assert HomeOf(on, items, r); }
    }
  }

  /** Every thread has both links and a wake tick, and only threads are on queues. */
  ghost predicate FieldsOf(wakeTick: map<Ptr, nat>, next: map<Ptr, Ptr>, prev: map<Ptr, Ptr>,
                           on: map<Ptr, Qid>, x: Ptr) {
    && (x in next <==> x in wakeTick) && (x in prev <==> x in wakeTick) && (x in on ==> x in wakeTick)
  }

  /** The memory behind the queues: every thread's links and wake tick, and each queue's two end pointers. */
  datatype Memory = Memory(
    wakeTick: map<Ptr, nat>, next: map<Ptr, Ptr>, prev: map<Ptr, Ptr>, head: map<Qid, Ptr>, tail: map<Qid, Ptr>)

  /** Every queue is well linked, no thread is on two, and null is no thread. */
  ghost predicate WellLinked(m: Memory, items: Lists, on: map<Ptr, Qid>) {
    && Chains(m.next, m.prev, m.head, m.tail, items) && Homes(on, items)
    && (forall x :: FieldsOf(m.wakeTick, m.next, m.prev, on, x)) && NULL !in m.wakeTick
  }

  /** The end pointers of a queue and the links of its first thread. */
  lemma QueueEnds(m: Memory, items: Lists, on: map<Ptr, Qid>, q: Qid)
    requires WellLinked(m, items, on) && q in items
    ensures q in m.head && q in m.tail
    ensures m.head[q] == Nth(items[q], 0) && m.tail[q] == Nth(items[q], |items[q]| - 1)
    ensures items[q] != [] ==>
              && m.head[q] in m.wakeTick && m.head[q] in on && m.head[q] in m.next && m.tail[q] in m.next
              && m.head[q] != NULL && m.tail[q] != NULL && m.next[m.head[q]] == Nth(items[q], 1)
    ensures |items[q]| > 1 ==> items[q][1] != NULL && items[q][1] in m.prev
  {
    assert ChainOf(m.next, m.prev, m.head, m.tail, items, q) && HomeOf(on, items, q);
    var s := items[q];
    if s != [] {
      assert s[0] in s && s[|s| - 1] in s && LinksAt(m.next, m.prev, s, 0) && LinksAt(m.next, m.prev, s, |s| - 1);
      assert FieldsOf(m.wakeTick, m.next, m.prev, on, s[0]);
      assert |s| > 1 ==> s[1] in s && LinksAt(m.next, m.prev, s, 1);
    }
  }

  /** Links written over links of threads, and a thread put on or taken off a queue, leave the fields whole. */
  lemma SameFields(m: Memory, on: map<Ptr, Qid>, m': Memory, on': map<Ptr, Qid>)
    requires forall x :: FieldsOf(m.wakeTick, m.next, m.prev, on, x)
    requires m'.wakeTick == m.wakeTick
    requires forall x :: x in m'.next <==> x in m.next
    requires forall x :: x in m'.prev <==> x in m.prev
    requires forall x :: x in on' ==> x in on || x in m.wakeTick
    ensures forall x :: FieldsOf(m'.wakeTick, m'.next, m'.prev, on', x)
  {
    forall x ensures FieldsOf(m'.wakeTick, m'.next, m'.prev, on', x) {
      assert FieldsOf(m.wakeTick, m.next, m.prev, on, x);
    }
  }

  /** What `queue_push` writes. */
  function Pushed(m: Memory, q: Qid, t: Ptr): Memory
    requires q in m.head && q in m.tail
  {
    m.(next := if m.tail[q] != NULL then m.next[t := NULL][m.tail[q] := t] else m.next[t := NULL],
       prev := m.prev[t := m.tail[q]],
       head := if m.tail[q] != NULL then m.head else m.head[q := t],
       tail := m.tail[q := t])
  }

  lemma PushKeepsLinks(m: Memory, items: Lists, on: map<Ptr, Qid>, q: Qid, t: Ptr)
    requires WellLinked(m, items, on) && q in items && t in m.wakeTick && t !in on
    ensures q in m.head && q in m.tail
    ensures WellLinked(Pushed(m, q, t), items[q := items[q] + [t]], on[t := q])
  {
    QueueEnds(m, items, on, q);
    assert ChainOf(m.next, m.prev, m.head, m.tail, items, q) && HomeOf(on, items, q);
    var s := items[q];
    var m' := Pushed(m, q, t);
    assert s != [] ==> m.tail[q] in s;
    ChainAppend(m.next, m.prev, m.head[q], m.tail[q], s, t, m'.next, m'.prev);
    OtherChains(m.next, m.prev, m.head, m.tail, items, on, q, t, m'.next, m'.prev, m'.head, m'.tail, s + [t]);
    HomesAdd(on, items, q, t, s + [t]);
    assert FieldsOf(m.wakeTick, m.next, m.prev, on, t);
    SameFields(m, on, m', on[t := q]);
  }

  /** What `queue_pop` writes when the queue is not empty. */
  function Popped(m: Memory, q: Qid): Memory
    requires q in m.head && q in m.tail && m.head[q] in m.next
  {
    var t := m.head[q];
    var second := m.next[t];
    m.(next := m.next[t := NULL],
       prev := (if second != NULL then m.prev[second := NULL] else m.prev)[t := NULL],
       head := m.head[q := second],
       tail := if second != NULL then m.tail else m.tail[q := NULL])
  }

  lemma PopKeepsLinks(m: Memory, items: Lists, on: map<Ptr, Qid>, q: Qid)
    requires WellLinked(m, items, on) && q in items && items[q] != []
    ensures q in m.head && q in m.tail && m.head[q] in m.next
    ensures WellLinked(Popped(m, q), items[q := items[q][1..]], on - {items[q][0]})
  {
    QueueEnds(m, items, on, q);
    assert ChainOf(m.next, m.prev, m.head, m.tail, items, q) && HomeOf(on, items, q);
    var s := items[q];
    var m' := Popped(m, q);
    assert s[0] in s && (|s| > 1 ==> s[1] in s);
    ChainTail(m.next, m.prev, m.head[q], m.tail[q], s, m'.next, m'.prev);
    OtherChains(m.next, m.prev, m.head, m.tail, items, on, q, s[0], m'.next, m'.prev, m'.head, m'.tail, s[1..]);
    NoDupTail(s);
    HomesRemove(on, items, q, s[0], s[1..]);
    assert FieldsOf(m.wakeTick, m.next, m.prev, on, s[0]);
    SameFields(m, on, m', on - {s[0]});
  }

  /** What `sleep_insert` writes when it links `t` between `before` and `after`, either of which may be null. */
  function Inserted(m: Memory, q: Qid, t: Ptr, before: Ptr, after: Ptr): Memory {
    m.(next := if before != NULL then m.next[t := after][before := t] else m.next[t := after],
       prev := if after != NULL then m.prev[t := before][after := t] else m.prev[t := before],
       head := if before == NULL then m.head[q := t] else m.head,
       tail := if after == NULL then m.tail[q := t] else m.tail)
  }

  lemma InsertKeepsLinks(m: Memory, items: Lists, on: map<Ptr, Qid>, q: Qid, t: Ptr, k: nat)
    requires WellLinked(m, items, on) && q in items && t in m.wakeTick && t !in on && k <= |items[q]|
    ensures WellLinked(Inserted(m, q, t, Nth(items[q], k - 1), Nth(items[q], k)),
                       items[q := items[q][..k] + [t] + items[q][k..]], on[t := q])
  {
    assert ChainOf(m.next, m.prev, m.head, m.tail, items, q) && HomeOf(on, items, q);
    var s := items[q];
    var r := s[..k] + [t] + s[k..];
    var m' := Inserted(m, q, t, Nth(s, k - 1), Nth(s, k));
    assert k > 0 ==> s[k - 1] in s && LinksAt(m.next, m.prev, s, k - 1);
    assert k < |s| ==> s[k] in s && LinksAt(m.next, m.prev, s, k);
    ChainInsert(m.next, m.prev, m.head[q], m.tail[q], s, t, k, m'.next, m'.prev);
    OtherChains(m.next, m.prev, m.head, m.tail, items, on, q, t, m'.next, m'.prev, m'.head, m'.tail, r);
    InsertNoDup(s, t, k);
    HomesAdd(on, items, q, t, r);
    assert FieldsOf(m.wakeTick, m.next, m.prev, on, t);
    SameFields(m, on, m', on[t := q]);
  }

  /** The memory with one more thread object, on no queue, */
  function Added(m: Memory, t: Ptr): Memory {
    m.(wakeTick := m.wakeTick[t := 0], next := m.next[t := NULL], prev := m.prev[t := NULL])
  }

  lemma AddKeepsLinks(m: Memory, items: Lists, on: map<Ptr, Qid>, t: Ptr)
    requires WellLinked(m, items, on) && t != NULL && t !in m.wakeTick
    ensures WellLinked(Added(m, t), items, on) && t !in on
  {
    assert FieldsOf(m.wakeTick, m.next, m.prev, on, t);
    var m' := Added(m, t);
    forall x ensures FieldsOf(m'.wakeTick, m'.next, m'.prev, on, x) { assert FieldsOf(m.wakeTick, m.next, m.prev, on, x); }
    SameChains(m, items, on, m', t);
  }

  /** and with one fewer. */
  function Removed(m: Memory, t: Ptr): Memory {
    m.(wakeTick := m.wakeTick - {t}, next := m.next - {t}, prev := m.prev - {t})
  }

  lemma FreeKeepsLinks(m: Memory, items: Lists, on: map<Ptr, Qid>, t: Ptr)
    requires WellLinked(m, items, on) && t !in on
    ensures WellLinked(Removed(m, t), items, on)
  {
    var m' := Removed(m, t);
    forall x ensures FieldsOf(m'.wakeTick, m'.next, m'.prev, on, x) { assert FieldsOf(m.wakeTick, m.next, m.prev, on, x); }
    SameChains(m, items, on, m', t);
  }

  /** Links of a thread on no queue are links of no queue. */
  lemma SameChains(m: Memory, items: Lists, on: map<Ptr, Qid>, m': Memory, t: Ptr)
    requires WellLinked(m, items, on) && t !in on && m'.head == m.head && m'.tail == m.tail
    requires forall x :: x != t && x in m.next ==> x in m'.next && m'.next[x] == m.next[x]
    requires forall x :: x != t && x in m.prev ==> x in m'.prev && m'.prev[x] == m.prev[x]
    ensures Chains(m'.next, m'.prev, m'.head, m'.tail, items)
  {
    forall q | q in items ensures ChainOf(m'.next, m'.prev, m'.head, m'.tail, items, q) {
      assert ChainOf(m.next, m.prev, m.head, m.tail, items, q) && HomeOf(on, items, q);
      forall x | x in items[q] ensures x != t && x in m.next && x in m.prev {
        assert FieldsOf(m.wakeTick, m.next, m.prev, on, x);
      }
      ChainFrame(m.next, m.prev, m'.next, m'.prev, m.head[q], m.tail[q], items[q]);
    }
  }

  // ------------------------------------------------ the scheduler

  const READY: Qid := 0
  const SLEEP: Qid := 1
  const ZOMBIE: Qid := 2

  /** The scheduler's globals over the memory of thread objects and queue ends.  `items` are the sequences the
      links stand for and `on` says which queue a thread is on. */
  class Scheduler {
    var state: map<Ptr, ThreadState>
    var m: Memory
    var current: Ptr
    var idle: Ptr
    var boot: Ptr
    var ticks: nat
    var slice: nat
    var perSlice: nat
    var preempt: bool
    var resched: bool
    ghost var items: Lists
    ghost var on: map<Ptr, Qid>

    /** Every queue is well linked, no thread is on two of them, and idle is on none. */
    ghost predicate Valid()
      reads this
    {
      && READY in items && SLEEP in items && ZOMBIE in items && WellLinked(m, items, on)
      && current in m.wakeTick && idle in m.wakeTick && boot in m.wakeTick && idle !in on
      && state.Keys == m.wakeTick.Keys
    }

    /** What switching away from the current thread asks: if it can be queued, it is on no queue. */
    ghost predicate CurrentFree()
      reads this
    {
      current in state && (state[current] == Running ==> current !in on)
    }

    /** The state the protocol speaks of: the queues as sequences. */
    ghost function Abs(): Sched<Ptr, Qid>
      requires READY in items && SLEEP in items && ZOMBIE in items
      reads this
    {
      Sched(state, m.wakeTick, items[READY], items[SLEEP], items[ZOMBIE], items - {READY, SLEEP, ZOMBIE},
            current, idle, boot, ticks, slice, perSlice, preempt, resched)
    }

    /** `threading_init`, given the addresses of its two thread objects, and `wait_queue_init` of the wait queues. */
    constructor (boot: Ptr, idle: Ptr, queues: set<Qid>)
      requires boot != idle && boot != NULL && idle != NULL && queues !! {READY, SLEEP, ZOMBIE}
      ensures Valid()
      ensures Abs() == Sched(map[boot := Running, idle := New], map[boot := 0, idle := 0], [], [], [],
                             map q | q in queues :: [], boot, idle, boot, 0, 0, 1, false, false)
    {
      this.boot, this.idle, current := boot, idle, boot;
      state := map[boot := Running, idle := New];
      var nulls := map[boot := NULL, idle := NULL];
      var ends := map q | q in queues + {READY, SLEEP, ZOMBIE} :: NULL;
      m := Memory(map[boot := 0, idle := 0], nulls, nulls, ends, ends);
      items, on := map q | q in queues + {READY, SLEEP, ZOMBIE} :: [], map[];
      ticks, slice, perSlice, preempt, resched := 0, 0, 1, false, false;
    }

    /** `queue_push` and `wait_queue_push_locked` */
    method Push(q: Qid, t: Ptr)
      requires Valid() && q in items && t in m.wakeTick && t !in on && t != idle
      modifies `m, `items, `on
      ensures Valid() && m.wakeTick == old(m.wakeTick)
      ensures items == old(items)[q := old(items)[q] + [t]] && on == old(on)[t := q]
    {
      PushKeepsLinks(m, items, on, q, t);
      m := m.(next := m.next[t := NULL], prev := m.prev[t := m.tail[q]]);
      if m.tail[q] != NULL {
        m := m.(next := m.next[m.tail[q] := t]);
      } else {
        m := m.(head := m.head[q := t]);
      }
      m := m.(tail := m.tail[q := t]);
      items, on := items[q := items[q] + [t]], on[t := q];
      assert m == Pushed(old(m), q, t);
    }

    /** `queue_pop` and `wait_queue_pop_locked` */
    method Pop(q: Qid) returns (t: Ptr)
      requires Valid() && q in items
      modifies `m, `items, `on
      ensures Valid() && m.wakeTick == old(m.wakeTick)
      ensures old(items)[q] == [] ==> t == NULL && m == old(m) && items == old(items) && on == old(on)
      ensures old(items)[q] != [] ==>
                && t == old(items)[q][0] && t in m.wakeTick && t != idle && t != NULL
                && items == old(items)[q := old(items)[q][1..]] && on == old(on) - {t}
    {
      QueueEnds(m, items, on, q);
      t := m.head[q];
      if t == NULL {
        return;
      }
      PopKeepsLinks(m, items, on, q);
      m := m.(head := m.head[q := m.next[t]]);
      if m.head[q] != NULL {
        m := m.(prev := m.prev[m.head[q] := NULL]);
      } else {
        m := m.(tail := m.tail[q := NULL]);
      }
      m := m.(next := m.next[t := NULL], prev := m.prev[t := NULL]);
      items, on := items[q := items[q][1..]], on - {t};
      assert m == Popped(old(m), q);
    }

    /** The search of `sleep_insert`. */
    method FindSleepPlace(target: nat) returns (cur: Ptr, ghost k: nat)
      requires Valid()
      ensures k == SleepPos(items[SLEEP], m.wakeTick, target, 0) && cur == Nth(items[SLEEP], k)
    {
      ghost var s := items[SLEEP];
      assert ChainOf(m.next, m.prev, m.head, m.tail, items, SLEEP);
      cur := m.head[SLEEP];
      k := 0;
      while cur != NULL && !TickReached(TickOf(m.wakeTick, cur), target)
        invariant k <= |s| && cur == Nth(s, k)
        invariant SleepPos(s, m.wakeTick, target, 0) == SleepPos(s, m.wakeTick, target, k)
        decreases |s| - k
      {
        assert LinksAt(m.next, m.prev, s, k);
        cur := m.next[cur];
        k := k + 1;
      }
      assert k < |s| ==> s[k] in s;
    }

    /** The linking of `sleep_insert`: into an empty queue, in front, at the back, or before `cur`. */
    method LinkSleeper(t: Ptr, cur: Ptr, ghost k: nat)
      requires Valid() && t in m.wakeTick && t !in on && t != idle
      requires k <= |items[SLEEP]| && cur == Nth(items[SLEEP], k)
      modifies `m
      ensures m == Inserted(old(m), SLEEP, t, Nth(items[SLEEP], k - 1), Nth(items[SLEEP], k))
    {
      ghost var s := items[SLEEP];
      assert ChainOf(m.next, m.prev, m.head, m.tail, items, SLEEP) && HomeOf(on, items, SLEEP);
      assert k > 0 ==> s[k - 1] in s;
      assert k < |s| ==> s[k] in s && LinksAt(m.next, m.prev, s, k);
      if m.head[SLEEP] == NULL {
        m := m.(next := m.next[t := NULL], prev := m.prev[t := NULL],
                head := m.head[SLEEP := t], tail := m.tail[SLEEP := t]);
      } else if cur == m.head[SLEEP] {
        m := m.(next := m.next[t := cur], prev := m.prev[t := NULL][cur := t], head := m.head[SLEEP := t]);
      } else if cur == NULL {
        var last := m.tail[SLEEP];
        m := m.(prev := m.prev[t := last], next := m.next[t := NULL][last := t], tail := m.tail[SLEEP := t]);
      } else {
        var previous := m.prev[cur];
        m := m.(next := m.next[t := cur][previous := t], prev := m.prev[t := previous][cur := t]);
      }
    }

    /** `sleep_insert`, past its write of the state. */
    method SleepInsert(t: Ptr)
      requires Valid() && t in m.wakeTick && t !in on && t != idle
      modifies `m, `items, `on
      ensures Valid() && m.wakeTick == old(m.wakeTick) && on == old(on)[t := SLEEP]
      ensures var s := old(items)[SLEEP];
              var k := SleepPos(s, m.wakeTick, TickOf(m.wakeTick, t), 0);
              items == old(items)[SLEEP := s[..k] + [t] + s[k..]]
    {
      var cur, k := FindSleepPlace(TickOf(m.wakeTick, t));
      InsertKeepsLinks(m, items, on, SLEEP, t, k);
      LinkSleeper(t, cur, k);
      items, on := items[SLEEP := items[SLEEP][..k] + [t] + items[SLEEP][k..]], on[t := SLEEP];
    }
  
    /** `ready_push` */
    method ReadyPush(t: Ptr)
      requires Valid() && t in m.wakeTick && t !in on
      modifies `m, `items, `on, `state
      ensures Valid() && Abs() == old(Abs()).ReadyPush(t) && m.wakeTick == old(m.wakeTick)
      ensures items.Keys == old(items.Keys) && on == if t == idle then old(on) else old(on)[t := READY]
    {
      hide WellLinked;
      if t != idle {
        state := state[t := Ready];
        Push(READY, t);
        assert Abs().waits == old(Abs()).waits;
      }
    }

    /** `zombie_push` */
    method ZombiePush(t: Ptr)
      requires Valid() && t in m.wakeTick && t !in on
      modifies `m, `items, `on
      ensures Valid() && Abs() == old(Abs()).ZombiePush(t) && m.wakeTick == old(m.wakeTick)
    {
      hide WellLinked;
      if t != idle && t != boot {
        Push(ZOMBIE, t);
        assert Abs().waits == old(Abs()).waits;
      }
    }

    /** One turn of the loop of `wake_due_sleepers`. */
    method WakeFirstSleeper()
      requires Valid() && items[SLEEP] != []
      modifies `m, `items, `on, `state, `resched
      ensures Valid() && m.wakeTick == old(m.wakeTick)
      ensures Abs() == old(Abs().(sleep := items[SLEEP][1..])).ReadyPush(old(items)[SLEEP][0]).(resched := true)
      ensures old(CurrentFree()) ==> CurrentFree()
    {
      hide WellLinked;
      var t := Pop(SLEEP);
      assert Abs().waits == old(Abs()).waits;
      ReadyPush(t);
      resched := true;
    }

    /** `wake_due_sleepers` */
    method WakeDueSleepers()
      requires Valid()
      modifies `m, `items, `on, `state, `resched
      ensures Valid() && Abs() == old(Abs()).WakeDueSleepers()
      ensures old(CurrentFree()) ==> CurrentFree()
    {
      hide WellLinked;
      QueueEnds(m, items, on, SLEEP);
      while m.head[SLEEP] != NULL && TickReached(ticks, TickOf(m.wakeTick, m.head[SLEEP]))
        invariant Valid() && SLEEP in m.head && m.head[SLEEP] == Nth(items[SLEEP], 0)
        invariant items[SLEEP] != [] ==> m.head[SLEEP] != NULL
        invariant Abs().WakeDueSleepers() == old(Abs()).WakeDueSleepers()
        invariant old(CurrentFree()) ==> CurrentFree()
        decreases |items[SLEEP]|
      {
        WakeFirstSleeper();
        QueueEnds(m, items, on, SLEEP);
      }
    }

    method Dispatch(t: Ptr)
      requires Valid() && t in m.wakeTick
      modifies `state, `current, `slice, `resched
      ensures Valid() && Abs() == old(Abs()).Dispatch(t)
    {
      hide WellLinked;
      state := state[t := Running];
      current := t;
      slice := 0;
      resched := false;
    }

    method DispatchReady()
      requires Valid() && items[READY] != []
      modifies `m, `items, `on, `state, `current, `slice, `resched
      ensures Valid() && Abs() == old(Abs()).(ready := old(items)[READY][1..]).Dispatch(old(items)[READY][0])
    {
      hide WellLinked;
      var t := Pop(READY);
      assert Abs().waits == old(Abs()).waits;
      Dispatch(t);
    }

    /** `thread_schedule_from_interrupt`; a RUNNING current thread is on no queue. */
    method Schedule()
      requires Valid() && CurrentFree()
      modifies `m, `items, `on, `state, `current, `slice, `resched
      ensures Valid() && Abs() == old(Abs()).Schedule()
    {
      hide WellLinked;
      QueueEnds(m, items, on, READY);
      if m.head[READY] == NULL {
        if current == idle || state[current] == Running {
          slice := 0;
          resched := false;
        } else {
          Dispatch(idle);
        }
      } else {
        if current != idle && state[current] == Running {
          ReadyPush(current);
        }
        DispatchReady();
      }
    }

    method CountSlice()
      requires Valid()
      modifies `slice, `resched
      ensures Valid() && Abs() == old(Abs()).CountSlice()
    {
      hide WellLinked;
      QueueEnds(m, items, on, READY);
      if preempt {
        if m.head[READY] == NULL {
          slice := 0;
        } else {
          slice := slice + 1;
          if slice >= perSlice {
            resched := true;
          }
        }
      }
    }

    /** `thread_on_timer_tick` */
    method TimerTick()
      requires Valid()
      modifies `m, `items, `on, `state, `resched, `ticks, `slice
      ensures Valid() && Abs() == old(Abs()).TimerTick()
      ensures old(CurrentFree()) ==> CurrentFree()
    {
      hide WellLinked, Sched.WakeDueSleepers, Sched.CountSlice;
      ticks := (ticks + 1) % WRAP;
      assert Abs() == old(Abs()).(ticks := (old(ticks) + 1) % WRAP);
      WakeDueSleepers();
      CountSlice();
    }

    /** The timer interrupt: the tick and, if it asked for one, the switch. */
    method TimerIrq()
      requires Valid() && CurrentFree()
      modifies `m, `items, `on, `state, `current, `resched, `ticks, `slice
      ensures Valid() && Abs() == old(Abs()).TimerIrq()
    {
      hide WellLinked, Sched.Schedule, Sched.TimerTick;
      TimerTick();
      if resched { Schedule(); }
    }

    /** `wait_queue_push_locked` of the current thread. */
    method WaitPush(q: Qid)
      requires Valid() && q in items && q !in {READY, SLEEP, ZOMBIE} && current !in on && current != idle
      modifies `m, `items, `on
      ensures Valid() && Abs() == old(Abs()).WaitPush(q)
    {
      hide WellLinked;
      Push(q, current);
      assert Abs().waits == old(Abs()).waits[q := old(Abs()).Waiters(q) + [current]];
    }

    /** `thread_block_current` with its two panics. */
    method Block() returns (panicked: bool)
      requires Valid()
      modifies `state, `resched
      ensures panicked == (current == idle || old(state)[current] != Running)
      ensures Valid() && Abs() == if panicked then old(Abs()) else old(Abs()).Block()
    {
      hide WellLinked;
      if current == idle || state[current] != Running { return true; }
      state := state[current := Blocked];
      resched := true;
      return false;
    }

    /** `wait_queue_pop_locked`: the first waiter, on no queue any more, or null. */
    method WaitPop(q: Qid) returns (t: Ptr)
      requires Valid() && q in items && q !in {READY, SLEEP, ZOMBIE}
      modifies `m, `items, `on
      ensures Valid() && Abs() == old(Abs()).WaitPop(q)
      ensures t == Nth(old(Abs()).Waiters(q), 0) && t !in on
    {
      t := Pop(q);
      assert Abs().waits == if old(items)[q] == [] then old(Abs()).waits
                            else old(Abs()).waits[q := old(Abs()).Waiters(q)[1..]];
      if t == NULL { assert FieldsOf(m.wakeTick, m.next, m.prev, on, t); }
    }

    /** `thread_wake` of a thread taken off its wait queue. */
    method Wake(t: Ptr)
      requires Valid() && (t != NULL ==> t in m.wakeTick && t in state && (state[t] == Blocked ==> t !in on))
      modifies `m, `items, `on, `state, `resched
      ensures Valid() && Abs() == if t == NULL then old(Abs()) else old(Abs()).Wake(t)
    {
      hide WellLinked;
      if t != NULL && state[t] == Blocked {
        ReadyPush(t);
        resched := true;
      }
    }

    method InsertSleeper(t: Ptr)
      requires Valid() && t in m.wakeTick && t !in on && t != idle
      modifies `m, `items, `on, `state
      ensures Valid()
      ensures Abs() == old(Abs()).(st := old(state)[t := Sleeping], sleep := old(Abs()).SleepInsert(t))
    {
      hide WellLinked;
      state := state[t := Sleeping];
      SleepInsert(t);
      assert Abs().waits == old(Abs()).waits;
    }

    /** The section of `thread_sleep_ticks` for a positive count. */
    method SleepTicks(n: nat)
      requires Valid() && n > 0 && current !in on
      modifies `m, `items, `on, `state, `resched
      ensures Valid() && Abs() == old(Abs()).SleepTicks(n)
    {
      hide WellLinked;
      if current == idle {
        return;
      }
      SetWakeTick((ticks + n) % WRAP);
      InsertSleeper(current);
      resched := true;
    }

    method SetWakeTick(tick: nat)
      requires Valid()
      modifies `m
      ensures Valid() && Abs() == old(Abs()).(wake := old(m.wakeTick)[current := tick])
      ensures m.wakeTick == old(m.wakeTick)[current := tick]
    {
      m := m.(wakeTick := m.wakeTick[current := tick]);
      forall x ensures FieldsOf(m.wakeTick, m.next, m.prev, on, x) {
        assert FieldsOf(old(m).wakeTick, m.next, m.prev, on, x);
      }
    }

    /** The section of `thread_exit` before its yield. */
    method ExitCurrent()
      requires Valid() && current !in on
      modifies `m, `items, `on, `state, `resched
      ensures Valid() && Abs() == old(Abs()).ExitCurrent()
    {
      hide WellLinked;
      state := state[current := Zombie];
      ZombiePush(current);
      resched := true;
    }

    /** A thread object of its own: `thread_create_internal` before it queues the thread. */
    method NewThread(t: Ptr)
      requires Valid() && t != NULL && t !in m.wakeTick
      modifies `m, `state
      ensures Valid() && Abs() == old(Abs()).NewThread(t) && t in m.wakeTick && t !in on
    {
      AddKeepsLinks(m, items, on, t);
      state := state[t := New];
      m := m.(wakeTick := m.wakeTick[t := 0], next := m.next[t := NULL], prev := m.prev[t := NULL]);
    }

    /** `thread_create_internal` */
    method Create(t: Ptr, enqueue: bool)
      requires Valid() && t != NULL && t !in m.wakeTick
      modifies `m, `items, `on, `state
      ensures Valid()
      ensures Abs() == if enqueue then old(Abs()).NewThread(t).ReadyPush(t) else old(Abs()).NewThread(t)
    {
      hide WellLinked;
      NewThread(t);
      if enqueue { ReadyPush(t); }
    }

    /** `thread_start` */
    method Start(t: Ptr) returns (panicked: bool)
      requires Valid() && t in m.wakeTick && (state[t] == New ==> t !in on)
      modifies `m, `items, `on, `state
      ensures panicked == (old(state)[t] != New)
      ensures Valid() && Abs() == if panicked then old(Abs()) else old(Abs()).ReadyPush(t)
    {
      hide WellLinked;
      if state[t] != New { return true; }
      ReadyPush(t);
      return false;
    }

    /** `zombie_pop` */
    method ZombiePop() returns (t: Ptr)
      requires Valid()
      modifies `m, `items, `on
      ensures Valid() && Abs() == old(Abs()).ZombiePop()
      ensures t == Nth(old(Abs()).zombie, 0)
    {
      hide WellLinked;
      t := Pop(ZOMBIE);
      assert Abs().waits == old(Abs()).waits;
    }

    /** The end of a turn of `thread_reap_zombies`: a thread on no queue is freed. */
    method FreeThread(t: Ptr)
      requires Valid() && t in m.wakeTick && t !in on && t !in {current, idle, boot}
      modifies `m, `state
      ensures Valid() && Abs() == old(Abs()).FreeThread(t)
    {
      FreeKeepsLinks(m, items, on, t);
      state := state - {t};
      m := m.(wakeTick := m.wakeTick - {t}, next := m.next - {t}, prev := m.prev - {t});
    }

    /** `thread_preemption_init` */
    method StartPreemption(n: nat)
      requires Valid()
      modifies `perSlice, `slice, `resched, `preempt
      ensures Valid() && Abs() == old(Abs()).StartPreemption(n)
    {
      hide WellLinked;
      perSlice := if n == 0 then 1 else n;
      slice := 0;
      resched := false;
      preempt := true;
    }
  }
}
