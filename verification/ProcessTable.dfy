/** The process table as the kernel keeps it: process objects linked from a head to a tail. */
module ProcessTable {
  import opened Base
  import opened Processes

  type Ptr = nat
  const NULL: Ptr := 0

  datatype Pcb = Pcb(pid: nat, parent: nat, exited: bool, next: Ptr, prev: Ptr)

  datatype Memory = Memory(pcb: map<Ptr, Pcb>, head: Ptr, tail: Ptr, count: nat, nextPid: nat)

  datatype Panic = DestroyRunning

  function At(ps: seq<Ptr>, i: int): Ptr {
    if 0 <= i < |ps| then ps[i] else NULL
  }

  ghost predicate LinkOk(m: Memory, ps: seq<Ptr>, i: nat)
    requires i < |ps|
  {
    ps[i] != NULL && ps[i] in m.pcb && m.pcb[ps[i]].next == At(ps, i + 1) && m.pcb[ps[i]].prev == At(ps, i - 1)
  }

  /** The objects are linked in this order, each once, between the recorded ends. */
  ghost predicate Linked(m: Memory, ps: seq<Ptr>) {
    && m.head == At(ps, 0) && m.tail == At(ps, |ps| - 1) && m.count == |ps|
    && (forall i :: 0 <= i < |ps| ==> LinkOk(m, ps, i))
    && (forall i, j :: 0 <= i < j < |ps| ==> ps[i] != ps[j])
  }

  ghost function ProcOf(m: Memory, p: Ptr): Proc {
    if p in m.pcb then Proc(m.pcb[p].pid, m.pcb[p].parent, m.pcb[p].exited) else Proc(0, 0, false)
  }

  /** The table as the list of its processes. */
  ghost function TableOf(m: Memory, ps: seq<Ptr>): (t: seq<Proc>)
    ensures |t| == |ps| && forall i :: 0 <= i < |ps| ==> t[i] == ProcOf(m, ps[i])
  {
    if ps == [] then [] else [ProcOf(m, ps[0])] + TableOf(m, ps[1..])
  }

  // ------------------------------------------------ insertion and removal

  function Inserted(m: Memory, p: Ptr): Memory
    requires p in m.pcb
  {
    var a := m.pcb[p := m.pcb[p].(next := NULL, prev := m.tail)];
    var b := if m.tail != NULL && m.tail in a then a[m.tail := a[m.tail].(next := p)] else a;
    m.(pcb := b, head := if m.tail != NULL then m.head else p, tail := p, count := m.count + 1)
  }

  lemma InsertLinked(m: Memory, ps: seq<Ptr>, p: Ptr)
    requires Linked(m, ps) && p in m.pcb && p != NULL && p !in ps
    ensures Linked(Inserted(m, p), ps + [p])
    ensures TableOf(Inserted(m, p), ps + [p]) == TableOf(m, ps) + [ProcOf(m, p)]
  {
    var m', r := Inserted(m, p), ps + [p];
    if ps != [] { assert LinkOk(m, ps, |ps| - 1); }
    forall i | 0 <= i < |r| ensures LinkOk(m', r, i) && ProcOf(m', r[i]) == ProcOf(m, r[i]) {
      if i < |ps| { assert LinkOk(m, ps, i); }
    }
  }

  function Removed(m: Memory, p: Ptr): Memory
    requires p in m.pcb
  {
    var prev, next := m.pcb[p].prev, m.pcb[p].next;
    var a := if prev != NULL && prev in m.pcb then m.pcb[prev := m.pcb[prev].(next := next)] else m.pcb;
    var b := if next != NULL && next in a then a[next := a[next].(prev := prev)] else a;
    m.(pcb := if p in b then b[p := b[p].(next := NULL, prev := NULL)] else b,
       head := if prev != NULL then m.head else next,
       tail := if next != NULL then m.tail else prev,
       count := if m.count > 0 then m.count - 1 else 0)
  }

  lemma RemoveSame(m: Memory, ps: seq<Ptr>, k: nat)
    requires Linked(m, ps) && k < |ps|
    ensures ps[k] in m.pcb && forall i :: 0 <= i < |ps| ==> ProcOf(Removed(m, ps[k]), ps[i]) == ProcOf(m, ps[i])
  {
    assert LinkOk(m, ps, k);
  }

  lemma RemoveLinked(m: Memory, ps: seq<Ptr>, k: nat)
    requires Linked(m, ps) && k < |ps|
    ensures ps[k] in m.pcb && Linked(Removed(m, ps[k]), ps[..k] + ps[k + 1..])
    ensures forall i :: 0 <= i < |ps| ==> ProcOf(Removed(m, ps[k]), ps[i]) == ProcOf(m, ps[i])
  {
    hide ProcOf;
    assert LinkOk(m, ps, k);
    if k > 0 { assert LinkOk(m, ps, k - 1); }
    if k + 1 < |ps| { assert LinkOk(m, ps, k + 1); }
    RemoveSame(m, ps, k);
    var m', r := Removed(m, ps[k]), ps[..k] + ps[k + 1..];
    forall i | 0 <= i < |r| ensures LinkOk(m', r, i) {
      assert LinkOk(m, ps, if i < k then i else i + 1);
    }
  }

  // ------------------------------------------------ adopting out the children

  function OrphanAt(m: Memory, p: Ptr, pid: nat): Memory
    requires p in m.pcb
  {
    if m.pcb[p].parent == pid then m.(pcb := m.pcb[p := m.pcb[p].(parent := 0)]) else m
  }

  /** The links are the same, and the first k processes of the list have been orphaned if they were children. */
  ghost predicate OrphanedTo(m: Memory, m': Memory, ps: seq<Ptr>, pid: nat, k: nat) {
    && Linked(m', ps) && m'.head == m.head && m'.nextPid == m.nextPid
    && (forall i :: 0 <= i < |ps| ==> ProcOf(m', ps[i]) == if i < k then Orphaned(ProcOf(m, ps[i]), pid) else ProcOf(m, ps[i]))
  }

  lemma OrphanNext(m: Memory, m': Memory, ps: seq<Ptr>, pid: nat, k: nat)
    requires OrphanedTo(m, m', ps, pid, k) && k < |ps|
    ensures ps[k] in m'.pcb && OrphanedTo(m, OrphanAt(m', ps[k], pid), ps, pid, k + 1)
  {
    assert LinkOk(m', ps, k);
    var m2 := OrphanAt(m', ps[k], pid);
    forall i | 0 <= i < |ps| ensures LinkOk(m2, ps, i) { assert LinkOk(m', ps, i); }
    forall i | 0 <= i < |ps|
      ensures ProcOf(m2, ps[i]) == if i < k + 1 then Orphaned(ProcOf(m, ps[i]), pid) else ProcOf(m, ps[i])
    {
      assert LinkOk(m', ps, i);
    }
  }

  lemma DestroyedTable(m: Memory, m1: Memory, ps: seq<Ptr>, k: nat)
    requires k < |ps| && OrphanedTo(m, m1, ps, ProcOf(m, ps[k]).pid, |ps|)
    ensures ps[k] in m1.pcb && TableOf(Removed(m1, ps[k]), ps[..k] + ps[k + 1..]) == Destroyed(TableOf(m, ps), k)
  {
    RemoveLinked(m1, ps, k);
    var m2, r := Removed(m1, ps[k]), ps[..k] + ps[k + 1..];
    var t, d := TableOf(m, ps), Destroyed(TableOf(m, ps), k);
    var o := OrphanAll(t, t[k].pid);
    forall i | 0 <= i < |r| ensures TableOf(m2, r)[i] == d[i] {
      var j := if i < k then i else i + 1;
      assert r[i] == ps[j] && d[i] == o[j];
    }
  }

  class Table {
    var m: Memory
    ghost var ps: seq<Ptr>

    ghost predicate Valid()
      reads this
    {
      Linked(m, ps)
    }

    ghost function Abs(): seq<Proc>
      reads this
    {
      TableOf(m, ps)
    }

    /** `process_init_system` */
    constructor ()
      ensures Valid() && Abs() == [] && m.nextPid == 1
    {
      m := Memory(map[], NULL, NULL, 0, 1);
      ps := [];
    }

    /** `process_find` */
    method FindProcess(pid: nat) returns (cur: Ptr)
      requires Valid()
      ensures cur == At(ps, Find(Abs(), pid))
    {
      NotNull(m, ps);
      cur := m.head;
      ghost var i := 0;
      ghost var t := Abs();
      assert t[0..] == t;
      while cur != NULL
        invariant i <= |ps| && cur == At(ps, i) && Find(t, pid) == i + Find(t[i..], pid)
        decreases |ps| - i
      {
        assert LinkOk(m, ps, i);
        assert t[i] == ProcOf(m, ps[i]) && t[i..][1..] == t[i + 1..];
        if m.pcb[cur].pid == pid { return; }
        cur := m.pcb[cur].next;
        i := i + 1;
      }
    }

    /** `process_create_empty` and `process_set_parent`: a new object with the next id joins the end of the list. */
    method Create(p: Ptr, parent: nat)
      requires Valid() && p != NULL && p !in ps
      modifies this
      ensures Valid() && ps == old(ps) + [p] && m.nextPid == old(m.nextPid) + 1
      ensures Abs() == old(Abs()) + [Proc(old(m.nextPid), parent, false)]
    {
      ghost var m0 := m;
      m := m.(pcb := m.pcb[p := Pcb(m.nextPid, 0, false, NULL, NULL)], nextPid := m.nextPid + 1);
      NewObject(m0, m, ps, p);
      Insert(p);
      SetParent(p, parent, |ps| - 1);
    }

    /** `process_table_insert` */
    method Insert(p: Ptr)
      requires Valid() && p in m.pcb && p != NULL && p !in ps
      modifies this
      ensures Valid() && ps == old(ps) + [p] && m.nextPid == old(m.nextPid) && p in m.pcb
      ensures Abs() == old(Abs()) + [ProcOf(old(m), p)]
    {
      InsertLinked(m, ps, p);
      if ps != [] { assert LinkOk(m, ps, |ps| - 1); }
      m := m.(pcb := m.pcb[p := m.pcb[p].(next := NULL, prev := m.tail)]);
      if m.tail != NULL {
        m := m.(pcb := m.pcb[m.tail := m.pcb[m.tail].(next := p)]);
      } else {
        m := m.(head := p);
      }
      m := m.(tail := p, count := m.count + 1);
      ps := ps + [p];
      assert m == Inserted(old(m), p);
    }

    /** `process_set_parent` */
    method SetParent(p: Ptr, parent: nat, ghost k: nat)
      requires Valid() && k < |ps| && p == ps[k]
      modifies this`m
      ensures Valid() && m.nextPid == old(m.nextPid)
      ensures Abs() == old(Abs())[k := old(Abs())[k].(parent := parent)]
    {
      assert LinkOk(m, ps, k);
      m := m.(pcb := m.pcb[p := m.pcb[p].(parent := parent)]);
      forall i | 0 <= i < |ps| ensures LinkOk(m, ps, i) { assert LinkOk(old(m), ps, i); }
    }

    /** `process_destroy`, as far as the table goes: the children lose their parent, the process leaves the list. */
    method Destroy(p: Ptr, ghost k: nat) returns (panic: Option<Panic>)
      requires Valid() && k < |ps| && p == ps[k]
      modifies this
      ensures Valid() && panic == (if old(Abs())[k].exited then None else Some(DestroyRunning))
      ensures Abs() == (if panic.None? then Destroyed(old(Abs()), k) else old(Abs())) && m.nextPid == old(m.nextPid)
    {
      assert LinkOk(m, ps, k);
      if !m.pcb[p].exited { return Some(DestroyRunning); }
      OrphanChildren(m.pcb[p].pid);
      ghost var m1 := m;
      DestroyedTable(old(m), m1, ps, k);
      RemoveLinked(m1, ps, k);
      Remove(p, k);
      ps := ps[..k] + ps[k + 1..];
      return None;
    }

    method OrphanChildren(pid: nat)
      requires Valid()
      modifies this`m
      ensures OrphanedTo(old(m), m, ps, pid, |ps|)
    {
      NotNull(m, ps);
      var cur := m.head;
      ghost var k := 0;
      while cur != NULL
        invariant k <= |ps| && cur == At(ps, k) && OrphanedTo(old(m), m, ps, pid, k)
        decreases |ps| - k
      {
        OrphanNext(old(m), m, ps, pid, k);
        assert LinkOk(m, ps, k);
        if m.pcb[cur].parent == pid { m := m.(pcb := m.pcb[cur := m.pcb[cur].(parent := 0)]); }
        assert LinkOk(m, ps, k);
        cur := m.pcb[cur].next;
        k := k + 1;
      }
    }

    /** `process_table_remove` */
    method Remove(p: Ptr, ghost k: nat)
      requires Valid() && k < |ps| && p == ps[k]
      modifies this`m
      ensures p in old(m).pcb && m == Removed(old(m), p)
    {
      assert LinkOk(m, ps, k);
      if k > 0 { assert LinkOk(m, ps, k - 1); }
      if k + 1 < |ps| { assert LinkOk(m, ps, k + 1); }
      var prev, next := m.pcb[p].prev, m.pcb[p].next;
      if prev != NULL {
        m := m.(pcb := m.pcb[prev := m.pcb[prev].(next := next)]);
      } else {
        m := m.(head := next);
      }
      if next != NULL {
        m := m.(pcb := m.pcb[next := m.pcb[next].(prev := prev)]);
      } else {
        m := m.(tail := prev);
      }
      m := m.(pcb := m.pcb[p := m.pcb[p].(next := NULL, prev := NULL)]);
      if m.count > 0 { m := m.(count := m.count - 1); }
    }
  }

  lemma NotNull(m: Memory, ps: seq<Ptr>)
    requires Linked(m, ps)
    ensures forall i :: 0 <= i < |ps| ==> ps[i] != NULL
  {
    forall i | 0 <= i < |ps| ensures ps[i] != NULL { assert LinkOk(m, ps, i); }
  }

  lemma NewObject(m: Memory, m': Memory, ps: seq<Ptr>, p: Ptr)
    requires Linked(m, ps) && p !in ps && m'.head == m.head && m'.tail == m.tail && m'.count == m.count
    requires forall q :: q != p && q in m.pcb ==> q in m'.pcb && m'.pcb[q] == m.pcb[q]
    ensures Linked(m', ps) && TableOf(m', ps) == TableOf(m, ps)
  {
    forall i | 0 <= i < |ps| ensures LinkOk(m', ps, i) && ProcOf(m', ps[i]) == ProcOf(m, ps[i]) { assert LinkOk(m, ps, i); }
  }
}
