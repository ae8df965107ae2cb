/** The life of processes: creation, exit, waiting and collection, and the shape their parent links keep. */
module Processes {
  import opened Base

  datatype Proc = Proc(pid: nat, parent: nat, exited: bool)

  /** The process table in list order, who waits for whom inside SYS_WAITPID, and the next process id. */
  datatype System = System(table: seq<Proc>, waits: map<nat, nat>, next: nat)

  // ------------------------------------------------ the table

  /** `process_find`: the first entry with the id, or |t|. */
  function Find(t: seq<Proc>, pid: nat): (i: nat)
    ensures i <= |t| && (i < |t| ==> t[i].pid == pid) && forall j :: 0 <= j < i ==> t[j].pid != pid
  {
    if t == [] || t[0].pid == pid then 0 else Find(t[1..], pid) + 1
  }

  predicate InTable(t: seq<Proc>, pid: nat) {
    Find(t, pid) < |t|
  }

  /** The children of a destroyed parent become orphans. */
  function Orphaned(p: Proc, pid: nat): Proc {
    if p.parent == pid then p.(parent := 0) else p
  }

  function OrphanAll(t: seq<Proc>, pid: nat): (r: seq<Proc>)
    ensures |r| == |t| && forall i :: 0 <= i < |t| ==> r[i] == Orphaned(t[i], pid)
  {
    if t == [] then [] else [Orphaned(t[0], pid)] + OrphanAll(t[1..], pid)
  }

  /** What `process_destroy` leaves of the table. */
  function Destroyed(t: seq<Proc>, i: nat): seq<Proc>
    requires i < |t|
  {
    var r := OrphanAll(t, t[i].pid);
    r[..i] + r[i + 1..]
  }

  // ------------------------------------------------ steps

  datatype Step =
    | Create(parent: nat)
    | Exit(pid: nat)
    | WaitPid(pid: nat, child: nat)
    | Collect(pid: nat, delivered: bool)
    | KernelCollect(pid: nat)

  predicate Live(s: System, pid: nat) {
    InTable(s.table, pid) && !s.table[Find(s.table, pid)].exited
  }

  predicate WaitedFor(s: System, pid: nat) {
    exists a | a in s.waits :: s.waits[a] == pid
  }

  /** A step whose guard fails changes nothing.  A process inside SYS_WAITPID does nothing else until its child has
      exited; then its wait is over, and it destroys the child unless the status could not be delivered.  The kernel
      collects only processes that no process waits for. */
  function Next(s: System, l: Step): System {
    match l
    case Create(parent) =>
      if parent == 0 || (Live(s, parent) && parent !in s.waits)
      then s.(table := s.table + [Proc(s.next, parent, false)], next := s.next + 1) else s
    case Exit(pid) =>
      if Live(s, pid) && pid !in s.waits
      then var i := Find(s.table, pid); s.(table := s.table[i := s.table[i].(exited := true)]) else s
    case WaitPid(pid, child) =>
      if Live(s, pid) && pid !in s.waits && pid != child && InTable(s.table, child)
         && s.table[Find(s.table, child)].parent == pid
      then s.(waits := s.waits[pid := child]) else s
    case Collect(pid, delivered) =>
      if pid in s.waits && InTable(s.table, s.waits[pid]) && s.table[Find(s.table, s.waits[pid])].exited
      then s.(table := if delivered then Destroyed(s.table, Find(s.table, s.waits[pid])) else s.table,
              waits := s.waits - {pid})
      else s
    case KernelCollect(pid) =>
      if InTable(s.table, pid) && s.table[Find(s.table, pid)].exited && !WaitedFor(s, pid)
      then s.(table := Destroyed(s.table, Find(s.table, pid))) else s
  }

  function RunAll(s: System, steps: seq<Step>): System
    decreases |steps|
  {
    if steps == [] then s else RunAll(Next(s, steps[0]), steps[1..])
  }

  const INIT: System := System([], map[], 1)

  // ------------------------------------------------ the invariant

  /** The table is in order of process id, as it was filled. */
  ghost predicate Ordered(t: seq<Proc>, next: nat) {
    && (forall i, j :: 0 <= i < j < |t| ==> t[i].pid < t[j].pid)
    && (forall i :: 0 <= i < |t| ==> 0 < t[i].pid < next)
  }

  /** A parent is gone for good, or still in the table and older. */
  ghost predicate ParentOk(t: seq<Proc>, p: Proc) {
    p.parent == 0 || (p.parent < p.pid && InTable(t, p.parent))
  }

  /** A waiting process is alive and waits for a child of its own. */
  ghost predicate WaitOk(s: System, a: nat)
    requires a in s.waits
  {
    Live(s, a) && InTable(s.table, s.waits[a]) && s.table[Find(s.table, s.waits[a])].parent == a
  }

  ghost predicate Inv(s: System) {
    && s.next > 0 && Ordered(s.table, s.next)
    && (forall p :: p in s.table ==> ParentOk(s.table, p))
    && (forall a :: a in s.waits ==> WaitOk(s, a))
  }

  lemma InitInv()
    ensures Inv(INIT)
  {
  }

  /** Where an id stands in an ordered table. */
  lemma FindIs(t: seq<Proc>, next: nat, i: nat)
    requires Ordered(t, next) && i < |t|
    ensures Find(t, t[i].pid) == i
  {
  }

  lemma {:induction false} SameFind(t: seq<Proc>, t': seq<Proc>, q: nat)
    requires |t'| == |t| && forall i :: 0 <= i < |t| ==> t'[i].pid == t[i].pid
    ensures Find(t', q) == Find(t, q)
    decreases |t|
  {
    if t != [] && t[0].pid != q { SameFind(t[1..], t'[1..], q); }
  }

  lemma {:induction false} AppendFind(t: seq<Proc>, p: Proc, q: nat)
    requires InTable(t, q)
    ensures Find(t + [p], q) == Find(t, q)
    decreases |t|
  {
    if t[0].pid != q {
      assert (t + [p])[1..] == t[1..] + [p];
      AppendFind(t[1..], p, q);
    }
  }

  lemma CreateKeeps(s: System, parent: nat)
    requires Inv(s)
    ensures Inv(Next(s, Create(parent)))
  {
    hide Find;
    var s' := Next(s, Create(parent));
    if s' != s {
      var t, t', p := s.table, s'.table, Proc(s.next, parent, false);
      forall q | InTable(t, q) ensures Find(t', q) == Find(t, q) { AppendFind(t, p, q); }
      forall x | x in t' ensures ParentOk(t', x) {
        if x in t { assert ParentOk(t, x); } else { assert x == p; }
      }
      assert parent != 0 ==> t[Find(t, parent)].pid == parent;
      forall a | a in s'.waits ensures WaitOk(s', a) { assert WaitOk(s, a); }
    }
  }

  /** Marking one process as exited moves nobody. */
  lemma ExitTable(t: seq<Proc>, next: nat, k: nat)
    requires Ordered(t, next) && k < |t| && forall p :: p in t ==> ParentOk(t, p)
    ensures var t' := t[k := t[k].(exited := true)];
            && Ordered(t', next) && (forall q :: Find(t', q) == Find(t, q)) && (forall p :: p in t' ==> ParentOk(t', p))
  {
    hide Find;
    var t' := t[k := t[k].(exited := true)];
    forall q ensures Find(t', q) == Find(t, q) { SameFind(t, t', q); }
    forall x | x in t' ensures ParentOk(t', x) {
      var i :| 0 <= i < |t'| && t'[i] == x;
      assert t[i] in t && ParentOk(t, t[i]);
    }
  }

  lemma ExitKeeps(s: System, pid: nat)
    requires Inv(s)
    ensures Inv(Next(s, Exit(pid)))
  {
    hide Find, Ordered, ParentOk;
    var s' := Next(s, Exit(pid));
    if s' != s {
      ExitTable(s.table, s.next, Find(s.table, pid));
      forall a | a in s'.waits ensures WaitOk(s', a) { assert WaitOk(s, a); }
    }
  }

  lemma WaitKeeps(s: System, pid: nat, child: nat)
    requires Inv(s)
    ensures Inv(Next(s, WaitPid(pid, child)))
  {
    hide Find;
    var s' := Next(s, WaitPid(pid, child));
    forall a | a in s'.waits ensures WaitOk(s', a) { if a in s.waits { assert WaitOk(s, a); } }
  }

  /** Destroying an entry moves the others together; each keeps its id and loses at most its parent. */
  lemma DestroyedFind(t: seq<Proc>, next: nat, i: nat, q: nat)
    requires Ordered(t, next) && i < |t| && q != t[i].pid && InTable(t, q)
    ensures InTable(Destroyed(t, i), q)
    ensures Destroyed(t, i)[Find(Destroyed(t, i), q)] == Orphaned(t[Find(t, q)], t[i].pid)
  {
    hide Find, Destroyed, OrphanAll;
    var r := Destroyed(t, i);
    DestroyedOrdered(t, next, i);
    var k := Find(t, q);
    var k' := if k < i then k else k - 1;
    assert r[k'] == Orphaned(t[k], t[i].pid);
    FindIs(r, next, k');
  }

  lemma DestroyedOrdered(t: seq<Proc>, next: nat, i: nat)
    requires Ordered(t, next) && i < |t|
    ensures Ordered(Destroyed(t, i), next) && |Destroyed(t, i)| == |t| - 1
    ensures forall k :: 0 <= k < |t| - 1 ==> Destroyed(t, i)[k] == Orphaned(t[if k < i then k else k + 1], t[i].pid)
  {
    var r := OrphanAll(t, t[i].pid);
    var d := Destroyed(t, i);
    forall k | 0 <= k < |t| - 1 ensures d[k] == Orphaned(t[if k < i then k else k + 1], t[i].pid) {
      assert d[k] == r[if k < i then k else k + 1];
    }
  }

  lemma DestroyedParents(s: System, i: nat)
    requires Inv(s) && i < |s.table|
    ensures forall x :: x in Destroyed(s.table, i) ==> ParentOk(Destroyed(s.table, i), x)
  {
    hide Find, Destroyed, OrphanAll;
    var t := s.table;
    var d := Destroyed(t, i);
    DestroyedOrdered(t, s.next, i);
    forall x | x in d ensures ParentOk(d, x) {
      var k :| 0 <= k < |d| && d[k] == x;
      var p := t[if k < i then k else k + 1];
      assert p in t && ParentOk(t, p);
      if x.parent != 0 { DestroyedFind(t, s.next, i, x.parent); }
    }
  }

  /** Destroying an exited process that at most one process waits for keeps the invariant, that waiter released. */
  lemma DestroyKeeps(s: System, i: nat, waits: map<nat, nat>)
    requires Inv(s) && i < |s.table| && s.table[i].exited
    requires forall a :: a in waits ==> a in s.waits && waits[a] == s.waits[a] && waits[a] != s.table[i].pid
    ensures Inv(s.(table := Destroyed(s.table, i), waits := waits))
  {
    hide Find, Destroyed, OrphanAll, Ordered, ParentOk;
    var s' := s.(table := Destroyed(s.table, i), waits := waits);
    var pid := s.table[i].pid;
    DestroyedOrdered(s.table, s.next, i);
    DestroyedParents(s, i);
    FindIs(s.table, s.next, i);
    forall a | a in waits ensures WaitOk(s', a) {
      assert WaitOk(s, a);
      DestroyedFind(s.table, s.next, i, a);
      DestroyedFind(s.table, s.next, i, waits[a]);
    }
  }

  /** Two processes never wait for the same child. */
  lemma OneWaiter(s: System, a: nat, b: nat)
    requires Inv(s) && a in s.waits && b in s.waits && s.waits[a] == s.waits[b]
    ensures a == b
  {
    hide Find;
    assert WaitOk(s, a) && WaitOk(s, b);
  }

  lemma CollectKeeps(s: System, pid: nat)
    requires Inv(s)
    ensures forall delivered :: Inv(Next(s, Collect(pid, delivered)))
    ensures Inv(Next(s, KernelCollect(pid)))
  {
    hide Find;
    forall delivered ensures Inv(Next(s, Collect(pid, delivered))) { CollectOneKeeps(s, pid, delivered); }
    if Next(s, KernelCollect(pid)) != s { DestroyKeeps(s, Find(s.table, pid), s.waits); }
  }

  lemma CollectOneKeeps(s: System, pid: nat, delivered: bool)
    requires Inv(s)
    ensures Inv(Next(s, Collect(pid, delivered)))
  {
    hide Find;
    var s' := Next(s, Collect(pid, delivered));
    if s' != s && !delivered {
      forall a | a in s'.waits ensures WaitOk(s', a) { assert WaitOk(s, a); }
    } else if s' != s {
      forall a | a in s.waits && a != pid ensures s.waits[a] != s.waits[pid] {
        if s.waits[a] == s.waits[pid] { OneWaiter(s, a, pid); }
      }
      DestroyKeeps(s, Find(s.table, s.waits[pid]), s.waits - {pid});
    }
  }

  lemma StepKeeps(s: System, l: Step)
    requires Inv(s)
    ensures Inv(Next(s, l))
  {
    match l
    case Create(parent) => CreateKeeps(s, parent);
    case Exit(pid) => ExitKeeps(s, pid);
    case WaitPid(pid, child) => WaitKeeps(s, pid, child);
    case Collect(pid, delivered) => CollectKeeps(s, pid);
    case KernelCollect(pid) => CollectKeeps(s, pid);
  }

  /** In every reachable state each parent id is 0 or names an older process still in the table, and each waiting process
      waits for a child of its own. */
  lemma {:induction false} RunInv(s: System, steps: seq<Step>)
    requires Inv(s)
    ensures Inv(RunAll(s, steps))
    decreases |steps|
  {
    if steps != [] {
      StepKeeps(s, steps[0]);
      RunInv(Next(s, steps[0]), steps[1..]);
    }
  }

  // ------------------------------------------------ consequences

  /** The process reached by following n waits-for edges. */
  function Follow(s: System, a: nat, n: nat): Option<nat>
    decreases n
  {
    if n == 0 then Some(a) else if a !in s.waits then None else Follow(s, s.waits[a], n - 1)
  }

  /** The waits-for graph of every reachable state has no cycle: each edge leads to a younger process. */
  lemma {:induction false} WaitsForAcyclic(s: System, a: nat, n: nat)
    requires Inv(s) && n > 0 && Follow(s, a, n).Some?
    ensures a < Follow(s, a, n).value
    decreases n
  {
    assert WaitOk(s, a);
    var c := s.table[Find(s.table, s.waits[a])];
    assert c in s.table && ParentOk(s.table, c);
    if n > 1 { WaitsForAcyclic(s, s.waits[a], n - 1); }
  }

  /** The ancestor n links up; None above a process without a parent. */
  function Ancestor(t: seq<Proc>, pid: nat, n: nat): Option<nat>
    decreases n
  {
    if n == 0 then Some(pid)
    else if !InTable(t, pid) || t[Find(t, pid)].parent == 0 then None
    else Ancestor(t, t[Find(t, pid)].parent, n - 1)
  }

  /** Parent links form a forest: going up, ids shrink, and from every process a root is reached. */
  lemma {:induction false} ParentsFormForest(s: System, pid: nat) returns (n: nat, root: nat)
    requires Inv(s) && InTable(s.table, pid)
    ensures Ancestor(s.table, pid, n) == Some(root) && InTable(s.table, root) && s.table[Find(s.table, root)].parent == 0
    ensures root <= pid && (n > 0 ==> root < pid)
    decreases pid
  {
    var p := s.table[Find(s.table, pid)];
    assert p in s.table && ParentOk(s.table, p);
    if p.parent == 0 {
      n, root := 0, pid;
    } else {
      var k;
      k, root := ParentsFormForest(s, p.parent);
      n := k + 1;
    }
  }

  /** In every run no process waits, directly or through others, for itself. */
  lemma NobodyWaitsForItself(steps: seq<Step>, a: nat, n: nat)
    requires n > 0
    ensures Follow(RunAll(INIT, steps), a, n) != Some(a)
  {
    InitInv();
    RunInv(INIT, steps);
    if Follow(RunAll(INIT, steps), a, n).Some? { WaitsForAcyclic(RunAll(INIT, steps), a, n); }
  }

  /** No process is stuck behind a dead one: what a waiter waits for is still in the table, its own child. */
  lemma WaiterHasChild(steps: seq<Step>, a: nat)
    requires a in RunAll(INIT, steps).waits
    ensures var s := RunAll(INIT, steps); Live(s, a) && InTable(s.table, s.waits[a]) && s.table[Find(s.table, s.waits[a])].parent == a
  {
    InitInv();
    RunInv(INIT, steps);
    assert WaitOk(RunAll(INIT, steps), a);
  }

  // ------------------------------------------------ whole lives

  /** The same process as before, but for a parent that is gone. */
  ghost predicate Kept(t: seq<Proc>, t': seq<Proc>, gone: nat, q: nat) {
    && (InTable(t', q) <==> InTable(t, q))
    && (InTable(t, q) ==> t'[Find(t', q)] == Orphaned(t[Find(t, q)], gone))
  }

  /** A new process joins the table under its creator, running, with an id nobody has. */
  lemma CreatedProcess(s: System, parent: nat)
    requires Inv(s) && (parent == 0 || (Live(s, parent) && parent !in s.waits))
    ensures var s' := Next(s, Create(parent));
            && !InTable(s.table, s.next) && Live(s', s.next) && s'.table[Find(s'.table, s.next)].parent == parent
            && s'.waits == s.waits && s'.next == s.next + 1 && s'.table[..|s.table|] == s.table
  {
    hide Find;
    CreateKeeps(s, parent);
    var s' := Next(s, Create(parent));
    FindIs(s'.table, s'.next, |s.table|);
  }

  /** A wait ends only once the child has exited.  Then nobody else's wait is affected, and the child is gone exactly when
      its status was delivered: the others stay, its children orphans.  If not, the child stays in the table as it was. */
  lemma WaitCollects(s: System, a: nat, c: nat, delivered: bool, q: nat)
    requires Inv(s) && Live(s, a) && a !in s.waits && Live(s, c) && c !in s.waits && a != c
    requires s.table[Find(s.table, c)].parent == a
    ensures var waiting := Next(s, WaitPid(a, c)); var exited := Next(waiting, Exit(c));
            var done := Next(exited, Collect(a, delivered));
            && waiting.waits == s.waits[a := c] && Next(waiting, Collect(a, delivered)) == waiting
            && done.waits == s.waits && (InTable(done.table, c) <==> !delivered)
            && (delivered && q != c ==> Kept(s.table, done.table, c, q))
            && (!delivered ==> done.table == exited.table)
  {
    hide Find, Next, Inv, Kept;
    WaitStarts(s, a, c, delivered);
    var waiting := Next(s, WaitPid(a, c));
    ExitMarks(waiting, c, q);
    var exited := Next(waiting, Exit(c));
    CollectGone(exited, a, Find(s.table, c), delivered, q);
    assert s.waits[a := c] - {a} == s.waits;
    if delivered && q != c { KeptFrom(s.table, exited.table, Next(exited, Collect(a, true)).table, c, q); }
  }

  /** A child whose status could not be delivered can be waited for again, and is then collected. */
  lemma RetryCollects(s: System, a: nat, c: nat)
    requires Inv(s) && Live(s, a) && a !in s.waits && InTable(s.table, c) && a != c
    requires s.table[Find(s.table, c)].parent == a && s.table[Find(s.table, c)].exited
    ensures var again := Next(s, WaitPid(a, c)); var done := Next(again, Collect(a, true));
            again.waits == s.waits[a := c] && !InTable(done.table, c) && done.waits == s.waits
  {
    hide Find, Inv, Kept;
    WaitKeeps(s, a, c);
    var again := Next(s, WaitPid(a, c));
    CollectGone(again, a, Find(s.table, c), true, c);
    assert s.waits[a := c] - {a} == s.waits;
  }

  /** The kernel collects an exited process that no process waits for, and no other. */
  lemma KernelCollects(s: System, c: nat, q: nat)
    requires Inv(s) && InTable(s.table, c)
    ensures var s' := Next(s, KernelCollect(c));
            if Live(s, c) || (exists a :: a in s.waits && s.waits[a] == c) then s' == s
            else !InTable(s'.table, c) && s'.waits == s.waits && s'.next == s.next && (q != c ==> Kept(s.table, s'.table, c, q))
  {
    hide Find, Destroyed;
    var i := Find(s.table, c);
    assert s.table[i].pid == c;
    DestroyedGone(s.table, s.next, i);
    if q != c { DestroyedKept(s.table, s.next, i, q); }
  }

  /** A wait is refused for a process that is not there, oneself, or somebody else's child. */
  lemma WaitRefused(s: System, a: nat, c: nat)
    requires Inv(s) && Live(s, a) && a !in s.waits
    ensures Next(s, WaitPid(a, c)) == s <==> !InTable(s.table, c) || c == a || s.table[Find(s.table, c)].parent != a
  {
    hide Find;
    assert s.waits[a := c] != s.waits;
  }

  lemma WaitStarts(s: System, a: nat, c: nat, delivered: bool)
    requires Inv(s) && Live(s, a) && a !in s.waits && Live(s, c) && a != c && s.table[Find(s.table, c)].parent == a
    ensures var w := Next(s, WaitPid(a, c));
            Inv(w) && w.table == s.table && w.waits == s.waits[a := c] && w.next == s.next && Live(w, c) && Next(w, Collect(a, delivered)) == w
  {
    WaitKeeps(s, a, c);
  }

  lemma ExitMarks(s: System, c: nat, q: nat)
    requires Inv(s) && Live(s, c) && c !in s.waits
    ensures var e := Next(s, Exit(c));
            && Inv(e) && e.waits == s.waits && Find(e.table, q) == Find(s.table, q) && Find(e.table, c) == Find(s.table, c)
            && |e.table| == |s.table| && e.table[Find(s.table, c)].exited
            && (q != c && InTable(s.table, q) ==> e.table[Find(s.table, q)] == s.table[Find(s.table, q)])
  {
    hide Find;
    ExitKeeps(s, c);
    ExitTable(s.table, s.next, Find(s.table, c));
  }

  lemma KeptFrom(t: seq<Proc>, t1: seq<Proc>, t2: seq<Proc>, gone: nat, q: nat)
    requires Kept(t1, t2, gone, q) && Find(t1, q) == Find(t, q) && |t1| == |t|
    requires InTable(t, q) ==> t1[Find(t, q)] == t[Find(t, q)]
    ensures Kept(t, t2, gone, q)
  {
  }

  lemma CollectGone(s: System, a: nat, i: nat, delivered: bool, q: nat)
    requires Inv(s) && a in s.waits && i < |s.table| && Find(s.table, s.waits[a]) == i && s.table[i].exited
    ensures var s' := Next(s, Collect(a, delivered)); var c := s.waits[a];
            && s'.waits == s.waits - {a} && (InTable(s'.table, c) <==> !delivered)
            && (delivered && q != c ==> Kept(s.table, s'.table, c, q)) && (!delivered ==> s'.table == s.table)
  {
    hide Find, Destroyed;
    DestroyedGone(s.table, s.next, i);
    if q != s.waits[a] { DestroyedKept(s.table, s.next, i, q); }
  }

  lemma DestroyedGone(t: seq<Proc>, next: nat, i: nat)
    requires Ordered(t, next) && i < |t|
    ensures !InTable(Destroyed(t, i), t[i].pid)
  {
    hide Find, Destroyed;
    DestroyedOrdered(t, next, i);
  }

  lemma DestroyedKept(t: seq<Proc>, next: nat, i: nat, q: nat)
    requires Ordered(t, next) && i < |t| && q != t[i].pid
    ensures Kept(t, Destroyed(t, i), t[i].pid, q)
  {
    hide Find, Destroyed;
    if InTable(t, q) { DestroyedFind(t, next, i, q); }
    DestroyedOrdered(t, next, i);
    var d := Destroyed(t, i);
    if InTable(d, q) {
      var k := Find(d, q);
      var j := if k < i then k else k + 1;
      assert d[k] == Orphaned(t[j], t[i].pid);
      FindIs(t, next, j);
    }
  }
}
