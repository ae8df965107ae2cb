/** The end of SYS_WAITPID: the status goes to the caller's memory, and the child goes if the status went. */
module Waitpid {
  import opened Base
  import opened Frames
  import opened Paging
  import Access
  import opened AddressSpaces
  import opened UserMemory
  import opened Elf
  import opened Arguments
  import opened Usercopy
  import Processes
  import ProcessTable

  const ERROR: nat := 0xFFFF_FFFF

  /** Whether the status reaches the caller: it asked for none, or named four bytes it may reach. */
  ghost predicate Deliverable(m: Machine, sid: Sid, status: nat) {
    status == 0 || RangeOpen(m, sid, status, 4)
  }

  lemma StatusReads(m: Machine, b: Bytes, b': Bytes, sid: Sid, status: nat, code: nat)
    requires KernelHidden(m, sid) && RangeOpen(m, sid, status, 4) && code < U32
    requires Stored(m, b, b', sid, status, Bytes32(code))
    ensures WordAt(m, b', sid, status) == code
  {
    OpenIsMapped(m, sid, status, 4);
    assert UserAddr(status + 3);
    assert WordBytes([code]) == Bytes32(code);
    WordWritten(m, b, b', sid, status, status + 4, status, [code], 0);
  }

  /** The first half of `syscall_waitpid`: the process to wait for, or null when there is none of that id, it is the caller,
      or it is not a child of the caller. */
  method WaitTarget(table: ProcessTable.Table, current: ProcessTable.Ptr, pid: nat, ghost c: nat)
    returns (child: ProcessTable.Ptr)
    requires table.Valid() && c < |table.ps| && current == table.ps[c]
    requires Processes.Ordered(table.Abs(), table.m.nextPid)
    ensures var t := table.Abs(); var k := Processes.Find(t, pid);
            if k < |t| && pid != t[c].pid && t[k].parent == t[c].pid then child == table.ps[k] != ProcessTable.NULL
            else child == ProcessTable.NULL
  {
    ghost var t := table.Abs();
    Processes.FindIs(t, table.m.nextPid, c);
    ProcessTable.NotNull(table.m, table.ps);
    child := table.FindProcess(pid);
    if child == ProcessTable.NULL || child == current { return ProcessTable.NULL; }
    assert ProcessTable.LinkOk(table.m, table.ps, c) && ProcessTable.LinkOk(table.m, table.ps, Processes.Find(t, pid));
    if table.m.pcb[child].parent != table.m.pcb[current].pid { return ProcessTable.NULL; }
  }

  /** `syscall_waitpid` after `process_wait` has returned the exit code: the child leaves the table exactly when the status
      pointer is null or accessible; else the call fails and the child stays, as it was, to be waited for again. */
  method FinishWait(pm: ProcessMemory, sid: Sid, status: nat, code: nat,
                    table: ProcessTable.Table, child: ProcessTable.Ptr, ghost k: nat)
    returns (eax: nat)
    requires pm.Valid() && sid in pm.spaces.m.spaces && KernelHidden(pm.spaces.m, sid) && status < U32 && code < U32
    requires table.Valid() && k < |table.ps| && child == table.ps[k] && table.Abs()[k].exited
    requires Processes.Ordered(table.Abs(), table.m.nextPid)
    modifies pm, table
    ensures pm.Valid() && table.Valid()
    ensures var sent, was := Deliverable(pm.spaces.m, sid, status), old(table.Abs());
            && eax == (if sent then 0 else ERROR)
            && table.Abs() == (if sent then Processes.Destroyed(was, k) else was)
            && (Processes.InTable(table.Abs(), was[k].pid) <==> !sent)
            && (sent && status != 0 ==> WordAt(pm.spaces.m, pm.bytes, sid, status) == code)
            && (!sent || status == 0 ==> pm.bytes == old(pm.bytes))
  {
    hide Inv, Access.DirsOpen, KernelHidden, Stored, RangeOpen, WordAt, Bytes32, Processes.Destroyed, Processes.Ordered;
    ghost var t := table.Abs();
    Processes.FindIs(t, table.m.nextPid, k);
    Processes.DestroyedGone(t, table.m.nextPid, k);
    if status != 0 {
      var sent := CopyToUser(pm, sid, status, Bytes32(code));
      if sent != OK { return ERROR; }
      StatusReads(pm.spaces.m, old(pm.bytes), pm.bytes, sid, status, code);
    }
    var panic := table.Destroy(child, k);
    return 0;
  }
}
