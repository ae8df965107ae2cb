/** Copies between the kernel and user memory, checked page by page against the page tables first. */
module Usercopy {
  import opened Base
  import opened Frames
  import opened Paging
  import opened Access
  import opened AddressSpaces
  import opened UserMemory
  import opened Arguments

  const FAULT: int := -1
  const TOO_LONG: int := -2

  predicate UserBit(m: Machine, sid: Sid, p: nat) {
    m.Lookup(sid, p).Some? && User(m.Lookup(sid, p).value)
  }

  /** Every page the range touches carries the user bit, and the range ends below 4 GiB. */
  ghost predicate RangeOpen(m: Machine, sid: Sid, addr: nat, size: nat) {
    size > 0 ==> addr + size < U32 && forall p: nat :: addr / PAGE <= p <= (addr + size - 1) / PAGE ==> UserBit(m, sid, p)
  }

  /** `user_range_accessible`: it ends on all inputs, and accepts exactly the open ranges. */
  method RangeAccessible(pm: ProcessMemory, sid: Sid, addr: nat, size: nat) returns (ok: bool)
    requires pm.Valid() && sid in pm.spaces.m.spaces && addr < U32 && size < U32
    ensures ok <==> RangeOpen(pm.spaces.m, sid, addr, size)
  {
    hide Inv;
    if size == 0 { return true; }
    if (addr + size) % U32 < addr { return false; }
    var end := addr + size - 1;
    var page := addr / PAGE * PAGE;
    ghost var k := addr / PAGE;
    while page <= end
      invariant page == k * PAGE && addr / PAGE <= k <= end / PAGE + 1
      invariant forall p: nat :: addr / PAGE <= p < k ==> UserBit(pm.spaces.m, sid, p)
      decreases end / PAGE + 1 - k
    {
      PageNumber(k);
      var flags := pm.spaces.GetFlags(sid, page);
      if flags / 2 % 2 == 0 {
        assert !UserBit(pm.spaces.m, sid, k) && k <= end / PAGE;
        return false;
      }
      if page > 0xFFFF_FFFF - 0x1000 {
        LastPage(k, end);
        return true;
      }
      page := page + 0x1000;
      k := k + 1;
    }
    return true;
  }

  lemma LastPage(k: nat, end: nat)
    requires k * PAGE > 0xFFFF_FFFF - 0x1000 && end < U32 && k <= end / PAGE
    ensures k == end / PAGE
  {
  }

  // ------------------------------------------------ copies

  /** The bytes user code would read from addr on. */
  ghost function UserBytes(m: Machine, bytes: Bytes, sid: Sid, addr: nat, size: nat): (r: seq<nat>)
    ensures |r| == size && forall i: nat :: i < size ==> r[i] == ByteAt(m, bytes, sid, addr + i)
    decreases size
  {
    if size == 0 then [] else UserBytes(m, bytes, sid, addr, size - 1) + [ByteAt(m, bytes, sid, addr + size - 1)]
  }

  /** `copy_from_user` */
  method CopyFromUser(pm: ProcessMemory, sid: Sid, src: nat, size: nat) returns (code: int, data: seq<nat>)
    requires pm.Valid() && sid in pm.spaces.m.spaces && src < U32 && size < U32
    ensures code == if RangeOpen(pm.spaces.m, sid, src, size) then OK else FAULT
    ensures data == if code == OK then UserBytes(pm.spaces.m, pm.bytes, sid, src, size) else []
  {
    hide Inv, DirsOpen, RangeOpen, ByteAt;
    data := [];
    var ok := RangeAccessible(pm, sid, src, size);
    if !ok { return FAULT, []; }
    var i := 0;
    while i < size
      invariant i <= size && data == UserBytes(pm.spaces.m, pm.bytes, sid, src, i)
    {
      data := data + [ByteAt(pm.spaces.m, pm.bytes, sid, src + i)];
      i := i + 1;
    }
    return OK, data;
  }

  /** The kernel gives the user bit to no page outside user memory. */
  ghost predicate KernelHidden(m: Machine, sid: Sid) {
    forall p: nat :: UserBit(m, sid, p) && p < MAX_FRAMES ==> UserPage(p)
  }

  lemma OpenIsMapped(m: Machine, sid: Sid, addr: nat, size: nat)
    requires KernelHidden(m, sid) && RangeOpen(m, sid, addr, size)
    ensures AllMapped(m, sid, addr, size)
  {
    forall x: nat | addr <= x < addr + size ensures UserAddr(x) && IsMapped(m, sid, x) { assert UserBit(m, sid, x / PAGE); }
  }

  /** What the kernel's check accepts is what the processor would let the process read: the check looks at table entries
      only, and every directory entry on the way is open. */
  lemma OpenIsReadable(m: Machine, sid: Sid, addr: nat, size: nat)
    requires KernelHidden(m, sid) && DirsOpen(m) && addr + size < U32
    ensures RangeOpen(m, sid, addr, size) <==>
              size > 0 ==> forall p: nat :: addr / 4096 <= p <= (addr + size - 1) / 4096 ==> UserPage(p) && UserMay(m, sid, p, false)
  {
    hide DirsOpen;
    forall p: nat | p < MAX_FRAMES ensures UserBit(m, sid, p) <==> UserPage(p) && UserMay(m, sid, p, false) {
      if UserPage(p) { TableEntryDecides(m, sid, p, false); }
    }
  }

  /** `copy_to_user`: on success exactly the bytes of the range change, all on pages the process itself may reach. */
  method CopyToUser(pm: ProcessMemory, sid: Sid, dest: nat, data: seq<nat>) returns (code: int)
    requires pm.Valid() && sid in pm.spaces.m.spaces && dest < U32 && |data| < U32 && KernelHidden(pm.spaces.m, sid)
    modifies pm
    ensures pm.Valid() && code == if RangeOpen(pm.spaces.m, sid, dest, |data|) then OK else FAULT
    ensures code == OK ==> Stored(pm.spaces.m, old(pm.bytes), pm.bytes, sid, dest, data)
    ensures code != OK ==> pm.bytes == old(pm.bytes)
  {
    hide Inv, Stored, KernelHidden, AllMapped;
    var ok := RangeAccessible(pm, sid, dest, |data|);
    if !ok { return FAULT; }
    OpenIsMapped(pm.spaces.m, sid, dest, |data|);
    pm.Store(sid, dest, data);
    return OK;
  }

  // ------------------------------------------------ strings

  /** The first n bytes from str on can be read and none of them is zero. */
  ghost predicate NoZero(m: Machine, bytes: Bytes, sid: Sid, str: nat, n: nat) {
    forall x: nat :: str <= x < str + n ==> RangeOpen(m, sid, x, 1) && ByteAt(m, bytes, sid, x) != 0
  }

  /** The string at str has this length, and all of it, its zero included, can be read. */
  ghost predicate UserString(m: Machine, bytes: Bytes, sid: Sid, str: nat, len: nat) {
    NoZero(m, bytes, sid, str, len) && RangeOpen(m, sid, str + len, 1) && ByteAt(m, bytes, sid, str + len) == 0
  }

  /** `user_string_length` */
  method UserStringLength(pm: ProcessMemory, sid: Sid, str: nat, maxLen: nat) returns (code: int, len: nat)
    requires pm.Valid() && sid in pm.spaces.m.spaces && str < U32 && maxLen < U32
    ensures code == OK ==> len < maxLen && UserString(pm.spaces.m, pm.bytes, sid, str, len)
    ensures code == TOO_LONG ==> NoZero(pm.spaces.m, pm.bytes, sid, str, maxLen)
    ensures code == FAULT ==> exists i: nat :: i < maxLen && NoZero(pm.spaces.m, pm.bytes, sid, str, i)
                                              && !RangeOpen(pm.spaces.m, sid, (str + i) % U32, 1)
    ensures code in {OK, TOO_LONG, FAULT}
  {
    hide Inv, RangeOpen, DirsOpen, ByteAt;
    var i := 0;
    while i < maxLen
      invariant i <= maxLen && str + i < U32 && NoZero(pm.spaces.m, pm.bytes, sid, str, i)
    {
      var ch;
      code, ch := CopyFromUser(pm, sid, (str + i) % U32, 1);
      if code != OK { return FAULT, 0; }
      if ch[0] == 0 { return OK, i; }
      NotOpenAtEnd(pm.spaces.m, sid, str + i);
      i := i + 1;
    }
    return TOO_LONG, 0;
  }

  /** The last byte below 4 GiB is never readable: the check would wrap. */
  lemma NotOpenAtEnd(m: Machine, sid: Sid, x: nat)
    ensures RangeOpen(m, sid, x, 1) ==> x + 1 < U32
  {
  }

  /** A string whose bytes can all be read one by one can be read as a whole. */
  lemma StringOpen(m: Machine, bytes: Bytes, sid: Sid, str: nat, len: nat)
    requires UserString(m, bytes, sid, str, len)
    ensures RangeOpen(m, sid, str, len + 1)
  {
    NotOpenAtEnd(m, sid, str + len);
    forall p: nat | str / PAGE <= p <= (str + len) / PAGE ensures UserBit(m, sid, p) {
      var x := if p * PAGE < str then str else p * PAGE;
      assert x / PAGE == p && str <= x <= str + len by { PageOf(str, str + len, p); }
      assert RangeOpen(m, sid, x, 1);
    }
  }

  lemma PageOf(lo: nat, hi: nat, p: nat)
    requires lo <= hi && lo / PAGE <= p <= hi / PAGE
    ensures var x := if p * PAGE < lo then lo else p * PAGE; x / PAGE == p && lo <= x <= hi
  {
  }

  /** `syscall_copy_user_string`: on success the buffer holds exactly the user's string through its first zero; it fails
      only for a null pointer, an empty buffer, or when no readable string that fits starts there. */
  method CopyUserString(pm: ProcessMemory, sid: Sid, str: nat, bufferSize: nat) returns (code: int, buffer: seq<nat>)
    requires pm.Valid() && sid in pm.spaces.m.spaces && str < U32 && bufferSize < U32
    ensures code == OK || code == FAILED
    ensures code == OK ==>
              && str != 0 && 0 < |buffer| <= bufferSize
              && UserString(pm.spaces.m, pm.bytes, sid, str, |buffer| - 1)
              && buffer == UserBytes(pm.spaces.m, pm.bytes, sid, str, |buffer|)
    ensures str != 0 && (exists n: nat :: n < bufferSize && UserString(pm.spaces.m, pm.bytes, sid, str, n)) ==> code == OK
  {
    hide Inv, RangeOpen, UserBytes;
    if str == 0 || bufferSize == 0 { return FAILED, []; }
    var length;
    code, length := UserStringLength(pm, sid, str, bufferSize);
    if code != OK {
      NoString(pm.spaces.m, pm.bytes, sid, str, bufferSize, code);
      return FAILED, [];
    }
    if length + 1 > bufferSize { return FAILED, []; }
    StringOpen(pm.spaces.m, pm.bytes, sid, str, length);
    code, buffer := CopyFromUser(pm, sid, str, length + 1);
    if code != OK { return FAILED, []; }
  }

  /** The length is found if there is one to find. */
  lemma NoString(m: Machine, bytes: Bytes, sid: Sid, str: nat, maxLen: nat, code: int)
    requires str < U32
    requires code == TOO_LONG ==> NoZero(m, bytes, sid, str, maxLen)
    requires code == FAULT ==> exists i: nat :: i < maxLen && NoZero(m, bytes, sid, str, i) && !RangeOpen(m, sid, (str + i) % U32, 1)
    requires code in {TOO_LONG, FAULT}
    ensures forall n: nat :: n < maxLen ==> !UserString(m, bytes, sid, str, n)
  {
    hide RangeOpen;
    forall n: nat | n < maxLen ensures !UserString(m, bytes, sid, str, n) {
      if code == FAULT {
        var i: nat :| i < maxLen && NoZero(m, bytes, sid, str, i) && !RangeOpen(m, sid, (str + i) % U32, 1);
        NotOpenAtEnd(m, sid, str + n);
        NotOpenAtEnd(m, sid, str + i);
      }
    }
  }
}
