/** A process's memory as its page tables show it: bytes behind virtual addresses, and what writing and mapping do to them. */
module UserMemory {
  import opened Base
  import opened Frames
  import opened Paging
  import opened PagingSteps
  import opened Access
  import opened AddressSpaces

  /** The bytes of physical memory outside the page tables; a byte never written reads as 0. */
  type Bytes = map<nat, nat>

  predicate UserAddr(va: nat) { UserPage(va / PAGE) }

  predicate IsMapped(m: Machine, sid: Sid, va: nat) {
    m.Lookup(sid, va / PAGE).Some?
  }

  /** The physical address behind a mapped virtual one. */
  function Pa(m: Machine, sid: Sid, va: nat): nat
    requires IsMapped(m, sid, va)
  {
    FrameOf(m.Lookup(sid, va / PAGE).value) * PAGE + va % PAGE
  }

  function ByteAt(m: Machine, bytes: Bytes, sid: Sid, va: nat): nat {
    if IsMapped(m, sid, va) && Pa(m, sid, va) in bytes then bytes[Pa(m, sid, va)] else 0
  }

  /** Different addresses, of the same space or of different ones, never share a byte. */
  lemma PaInjective(m: Machine, ow: Owners, s: Sid, x: nat, t: Sid, y: nat)
    requires Inv(m, ow) && UserAddr(x) && UserAddr(y) && IsMapped(m, s, x) && IsMapped(m, t, y)
    requires Pa(m, s, x) == Pa(m, t, y)
    ensures s == t && x == y
  {
    var f, g := FrameOf(m.Lookup(s, x / PAGE).value), FrameOf(m.Lookup(t, y / PAGE).value);
    SplitAddress(f, x % PAGE, g, y % PAGE);
    PageFrame(m, ow, s, x / PAGE);
    PageFrame(m, ow, t, y / PAGE);
    assert x == x / PAGE * PAGE + x % PAGE && y == y / PAGE * PAGE + y % PAGE;
  }

  lemma SplitAddress(f: nat, i: nat, g: nat, j: nat)
    requires i < PAGE && j < PAGE && f * PAGE + i == g * PAGE + j
    ensures f == g && i == j
  {
  }

  /** Exactly the bytes at [va, va + |data|) of the space have become the data; no other user byte of any space changed. */
  ghost predicate Stored(m: Machine, bytes: Bytes, bytes': Bytes, sid: Sid, va: nat, data: seq<nat>) {
    forall s: Sid, x: nat :: UserAddr(x) ==>
      ByteAt(m, bytes', s, x) == if s == sid && va <= x < va + |data| then data[x - va] else ByteAt(m, bytes, s, x)
  }

  lemma StoreOne(m: Machine, ow: Owners, bytes: Bytes, sid: Sid, va: nat, b: nat, s: Sid, x: nat)
    requires Inv(m, ow) && UserAddr(va) && IsMapped(m, sid, va) && UserAddr(x)
    ensures ByteAt(m, bytes[Pa(m, sid, va) := b], s, x) == if s == sid && x == va then b else ByteAt(m, bytes, s, x)
  {
    hide Inv;
    if IsMapped(m, s, x) && Pa(m, s, x) == Pa(m, sid, va) { PaInjective(m, ow, s, x, sid, va); }
  }

  lemma StoreNext(m: Machine, ow: Owners, bytes: Bytes, now: Bytes, sid: Sid, va: nat, data: seq<nat>, i: nat)
    requires Inv(m, ow) && i < |data| && UserAddr(va + i) && IsMapped(m, sid, va + i)
    requires Stored(m, bytes, now, sid, va, data[..i])
    ensures Stored(m, bytes, now[Pa(m, sid, va + i) := data[i]], sid, va, data[..i + 1])
  {
    hide Inv, IsMapped;
    var next := now[Pa(m, sid, va + i) := data[i]];
    forall s: Sid, x: nat | UserAddr(x)
      ensures ByteAt(m, next, s, x) == if s == sid && va <= x < va + (i + 1) then data[x - va] else ByteAt(m, bytes, s, x)
    {
      StoreOne(m, ow, now, sid, va + i, data[i], s, x);
    }
  }

  /** All of [va, va + size) is user memory, and mapped. */
  ghost predicate AllMapped(m: Machine, sid: Sid, va: nat, size: nat) {
    forall x: nat :: va <= x < va + size ==> UserAddr(x) && IsMapped(m, sid, x)
  }

  // ------------------------------------------------ mapping regions

  /** A page of user memory that the process may write. */
  predicate Open(e: Option<nat>) {
    e.Some? && User(e.value) && Writable(e.value)
  }

  /** Pages lo up to hi of the space were unmapped and now are open; no other user translation of any space changed. */
  ghost predicate Grew(m: Machine, m': Machine, sid: Sid, lo: nat, hi: nat) {
    forall s: Sid, p: nat :: UserPage(p) ==>
      if s == sid && lo <= p < hi then m.Lookup(s, p) == None && Open(m'.Lookup(s, p)) else m'.Lookup(s, p) == m.Lookup(s, p)
  }

  /** No frame is left for page p: none at all, or one for the page and none below 16 MiB for the table it lacks. */
  ghost predicate NoFrameFor(m: Machine, sid: Sid, p: nat)
    requires sid in m.spaces
  {
    || !AnyFree(m.free, 256, 0x10_0000)
    || (!Present(m.Word(m.spaces[sid].dir, Slot(p)))
        && !AnyFree(m.free - {FirstFree(m.free, 256, 0x10_0000)}, 256, 0x1000))
  }

  /** A page that can be given to a process: user memory, not mapped, and with the frames it takes at hand. */
  ghost predicate CanOpen(m: Machine, sid: Sid, p: nat)
    requires sid in m.spaces
  {
    0x1000 <= p < 0xC_0000 && m.Lookup(sid, p) == None && !NoFrameFor(m, sid, p)
  }

  /** Pages lo up to k were opened, and page k, before hi, cannot be. */
  ghost predicate StoppedAt(m: Machine, m': Machine, sid: Sid, lo: nat, k: nat, hi: nat) {
    lo <= k < hi && sid in m'.spaces && Grew(m, m', sid, lo, k) && !CanOpen(m', sid, k)
  }

  ghost predicate Stopped(m: Machine, m': Machine, sid: Sid, lo: nat, hi: nat) {
    exists k :: StoppedAt(m, m', sid, lo, k, hi)
  }

  /** The user may read and write the pages. */
  ghost predicate Given(m: Machine, sid: Sid, lo: nat, hi: nat) {
    forall p: nat :: lo <= p < hi ==> UserMay(m, sid, p, true)
  }

  lemma GrewGiven(m: Machine, m': Machine, sid: Sid, lo: nat, hi: nat)
    requires Grew(m, m', sid, lo, hi) && DirsOpen(m') && forall p :: lo <= p < hi ==> UserPage(p)
    ensures Given(m', sid, lo, hi)
  {
    forall p: nat | lo <= p < hi ensures UserMay(m', sid, p, true) { TableEntryDecides(m', sid, p, true); }
  }

  /** Mapping page p takes the lowest free frame for it and, for want of a table, another for that. */
  lemma CanOpenIff(m1: Machine, m: Machine, sid: Sid, p: nat)
    requires var f := FirstFree(m.free, LOW_FRAMES, MAX_FRAMES); m1 == if f < MAX_FRAMES then m.(free := m.free - {f}) else m
    requires sid in m.spaces
    ensures CanOpen(m, sid, p) <==>
              && FirstFree(m.free, LOW_FRAMES, MAX_FRAMES) < MAX_FRAMES && UserPage(p)
              && m1.Lookup(sid, p) == None && TableAtHand(m1, sid, p)
  {
    var f := FirstFree(m.free, 256, 0x10_0000);
    assert f < 0x10_0000 <==> AnyFree(m.free, 256, 0x10_0000);
    SameTables(m, m1);
    assert m1.Word(m1.spaces[sid].dir, Slot(p)) == m.Word(m.spaces[sid].dir, Slot(p));
  }

  lemma MapCode(m: Machine, ow: Owners, m': Machine, ow': Owners, sid: Sid, p: nat, f: nat, code: int)
    requires sid in m.spaces && MapResult(m, ow, m', ow', sid, p, f, 3, code)
    ensures code == if m.Lookup(sid, p) == None && TableAtHand(m, sid, p) then OK else FAILED
    ensures (code == FAILED ==> m' == m && ow' == ow) && m'.spaces.Keys == m.spaces.Keys
  {
  }

  /** A page mapped for the user with a frame just allocated. */
  lemma PageOpened(m: Machine, m1: Machine, ow: Owners, m2: Machine, ow2: Owners, sid: Sid, p: nat, f: nat)
    requires UserPage(p) && sid in m.spaces && f in m.free && m1 == m.(free := m.free - {f}) && Inv(m1, ow)
    requires MapResult(m1, ow, m2, ow2, sid, p, f, 3, OK) && DirsOpen(m2)
    ensures Grew(m, m2, sid, p, p + 1) && UserMay(m2, sid, p, true) && m2.free + ow2.Keys == m.free + ow.Keys
    ensures |LowFree(m2.free)| + 2 >= |LowFree(m.free)|
  {
    hide Inv, Local, ViewSet, SlotSet, DirsOpen;
    GrewOne(m, m1, ow, m2, ow2, sid, p, f);
    GrewGiven(m, m2, sid, p, p + 1);
    assert m1.free + {f} == m.free;
    assert m1.free + ow.Keys + {f} == m.free + ow.Keys;
    LowSpent(m.free, m2.free, f, TableFrameFor(m1.free));
  }

  lemma GrewOne(m: Machine, m1: Machine, ow1: Owners, m2: Machine, ow2: Owners, sid: Sid, p: nat, f: nat)
    requires UserPage(p) && m1 == m.(free := m1.free) && sid in m.spaces
    requires Inv(m1, ow1) && MapResult(m1, ow1, m2, ow2, sid, p, f, 3, OK)
    ensures Grew(m, m2, sid, p, p + 1)
  {
    hide Inv, Local;
    SameTables(m, m1);
    forall s: Sid, q: nat | UserPage(q)
      ensures if s == sid && q == p then m.Lookup(s, q) == None && Open(m2.Lookup(s, q))
              else m2.Lookup(s, q) == m.Lookup(s, q)
    {
      if s != sid { Isolation(m1, ow1, m2, ow2, sid, s, q); }
    }
  }

  lemma GrewMore(m: Machine, m1: Machine, m2: Machine, sid: Sid, lo: nat, p: nat)
    requires Grew(m, m1, sid, lo, p) && lo <= p && Grew(m1, m2, sid, p, p + 1)
    ensures Grew(m, m2, sid, lo, p + 1)
  {
  }

  lemma GivenBack(m: Machine, f: nat)
    requires f in m.free
    ensures m.(free := m.free - {f} + {f}) == m
  {
    assert m.free - {f} + {f} == m.free;
  }

  lemma SameDirs(m: Machine, m1: Machine)
    requires m1 == m.(free := m1.free) && DirsOpen(m)
    ensures DirsOpen(m1)
  {
    forall s | s in m1.spaces ensures DirOpen(m1, s) {
      assert DirOpen(m, s);
      SameDirOpen(m, m1, s);
    }
  }

  lemma SameTables(m: Machine, m1: Machine)
    requires m1 == m.(free := m1.free)
    ensures forall s: Sid, p: nat :: m1.Lookup(s, p) == m.Lookup(s, p)
  {
    forall s: Sid, p: nat ensures m1.Lookup(s, p) == m.Lookup(s, p) {
      if s in m.spaces { assert m1.Walk(m.spaces[s].dir, p) == m.Walk(m.spaces[s].dir, p); }
    }
  }

  /** Whatever was mapped, in any space, still is, and reads the same. */
  ghost predicate BytesKept(m: Machine, bytes: Bytes, m': Machine, bytes': Bytes) {
    forall s: Sid, x: nat :: UserAddr(x) && IsMapped(m, s, x) ==>
      IsMapped(m', s, x) && ByteAt(m', bytes', s, x) == ByteAt(m, bytes, s, x)
  }

  lemma KeptTransitive(m: Machine, b: Bytes, m1: Machine, b1: Bytes, m2: Machine, b2: Bytes)
    requires BytesKept(m, b, m1, b1) && BytesKept(m1, b1, m2, b2)
    ensures BytesKept(m, b, m2, b2)
  {
  }

  lemma GrewKeeps(m: Machine, m': Machine, bytes: Bytes, sid: Sid, lo: nat, hi: nat)
    requires Grew(m, m', sid, lo, hi)
    ensures BytesKept(m, bytes, m', bytes)
  {
    forall s: Sid, x: nat | UserAddr(x) && IsMapped(m, s, x)
      ensures IsMapped(m', s, x) && ByteAt(m', bytes, s, x) == ByteAt(m, bytes, s, x)
    {
      assert m'.Lookup(s, x / PAGE) == m.Lookup(s, x / PAGE);
    }
  }

  /** Writing inside pages that were unmapped before they were mapped changes no byte that was mapped before. */
  lemma StoredKeeps(m: Machine, m': Machine, bytes: Bytes, bytes': Bytes, sid: Sid, lo: nat, hi: nat, va: nat, data: seq<nat>)
    requires Grew(m, m', sid, lo, hi) && Stored(m', bytes, bytes', sid, va, data)
    requires forall x: nat :: va <= x < va + |data| ==> lo <= x / PAGE < hi
    ensures BytesKept(m, bytes, m', bytes')
  {
    forall s: Sid, x: nat | UserAddr(x) && IsMapped(m, s, x)
      ensures IsMapped(m', s, x) && ByteAt(m', bytes', s, x) == ByteAt(m, bytes, s, x)
    {
      assert m'.Lookup(s, x / PAGE) == m.Lookup(s, x / PAGE);
      assert s == sid ==> !(lo <= x / PAGE < hi);
    }
  }

  class ProcessMemory {
    const spaces: AddressSpaceTable
    var bytes: Bytes

    ghost predicate Valid()
      reads this, spaces
    {
      spaces.Valid() && DirsOpen(spaces.m)
    }

    /** The frames that are free or have an owner. */
    ghost function Known(): set<nat>
      reads this, spaces
    {
      spaces.m.free + spaces.ow.Keys
    }

    constructor (table: AddressSpaceTable, contents: Bytes)
      requires table.Valid() && DirsOpen(table.m)
      ensures Valid() && spaces == table && bytes == contents
    {
      spaces, bytes := table, contents;
    }

    /** `memcpy` to user addresses through the page tables. */
    method Store(sid: Sid, va: nat, data: seq<nat>)
      requires Valid() && AllMapped(spaces.m, sid, va, |data|)
      modifies this
      ensures Valid() && Stored(spaces.m, old(bytes), bytes, sid, va, data)
    {
      hide Inv;
      var i := 0;
      while i < |data|
        invariant i <= |data| && Stored(spaces.m, old(bytes), bytes, sid, va, data[..i])
      {
        StoreNext(spaces.m, spaces.ow, old(bytes), bytes, sid, va, data, i);
        bytes := bytes[Pa(spaces.m, sid, va + i) := data[i]];
        i := i + 1;
      }
      assert data[..|data|] == data;
    }

    /** `memset` to zero. */
    method Clear(sid: Sid, va: nat, size: nat)
      requires Valid() && AllMapped(spaces.m, sid, va, size)
      modifies this
      ensures Valid() && Stored(spaces.m, old(bytes), bytes, sid, va, Zeros(size))
    {
      Fill(sid, va, size, 0, Zeros(size));
    }

    method Fill(sid: Sid, va: nat, size: nat, b: nat, ghost data: seq<nat>)
      requires Valid() && AllMapped(spaces.m, sid, va, size) && |data| == size && (forall i :: 0 <= i < size ==> data[i] == b)
      modifies this
      ensures Valid() && Stored(spaces.m, old(bytes), bytes, sid, va, data)
    {
      var i := 0;
      while i < size
        invariant i <= size && Stored(spaces.m, old(bytes), bytes, sid, va, data[..i])
      {
        StoreNext(spaces.m, spaces.ow, old(bytes), bytes, sid, va, data, i);
        bytes := bytes[Pa(spaces.m, sid, va + i) := b];
        i := i + 1;
      }
      assert data[..size] == data;
    }

    /** `map_user_page`: it succeeds exactly when the page can be opened, and then the user may read and write it; else
        nothing changes, the frame given back.  No frame is lost either way. */
    method MapUserPage(sid: Sid, va: nat) returns (code: int)
      requires Valid() && sid in spaces.m.spaces && va < U32 && va % PAGE == 0
      modifies spaces
      ensures Valid() && spaces.m.spaces.Keys == old(spaces.m.spaces.Keys) && Known() == old(Known())
      ensures code == if CanOpen(old(spaces.m), sid, va / PAGE) then OK else FAILED
      ensures code == OK ==> UserPage(va / PAGE) && Grew(old(spaces.m), spaces.m, sid, va / PAGE, va / PAGE + 1)
      ensures code == OK ==> UserMay(spaces.m, sid, va / PAGE, true)
      ensures |LowFree(spaces.m.free)| + 2 >= |LowFree(old(spaces.m.free))|
      ensures code == FAILED ==> spaces.m == old(spaces.m)
    {
      hide Inv, DirsOpen, CanOpen, MapResult, Grew, UserMay, LowFree, TableAtHand, FirstFree;
      var pa := spaces.AllocPage();
      CanOpenIff(spaces.m, old(spaces.m), sid, va / PAGE);
      if pa == 0 { return FAILED; }
      ghost var m1, ow := spaces.m, spaces.ow;
      SameDirs(old(spaces.m), m1);
      code := spaces.MapPage(sid, va, pa, 3);
      if UserPage(va / PAGE) { MapCode(m1, ow, spaces.m, spaces.ow, sid, va / PAGE, pa / PAGE, code); }
      if code != OK {
        spaces.FreePage(pa);
        GivenBack(old(spaces.m), pa / PAGE);
        return FAILED;
      }
      PageOpened(old(spaces.m), m1, ow, spaces.m, spaces.ow, sid, va / PAGE, pa / PAGE);
    }

    /** `process_map_user_region`: on success every page up to the range's rounded end, none of them mapped before, is open
        to the user; on failure the pages before the first that cannot be opened are.  The whole range is mapped after
        success exactly when it does not end in the last page below 4 GiB: there the rounded end wraps to 0, nothing is
        mapped, and the call succeeds all the same. */
    method MapUserRegion(sid: Sid, va: nat, size: nat) returns (code: int)
      requires Valid() && sid in spaces.m.spaces && va < U32 && size < U32
      modifies spaces
      ensures Valid() && spaces.m.spaces.Keys == old(spaces.m.spaces.Keys) && Known() == old(Known())
      ensures code == OK || code == FAILED
      ensures size > 0 && va + size >= U32 ==> code == FAILED && spaces.m == old(spaces.m)
      ensures code == OK && size > 0 ==> Grew(old(spaces.m), spaces.m, sid, va / PAGE, AlignUp32(va + size) / PAGE)
      ensures code == OK && size > 0 ==> forall p :: va / PAGE <= p < AlignUp32(va + size) / PAGE ==> UserPage(p)
      ensures code == OK && size > 0 ==> Given(spaces.m, sid, va / PAGE, AlignUp32(va + size) / PAGE)
      ensures size == 0 ==> code == OK && spaces.m == old(spaces.m)
      ensures code == FAILED && va + size < U32 ==>
                Stopped(old(spaces.m), spaces.m, sid, va / PAGE, AlignUp32(va + size) / PAGE)
      ensures code == OK && size > 0 ==> (AllMapped(spaces.m, sid, va, size) <==> va + size <= 0xFFFF_F000)
      ensures size > 0 && 0xFFFF_F000 < va + size < U32 ==> code == OK && spaces.m == old(spaces.m)
      ensures va % PAGE == 0 && va + size <= 0xFFFF_F000 ==>
                |LowFree(spaces.m.free)| + 2 * ((size + 4095) / 4096) >= |LowFree(old(spaces.m.free))|
    {
      hide LowFree, Inv, Grew, AllMapped, DirsOpen, Given, Stopped;
      if size == 0 { return OK; }
      if (va + size) % U32 < va { return FAILED; }
      code := MapPages(sid, va / PAGE, AlignUp32(va + size) / PAGE);
      if code == OK { RegionMappedIff(old(spaces.m), spaces.m, sid, va, size); }
      if va % PAGE == 0 && va + size <= 0xFFFF_F000 { PageCount(va, size); }
    }

    /** A one-byte range in the last page below 4 GiB: the call reports success and maps nothing. */
    method MapLastPage(sid: Sid) returns (code: int)
      requires Valid() && sid in spaces.m.spaces
      modifies spaces
      ensures Valid() && code == OK && spaces.m == old(spaces.m) && !AllMapped(spaces.m, sid, 0xFFFF_F001, 1)
    {
      hide Inv, Grew, AllMapped;
      code := MapUserRegion(sid, 0xFFFF_F001, 1);
    }

    method MapPages(sid: Sid, first: nat, last: nat) returns (code: int)
      requires Valid() && sid in spaces.m.spaces && last < MAX_FRAMES
      modifies spaces
      ensures Valid() && spaces.m.spaces.Keys == old(spaces.m.spaces.Keys) && Known() == old(Known())
      ensures code == OK || code == FAILED
      ensures code == OK ==> Grew(old(spaces.m), spaces.m, sid, first, last)
      ensures code == OK ==> forall p :: first <= p < last ==> UserPage(p)
      ensures code == OK ==> Given(spaces.m, sid, first, last)
      ensures code == FAILED ==> Stopped(old(spaces.m), spaces.m, sid, first, last)
      ensures last <= first ==> code == OK && spaces.m == old(spaces.m)
      ensures first <= last ==> |LowFree(spaces.m.free)| + 2 * (last - first) >= |LowFree(old(spaces.m.free))|
    {
      hide LowFree, Inv, Grew, DirsOpen, Given, CanOpen;
      GrewNone(spaces.m, sid, first, first);
      GrewNone(spaces.m, sid, first, last);
      var k := first;
      while k < last
        invariant Valid() && spaces.m.spaces.Keys == old(spaces.m.spaces.Keys) && Known() == old(Known())
        invariant first <= k && (first <= last ==> k <= last) && Grew(old(spaces.m), spaces.m, sid, first, k)
        invariant (first >= last ==> spaces.m == old(spaces.m)) && forall p :: first <= p < k ==> UserPage(p)
        invariant |LowFree(spaces.m.free)| + 2 * (k - first) >= |LowFree(old(spaces.m.free))|
      {
        ghost var m1 := spaces.m;
        code := MapUserPage(sid, k * PAGE);
        if code != OK {
          assert StoppedAt(old(spaces.m), spaces.m, sid, first, k, last);
          return;
        }
        GrewMore(old(spaces.m), m1, spaces.m, sid, first, k);
        k := k + 1;
      }
      GrewGiven(old(spaces.m), spaces.m, sid, first, last);
      return OK;
    }
  }

  lemma PageCount(va: nat, size: nat)
    requires va % PAGE == 0 && va + size <= 0xFFFF_F000
    ensures AlignUp32(va + size) / PAGE - va / PAGE == (size + 4095) / 4096
  {
  }

  /** The pages a range touches are those from its first byte's up to its end rounded up, where that does not wrap. */
  lemma RangePages(va: nat, size: nat, x: nat)
    requires va <= x < va + size && va + size <= 0xFFFF_F000
    ensures va / PAGE <= x / PAGE < AlignUp32(va + size) / PAGE
  {
  }

  lemma RegionMappedIff(m: Machine, m': Machine, sid: Sid, va: nat, size: nat)
    requires size > 0 && va + size < U32 && Grew(m, m', sid, va / PAGE, AlignUp32(va + size) / PAGE)
    requires forall p :: va / PAGE <= p < AlignUp32(va + size) / PAGE ==> UserPage(p)
    ensures AllMapped(m', sid, va, size) <==> va + size <= 0xFFFF_F000
  {
    if va + size <= 0xFFFF_F000 {
      forall x: nat | va <= x < va + size ensures UserAddr(x) && IsMapped(m', sid, x) { RangePages(va, size, x); }
    } else {
      assert !UserAddr(va + size - 1);
    }
  }

  lemma GrewNone(m: Machine, sid: Sid, lo: nat, hi: nat)
    ensures hi <= lo ==> Grew(m, m, sid, lo, hi)
  {
  }
}
