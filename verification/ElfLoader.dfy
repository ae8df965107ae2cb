/** Loading an executable into a process: regions mapped, bytes copied and cleared, entry and stack set. */
module ElfLoader {
  import opened Base
  import opened Frames
  import opened Paging
  import opened Access
  import opened AddressSpaces
  import opened UserMemory
  import opened Elf

  /** Read back through the page tables, the segment holds the image's bytes and then zeros. */
  ghost predicate SegmentLoaded(m: Machine, bytes: Bytes, sid: Sid, img: Image, ph: Phdr)
    requires LoadOk(ph, |img|)
  {
    forall x: nat :: ph.vaddr <= x < ph.vaddr + ph.memsz ==>
      UserAddr(x) && IsMapped(m, sid, x) && ByteAt(m, bytes, sid, x) == FileByte(img, ph, x - ph.vaddr)
  }

  function FileByte(img: Image, ph: Phdr, i: nat): nat
    requires LoadOk(ph, |img|)
  {
    if i < ph.filesz then img[ph.offset + i] else 0
  }

  ghost predicate StackClear(m: Machine, bytes: Bytes, sid: Sid) {
    forall x: nat :: 0x6FFF_F000 <= x < 0x7000_0000 ==>
      UserAddr(x) && IsMapped(m, sid, x) && ByteAt(m, bytes, sid, x) == 0
  }

  lemma SegmentStays(m: Machine, b: Bytes, m': Machine, b': Bytes, sid: Sid, img: Image, ph: Phdr)
    requires LoadOk(ph, |img|) && SegmentLoaded(m, b, sid, img, ph) && BytesKept(m, b, m', b')
    ensures SegmentLoaded(m', b', sid, img, ph)
  {
  }

  lemma StackStays(m: Machine, b: Bytes, m': Machine, b': Bytes, sid: Sid)
    requires StackClear(m, b, sid) && BytesKept(m, b, m', b')
    ensures StackClear(m', b', sid)
  {
  }

  lemma RoundedTwice(v: nat)
    requires v <= 0xFFFF_F000
    ensures AlignUp32(AlignUp32(v)) == AlignUp32(v)
  {
  }

  /** What filling a freshly mapped segment leaves. */
  lemma SegmentFilled(m: Machine, m1: Machine, b: Bytes, b1: Bytes, b2: Bytes, sid: Sid, img: Image, ph: Phdr)
    requires LoadOk(ph, |img|) && AllMapped(m1, sid, ph.vaddr, ph.memsz)
    requires Grew(m, m1, sid, ph.vaddr / PAGE, AlignUp32(ph.vaddr + ph.memsz) / PAGE)
    requires Stored(m1, b, b1, sid, ph.vaddr, img[ph.offset..ph.offset + ph.filesz])
    requires Stored(m1, b1, b2, sid, ph.vaddr + ph.filesz, Zeros(ph.memsz - ph.filesz))
    ensures SegmentLoaded(m1, b2, sid, img, ph) && BytesKept(m, b, m1, b2)
  {
    var lo, hi := ph.vaddr / PAGE, AlignUp32(ph.vaddr + ph.memsz) / PAGE;
    forall x: nat | ph.vaddr <= x < ph.vaddr + ph.memsz
      ensures lo <= x / PAGE < hi && ByteAt(m1, b2, sid, x) == FileByte(img, ph, x - ph.vaddr)
    {
      RangePages(ph.vaddr, ph.memsz, x);
    }
    StoredKeeps(m, m1, b, b1, sid, lo, hi, ph.vaddr, img[ph.offset..ph.offset + ph.filesz]);
    StoredKeepsAgain(m, m1, b, b1, b2, sid, lo, hi, ph.vaddr + ph.filesz, Zeros(ph.memsz - ph.filesz));
  }

  lemma StoredKeepsAgain(m: Machine, m1: Machine, b: Bytes, b1: Bytes, b2: Bytes, sid: Sid, lo: nat, hi: nat, va: nat, data: seq<nat>)
    requires Grew(m, m1, sid, lo, hi) && BytesKept(m, b, m1, b1) && Stored(m1, b1, b2, sid, va, data)
    requires forall x: nat :: va <= x < va + |data| ==> lo <= x / PAGE < hi
    ensures BytesKept(m, b, m1, b2)
  {
    StoredKeeps(m, m1, b1, b2, sid, lo, hi, va, data);
    GrewKeeps(m, m1, b1, sid, lo, hi);
  }

  /** No page of the segment was mapped. */
  ghost predicate WasUnmapped(m: Machine, sid: Sid, ph: Phdr) {
    forall x: nat :: ph.vaddr <= x < ph.vaddr + ph.memsz ==> !IsMapped(m, sid, x)
  }

  lemma SegmentWasUnmapped(m: Machine, m1: Machine, sid: Sid, size: nat, ph: Phdr)
    requires LoadOk(ph, size) && Grew(m, m1, sid, ph.vaddr / PAGE, AlignUp32(ph.vaddr + ph.memsz) / PAGE)
    requires AllMapped(m1, sid, ph.vaddr, ph.memsz)
    ensures WasUnmapped(m, sid, ph)
  {
    forall x: nat | ph.vaddr <= x < ph.vaddr + ph.memsz ensures !IsMapped(m, sid, x) {
      RangePages(ph.vaddr, ph.memsz, x);
      assert UserAddr(x);
    }
  }

  ghost predicate OffStack(ph: Phdr) {
    ph.vaddr + ph.memsz <= STACK_TOP - STACK_BYTES || STACK_TOP <= ph.vaddr
  }

  /** A segment loaded where the stack page was already mapped lies clear of it. */
  lemma UnmappedIsOffStack(m: Machine, bytes: Bytes, sid: Sid, size: nat, ph: Phdr)
    requires LoadOk(ph, size) && WasUnmapped(m, sid, ph) && StackClear(m, bytes, sid)
    ensures OffStack(ph)
  {
    var x := if ph.vaddr < STACK_TOP - STACK_BYTES then STACK_TOP - STACK_BYTES else ph.vaddr;
    assert STACK_TOP - STACK_BYTES <= x < STACK_TOP ==> IsMapped(m, sid, x);
  }

  // ------------------------------------------------ the whole image

  ghost predicate HeadersOk(img: Image, n: nat)
    requires HeaderOk(img) && n <= PhNum(img)
  {
    forall i: nat :: i < n ==> PhdrAt(img, i).kind != PT_LOAD || LoadOk(PhdrAt(img, i), |img|)
  }

  /** What the loader demands of an image before it touches the process. */
  ghost predicate ImageOk(img: Image) {
    HeaderOk(img) && HeadersOk(img, PhNum(img)) && exists i: nat :: i < PhNum(img) && PhdrAt(img, i).kind == PT_LOAD
  }

  ghost predicate SegmentsLoaded(m: Machine, bytes: Bytes, sid: Sid, img: Image, n: nat)
    requires HeaderOk(img) && n <= PhNum(img) && HeadersOk(img, PhNum(img))
  {
    forall i: nat :: i < n && PhdrAt(img, i).kind == PT_LOAD ==> SegmentLoaded(m, bytes, sid, img, PhdrAt(img, i))
  }

  ghost predicate SegmentsOffStack(img: Image, n: nat)
    requires HeaderOk(img) && n <= PhNum(img)
  {
    forall i: nat :: i < n && PhdrAt(img, i).kind == PT_LOAD ==> OffStack(PhdrAt(img, i))
  }

  lemma SegmentsStay(m: Machine, b: Bytes, m': Machine, b': Bytes, sid: Sid, img: Image, n: nat)
    requires HeaderOk(img) && n <= PhNum(img) && HeadersOk(img, PhNum(img))
    requires SegmentsLoaded(m, b, sid, img, n) && BytesKept(m, b, m', b')
    ensures SegmentsLoaded(m', b', sid, img, n)
  {
    forall i: nat | i < n && PhdrAt(img, i).kind == PT_LOAD ensures SegmentLoaded(m', b', sid, img, PhdrAt(img, i)) {
      SegmentStays(m, b, m', b', sid, img, PhdrAt(img, i));
    }
  }

  // ------------------------------------------------ the pages an image takes

  const STACK_PAGE: nat := 0x6_FFFF

  /** Page p holds a byte of the i-th segment. */
  ghost predicate SegmentPage(img: Image, i: nat, p: nat)
    requires HeaderOk(img)
  {
    && i < PhNum(img) && PhdrAt(img, i).kind == PT_LOAD
    && PhdrAt(img, i).vaddr < (p + 1) * 4096 && p * 4096 < PhdrAt(img, i).vaddr + PhdrAt(img, i).memsz
  }

  /** Page p holds the stack or a byte of one of the first n segments. */
  ghost predicate Claims(img: Image, n: nat, p: nat)
    requires HeaderOk(img)
  {
    p == STACK_PAGE || exists i: nat :: i < n && SegmentPage(img, i, p)
  }

  /** The i-th segment wants page p, which was mapped before the call or holds the stack or part of an earlier segment. */
  ghost predicate ClashAt(m: Machine, sid: Sid, img: Image, i: nat, p: nat)
    requires HeaderOk(img)
  {
    SegmentPage(img, i, p) && (m.Lookup(sid, p).Some? || Claims(img, i, p))
  }

  /** The image cannot be loaded into this space, whatever memory there is. */
  ghost predicate Clash(m: Machine, sid: Sid, img: Image)
    requires HeaderOk(img)
  {
    m.Lookup(sid, STACK_PAGE).Some? || exists i: nat, p: nat :: ClashAt(m, sid, img, i, p)
  }

  /** The pages the loadable segments among the first n take. */
  ghost function PagesOfSegments(img: Image, n: nat): nat
    requires HeaderOk(img) && n <= PhNum(img)
  {
    if n == 0 then 0
    else PagesOfSegments(img, n - 1)
         + if PhdrAt(img, n - 1).kind == PT_LOAD then (PhdrAt(img, n - 1).memsz + 4095) / 4096 else 0
  }

  lemma {:induction false} MorePages(img: Image, i: nat, n: nat)
    requires HeaderOk(img) && i <= n <= PhNum(img)
    ensures PagesOfSegments(img, i) <= PagesOfSegments(img, n)
    decreases n
  {
    if i < n { MorePages(img, i, n - 1); }
  }

  lemma PagesNext(img: Image, i: nat)
    requires HeaderOk(img) && i < PhNum(img)
    ensures PagesOfSegments(img, i + 1)
            == PagesOfSegments(img, i) + if PhdrAt(img, i).kind == PT_LOAD then (PhdrAt(img, i).memsz + 4095) / 4096 else 0
    ensures PagesOfSegments(img, 0) == 0
  {
  }

  /** Some user page has no frame left for it. */
  ghost predicate OutOfMemory(m: Machine, sid: Sid) {
    sid in m.spaces && exists p: nat :: UserPage(p) && NoFrameFor(m, sid, p)
  }

  /** Exactly the pages claimed were unmapped and now are open; the space's other user translations are as they were. */
  ghost predicate Claimed(m: Machine, m': Machine, sid: Sid, img: Image, n: nat)
    requires HeaderOk(img)
  {
    forall p: nat :: UserPage(p) ==>
      if Claims(img, n, p) then m.Lookup(sid, p) == None && Open(m'.Lookup(sid, p)) else m'.Lookup(sid, p) == m.Lookup(sid, p)
  }

  lemma StackClaimed(m: Machine, m': Machine, sid: Sid, img: Image)
    requires HeaderOk(img) && Grew(m, m', sid, STACK_PAGE, STACK_PAGE + 1)
    ensures Claimed(m, m', sid, img, 0)
  {
  }

  /** The rounded bounds of a segment enclose exactly its pages. */
  lemma PagesOf(img: Image, i: nat, p: nat)
    requires HeaderOk(img) && i < PhNum(img) && PhdrAt(img, i).kind == PT_LOAD && LoadOk(PhdrAt(img, i), |img|)
    ensures var ph := PhdrAt(img, i);
            SegmentPage(img, i, p) <==> ph.vaddr / PAGE <= p < AlignUp32(ph.vaddr + ph.memsz) / PAGE
    ensures SegmentPage(img, i, p) ==> UserPage(p)
  {
  }

  lemma ClaimsNext(img: Image, i: nat, p: nat)
    requires HeaderOk(img) && i < PhNum(img)
    ensures Claims(img, i + 1, p) <==> Claims(img, i, p) || SegmentPage(img, i, p)
  {
  }

  lemma SegmentClaimed(m0: Machine, m: Machine, m': Machine, sid: Sid, img: Image, i: nat)
    requires HeaderOk(img) && i < PhNum(img) && PhdrAt(img, i).kind == PT_LOAD && LoadOk(PhdrAt(img, i), |img|)
    requires Claimed(m0, m, sid, img, i)
    requires var ph := PhdrAt(img, i); Grew(m, m', sid, ph.vaddr / PAGE, AlignUp32(ph.vaddr + ph.memsz) / PAGE)
    ensures Claimed(m0, m', sid, img, i + 1) && forall p: nat :: !ClashAt(m0, sid, img, i, p)
  {
    hide SegmentPage, Claims;
    forall p: nat
      ensures UserPage(p) ==>
                if Claims(img, i + 1, p) then m0.Lookup(sid, p) == None && Open(m'.Lookup(sid, p))
                else m'.Lookup(sid, p) == m0.Lookup(sid, p)
      ensures !ClashAt(m0, sid, img, i, p)
    {
      PagesOf(img, i, p);
      ClaimsNext(img, i, p);
    }
  }

  lemma NothingClaimed(m0: Machine, m: Machine, sid: Sid, img: Image, i: nat)
    requires HeaderOk(img) && i < PhNum(img) && PhdrAt(img, i).kind != PT_LOAD && Claimed(m0, m, sid, img, i)
    ensures Claimed(m0, m, sid, img, i + 1) && forall p: nat :: !ClashAt(m0, sid, img, i, p)
  {
    hide Claims;
    forall p: nat ensures Claims(img, i + 1, p) == Claims(img, i, p) && !SegmentPage(img, i, p) { ClaimsNext(img, i, p); }
  }

  /** Why a segment could not be mapped. */
  lemma SegmentRefused(m0: Machine, m: Machine, m': Machine, sid: Sid, img: Image, i: nat)
    requires HeaderOk(img) && i < PhNum(img) && PhdrAt(img, i).kind == PT_LOAD && LoadOk(PhdrAt(img, i), |img|)
    requires Claimed(m0, m, sid, img, i)
    requires var ph := PhdrAt(img, i); Stopped(m, m', sid, ph.vaddr / PAGE, AlignUp32(ph.vaddr + ph.memsz) / PAGE)
    ensures Clash(m0, sid, img) || OutOfMemory(m', sid)
  {
    hide SegmentPage, Claims, NoFrameFor;
    var ph := PhdrAt(img, i);
    var lo, hi := ph.vaddr / PAGE, AlignUp32(ph.vaddr + ph.memsz) / PAGE;
    var k :| StoppedAt(m, m', sid, lo, k, hi);
    PagesOf(img, i, k);
    assert m'.Lookup(sid, k) == m.Lookup(sid, k);
    if m.Lookup(sid, k).Some? { assert ClashAt(m0, sid, img, i, k); }
  }

  lemma ClaimedGiven(m: Machine, m': Machine, sid: Sid, img: Image, p: nat)
    requires HeaderOk(img) && HeadersOk(img, PhNum(img)) && DirsOpen(m') && Claimed(m, m', sid, img, PhNum(img))
    ensures Claims(img, PhNum(img), p) ==> UserMay(m', sid, p, true)
  {
    if Claims(img, PhNum(img), p) {
      if p != STACK_PAGE {
        var i: nat :| i < PhNum(img) && SegmentPage(img, i, p);
        PagesOf(img, i, p);
      }
      TableEntryDecides(m', sid, p, true);
    }
  }

  lemma HeaderFields(img: Image, i: nat)
    requires IsImage(img) && HeaderOk(img) && i < PhNum(img)
    ensures var ph := PhdrAt(img, i); ph.offset < U32 && ph.vaddr < U32 && ph.filesz < U32 && ph.memsz < U32
  {
    var o := PhOff(img) + PHDR_BYTES * i;
    FieldBounds(img, o + 4);
    FieldBounds(img, o + 8);
    FieldBounds(img, o + 16);
    FieldBounds(img, o + 20);
  }

  class Process {
    const memory: ProcessMemory
    const sid: Sid
    var codeBase: nat
    var userEntry: nat
    var stackBase: nat
    var stackTop: nat
    var initialEsp: nat

    ghost predicate Valid()
      reads this, memory, memory.spaces
    {
      memory.Valid() && sid in memory.spaces.m.spaces
    }

    /** How many frames are free below 16 MiB. */
    ghost function LowFrames(): nat
      reads this, memory, memory.spaces
    {
      |LowFree(memory.spaces.m.free)|
    }

    /** `process_create_empty`, over an address space already created. */
    constructor (mem: ProcessMemory, space: Sid)
      requires mem.Valid() && space in mem.spaces.m.spaces
      ensures Valid() && memory == mem && sid == space
    {
      memory, sid := mem, space;
      codeBase, userEntry, stackBase, stackTop, initialEsp := 0, 0, 0, 0, 0;
    }

    /** A region mapped for the first time: everything mapped before reads as before. */
    method MapRegion(va: nat, size: nat) returns (code: int)
      requires Valid() && va < U32 && 0 < size && va + size <= 0xFFFF_F000 && va % PAGE == 0
      modifies memory.spaces
      ensures Valid() && (code == OK || code == FAILED) && memory.Known() == old(memory.Known())
      ensures BytesKept(old(memory.spaces.m), memory.bytes, memory.spaces.m, memory.bytes)
      ensures code == FAILED ==> Stopped(old(memory.spaces.m), memory.spaces.m, sid, va / PAGE, AlignUp32(va + size) / PAGE)
      ensures code == OK ==> AllMapped(memory.spaces.m, sid, va, size)
      ensures code == OK ==> Grew(old(memory.spaces.m), memory.spaces.m, sid, va / PAGE, AlignUp32(va + size) / PAGE)
      ensures LowFrames() + 2 * ((size + 4095) / 4096) >= old(LowFrames())
    {
      hide LowFree, Inv;
      code := memory.MapUserRegion(sid, va, size);
      ghost var m, m1 := old(memory.spaces.m), memory.spaces.m;
      if code == FAILED {
        ghost var k :| StoppedAt(m, m1, sid, va / PAGE, k, AlignUp32(va + size) / PAGE);
        GrewKeeps(m, m1, memory.bytes, sid, va / PAGE, k);
        return;
      }
      GrewKeeps(m, m1, memory.bytes, sid, va / PAGE, AlignUp32(va + size) / PAGE);
    }

    /** `load_segment` */
    method LoadSegment(img: Image, ph: Phdr) returns (code: int)
      requires Valid() && LoadOk(ph, |img|)
      modifies memory, memory.spaces
      ensures Valid() && (code == OK || code == ERR_LOAD_FAILED) && memory.Known() == old(memory.Known())
      ensures BytesKept(old(memory.spaces.m), old(memory.bytes), memory.spaces.m, memory.bytes)
      ensures code == OK ==> SegmentLoaded(memory.spaces.m, memory.bytes, sid, img, ph)
      ensures code == OK ==> WasUnmapped(old(memory.spaces.m), sid, ph)
      ensures var lo, hi := ph.vaddr / PAGE, AlignUp32(ph.vaddr + ph.memsz) / PAGE;
              if code == OK then Grew(old(memory.spaces.m), memory.spaces.m, sid, lo, hi)
              else Stopped(old(memory.spaces.m), memory.spaces.m, sid, lo, hi)
      ensures LowFrames() + 2 * ((ph.memsz + 4095) / 4096) >= old(LowFrames())
    {
      hide LowFree, Inv, Grew, Stored, BytesKept, SegmentLoaded, Stopped, DirsOpen;
      var start := ph.vaddr / PAGE * PAGE;
      var size := AlignUp32(ph.vaddr + ph.memsz) - start;
      RoundedTwice(ph.vaddr + ph.memsz);
      PageCount(ph.vaddr, ph.memsz);
      PageCount(start, size);
      code := MapRegion(start, size);
      if code != OK { return ERR_LOAD_FAILED; }
      ghost var b := memory.bytes;
      memory.Store(sid, ph.vaddr, img[ph.offset..ph.offset + ph.filesz]);
      ghost var b1 := memory.bytes;
      if ph.memsz > ph.filesz {
        memory.Clear(sid, ph.vaddr + ph.filesz, ph.memsz - ph.filesz);
      } else {
        NothingStored(memory.spaces.m, b1, sid, ph.vaddr + ph.filesz);
      }
      SegmentFilled(old(memory.spaces.m), memory.spaces.m, b, b1, memory.bytes, sid, img, ph);
      SegmentWasUnmapped(old(memory.spaces.m), memory.spaces.m, sid, |img|, ph);
    }

    /** The first half of `elf_load_process`: nothing is touched before every header is accepted. */
    method ValidateImage(img: Image) returns (code: int)
      requires IsImage(img)
      ensures code == OK <==> ImageOk(img)
      ensures code in {OK, ERR_INVALID, ERR_UNSUPPORTED, ERR_TOO_LARGE}
    {
      HeaderOkIff(img);
      code := ValidateHeader(img);
      if code != OK { return; }
      var sawLoad := false;
      var i := 0;
      while i < PhNum(img)
        invariant i <= PhNum(img) && HeadersOk(img, i)
        invariant sawLoad <==> exists j: nat :: j < i && PhdrAt(img, j).kind == PT_LOAD
      {
        var ph := PhdrAt(img, i);
        HeaderFields(img, i);
        SegmentOkIff(ph, |img|);
        code := ValidateSegment(ph, |img|);
        if code != OK { return; }
        if ph.kind == PT_LOAD { sawLoad := true; }
        i := i + 1;
      }
      return if sawLoad then OK else ERR_INVALID;
    }

    /** The stack page of `elf_load_process`. */
    method MapStack() returns (code: int)
      requires Valid()
      modifies memory, memory.spaces, this`stackBase, this`stackTop, this`initialEsp
      ensures Valid() && (code == OK || code == ERR_LOAD_FAILED) && memory.Known() == old(memory.Known())
      ensures BytesKept(old(memory.spaces.m), old(memory.bytes), memory.spaces.m, memory.bytes)
      ensures code == OK ==> StackClear(memory.spaces.m, memory.bytes, sid) && StackSet()
      ensures if code == OK then Grew(old(memory.spaces.m), memory.spaces.m, sid, STACK_PAGE, STACK_PAGE + 1)
              else Stopped(old(memory.spaces.m), memory.spaces.m, sid, STACK_PAGE, STACK_PAGE + 1)
      ensures LowFrames() + 2 >= old(LowFrames())
    {
      hide LowFree, Inv, Grew, BytesKept, Stopped, DirsOpen;
      var base := STACK_TOP - STACK_BYTES;
      code := MapRegion(base, STACK_BYTES);
      if code != OK { return ERR_LOAD_FAILED; }
      ghost var b := memory.bytes;
      memory.Clear(sid, base, STACK_BYTES);
      forall x: nat | base <= x < base + STACK_BYTES ensures base / PAGE <= x / PAGE < AlignUp32(base + STACK_BYTES) / PAGE {
        RangePages(base, STACK_BYTES, x);
      }
      StoredKeeps(old(memory.spaces.m), memory.spaces.m, b, memory.bytes, sid, base / PAGE,
                  AlignUp32(base + STACK_BYTES) / PAGE, base, Zeros(STACK_BYTES));
      stackBase, stackTop, initialEsp := base, STACK_TOP, STACK_TOP;
    }

    ghost predicate StackSet()
      reads this
    {
      stackBase == 0x6FFF_F000 && stackTop == 0x7000_0000 && initialEsp == 0x7000_0000
    }

    /** The second loop of `elf_load_process`; `m0` is the machine before the stack was mapped. */
    method LoadSegments(img: Image, ghost m0: Machine) returns (code: int)
      requires Valid() && HeaderOk(img) && HeadersOk(img, PhNum(img)) && StackClear(memory.spaces.m, memory.bytes, sid)
      requires Claimed(m0, memory.spaces.m, sid, img, 0)
      modifies memory, memory.spaces
      ensures Valid() && (code == OK || code == ERR_LOAD_FAILED) && memory.Known() == old(memory.Known())
      ensures BytesKept(old(memory.spaces.m), old(memory.bytes), memory.spaces.m, memory.bytes)
      ensures StackClear(memory.spaces.m, memory.bytes, sid)
      ensures code == OK ==> SegmentsLoaded(memory.spaces.m, memory.bytes, sid, img, PhNum(img)) && SegmentsOffStack(img, PhNum(img))
      ensures code == OK ==> Claimed(m0, memory.spaces.m, sid, img, PhNum(img)) && NoClashBelow(m0, sid, img, PhNum(img))
      ensures code != OK ==> Clash(m0, sid, img) || OutOfMemory(memory.spaces.m, sid)
      ensures LowFrames() + 2 * PagesOfSegments(img, PhNum(img)) >= old(LowFrames())
    {
      hide LowFree, Inv, BytesKept, SegmentLoaded, StackClear, WasUnmapped, OffStack, Claimed, ClashAt, Grew, Stopped, Clash,
           OutOfMemory, DirsOpen, PagesOfSegments, NoClashBelow, SegmentsLoaded, SegmentsOffStack;
      KeptStart(memory.spaces.m, memory.bytes);
      NoneYet(m0, memory.spaces.m, memory.bytes, sid, img);
      var i := 0;
      while i < PhNum(img)
        invariant i <= PhNum(img) && Valid() && memory.Known() == old(memory.Known())
        invariant BytesKept(old(memory.spaces.m), old(memory.bytes), memory.spaces.m, memory.bytes)
        invariant StackClear(memory.spaces.m, memory.bytes, sid)
        invariant SegmentsLoaded(memory.spaces.m, memory.bytes, sid, img, i) && SegmentsOffStack(img, i)
        invariant Claimed(m0, memory.spaces.m, sid, img, i) && NoClashBelow(m0, sid, img, i)
        invariant LowFrames() + 2 * PagesOfSegments(img, i) >= old(LowFrames())
      {
        var ph := PhdrAt(img, i);
        PagesNext(img, i);
        MorePages(img, i + 1, PhNum(img));
        if ph.kind == PT_LOAD {
          ghost var m, b := memory.spaces.m, memory.bytes;
          code := LoadSegment(img, ph);
          KeptTransitive(old(memory.spaces.m), old(memory.bytes), m, b, memory.spaces.m, memory.bytes);
          StackStays(m, b, memory.spaces.m, memory.bytes, sid);
          if code != OK { SegmentRefused(m0, m, memory.spaces.m, sid, img, i); return; }
          UnmappedIsOffStack(m, b, sid, |img|, ph);
          SegmentsStay(m, b, memory.spaces.m, memory.bytes, sid, img, i);
          SegmentClaimed(m0, m, memory.spaces.m, sid, img, i);
        } else {
          NothingClaimed(m0, memory.spaces.m, sid, img, i);
        }
        OneMore(m0, memory.spaces.m, memory.bytes, sid, img, i);
        i := i + 1;
      }
      return OK;
    }

    /** `elf_load_process`.  On success every loadable segment, read back through the page tables, holds its bytes of the
        image followed by zeros, all of them at once, the stack page is zero, and the user may read and write all these
        pages.  Whatever it returns, no byte that was mapped before, in this process or any other, has changed, and no
        frame is lost.  It fails exactly for an image that is refused, one whose pages clash, an entry point outside user
        memory, or for want of memory. */
    method Load(img: Image) returns (code: int)
      requires Valid() && IsImage(img)
      modifies this, memory, memory.spaces
      ensures Valid() && BytesKept(old(memory.spaces.m), old(memory.bytes), memory.spaces.m, memory.bytes)
      ensures memory.Known() == old(memory.Known())
      ensures !ImageOk(img) ==> code !in {OK, ERR_LOAD_FAILED} && memory.spaces.m == old(memory.spaces.m) && memory.bytes == old(memory.bytes)
      ensures ImageOk(img) && Clash(old(memory.spaces.m), sid, img) ==> code == ERR_LOAD_FAILED
      ensures ImageOk(img) && !Clash(old(memory.spaces.m), sid, img) ==>
                || code == (if 0x0100_0000 <= Entry32(img) < 0xC000_0000 then OK else ERR_INVALID)
                || (code == ERR_LOAD_FAILED && OutOfMemory(memory.spaces.m, sid))
      ensures ImageOk(img) && old(LowFrames()) >= 2 * (PagesOfSegments(img, PhNum(img)) + 2) ==> !OutOfMemory(memory.spaces.m, sid)
      ensures code == OK ==>
                && HeaderOk(img) && HeadersOk(img, PhNum(img)) && USER_BASE <= Entry32(img) < USER_TOP
                && SegmentsLoaded(memory.spaces.m, memory.bytes, sid, img, PhNum(img)) && SegmentsOffStack(img, PhNum(img))
                && StackClear(memory.spaces.m, memory.bytes, sid) && StackSet() && userEntry == codeBase == Entry32(img)
                && (forall p: nat :: Claims(img, PhNum(img), p) ==> UserMay(memory.spaces.m, sid, p, true))
    {
      hide Inv, BytesKept, SegmentsLoaded, StackClear, HeadersOk, SegmentsOffStack, Claimed, Claims, Clash, Grew, Stopped,
           OutOfMemory, DirsOpen, NoClashBelow, UserMay, LowFree, PagesOfSegments;
      KeptStart(memory.spaces.m, memory.bytes);
      code := ValidateImage(img);
      if code != OK { return; }
      code := MapStack();
      ghost var m0 := old(memory.spaces.m);
      PlentyLeft(memory.spaces.m, sid);
      if code != OK { StackRefused(m0, memory.spaces.m, sid, img); return; }
      ghost var m, b := memory.spaces.m, memory.bytes;
      StackClaimed(m0, m, sid, img);
      code := LoadSegments(img, m0);
      PlentyLeft(memory.spaces.m, sid);
      KeptTransitive(old(memory.spaces.m), old(memory.bytes), m, b, memory.spaces.m, memory.bytes);
      if code != OK { return; }
      NeverClashed(m0, m, sid, img);
      if Entry32(img) < USER_BASE || Entry32(img) >= USER_TOP { return ERR_INVALID; }
      codeBase := Entry32(img);
      userEntry := Entry32(img);
      forall p: nat ensures Claims(img, PhNum(img), p) ==> UserMay(memory.spaces.m, sid, p, true) {
        ClaimedGiven(m0, memory.spaces.m, sid, img, p);
      }
    }
  }

  lemma PlentyLeft(m: Machine, sid: Sid)
    ensures |LowFree(m.free)| >= 2 ==> !OutOfMemory(m, sid)
  {
    hide LowFree;
    if |LowFree(m.free)| >= 2 { TwoLow(m.free, FirstFree(m.free, 256, 0x10_0000)); }
  }

  ghost predicate NoClashBelow(m: Machine, sid: Sid, img: Image, n: nat)
    requires HeaderOk(img)
  {
    forall i: nat, p: nat :: i < n ==> !ClashAt(m, sid, img, i, p)
  }

  lemma NoneYet(m0: Machine, m: Machine, bytes: Bytes, sid: Sid, img: Image)
    requires HeaderOk(img) && HeadersOk(img, PhNum(img))
    ensures SegmentsLoaded(m, bytes, sid, img, 0) && SegmentsOffStack(img, 0) && NoClashBelow(m0, sid, img, 0)
    ensures PagesOfSegments(img, 0) == 0
  {
  }

  lemma OneMore(m0: Machine, m: Machine, bytes: Bytes, sid: Sid, img: Image, i: nat)
    requires HeaderOk(img) && HeadersOk(img, PhNum(img)) && i < PhNum(img)
    requires SegmentsLoaded(m, bytes, sid, img, i) && SegmentsOffStack(img, i) && NoClashBelow(m0, sid, img, i)
    requires PhdrAt(img, i).kind == PT_LOAD ==> SegmentLoaded(m, bytes, sid, img, PhdrAt(img, i)) && OffStack(PhdrAt(img, i))
    requires forall p: nat :: !ClashAt(m0, sid, img, i, p)
    ensures SegmentsLoaded(m, bytes, sid, img, i + 1) && SegmentsOffStack(img, i + 1) && NoClashBelow(m0, sid, img, i + 1)
  {
    hide SegmentLoaded, OffStack, ClashAt;
  }

  lemma NeverClashed(m: Machine, m1: Machine, sid: Sid, img: Image)
    requires HeaderOk(img) && NoClashBelow(m, sid, img, PhNum(img)) && Grew(m, m1, sid, STACK_PAGE, STACK_PAGE + 1)
    ensures !Clash(m, sid, img)
  {
    assert UserPage(STACK_PAGE);
  }

  lemma StackRefused(m: Machine, m': Machine, sid: Sid, img: Image)
    requires HeaderOk(img) && Stopped(m, m', sid, STACK_PAGE, STACK_PAGE + 1)
    ensures Clash(m, sid, img) || OutOfMemory(m', sid)
  {
    hide NoFrameFor;
    var k :| StoppedAt(m, m', sid, STACK_PAGE, k, STACK_PAGE + 1);
    assert k == STACK_PAGE && UserPage(k) && m'.Lookup(sid, k) == m.Lookup(sid, k);
  }

  lemma KeptStart(m: Machine, bytes: Bytes)
    ensures BytesKept(m, bytes, m, bytes)
  {
  }

  lemma NothingStored(m: Machine, bytes: Bytes, sid: Sid, va: nat)
    ensures Stored(m, bytes, bytes, sid, va, Zeros(0))
  {
  }
}
