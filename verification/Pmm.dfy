/** The physical page allocator: a bitmap with one bit per frame, and the set of free frames it stands for. */
module Pmm {
  import opened Base
  import opened Frames

  const BYTES: nat := MAX_FRAMES / 8
  const INVALID: nat := 0

  /** 1 << k */
  function Mask(k: nat): bv8
    requires k < 8
  {
    match k
    case 0 => 1 case 1 => 2 case 2 => 4 case 3 => 8
    case 4 => 16 case 5 => 32 case 6 => 64 case _ => 128
  }

  predicate Bit(b: bv8, k: nat)
    requires k < 8
  {
    b & Mask(k) != 0
  }

  lemma SetBit(b: bv8, k: nat, j: nat)
    requires k < 8 && j < 8
    ensures Bit(b | Mask(k), j) == (j == k || Bit(b, j))
  {
  }

  lemma ClearBit(b: bv8, k: nat, j: nat)
    requires k < 8 && j < 8
    ensures Bit(b & !Mask(k), j) == (j != k && Bit(b, j))
  {
  }

  lemma FullByte(j: nat)
    requires j < 8
    ensures Bit(0xFF, j)
  {
  }

  /** A frame's bit is clear exactly when the frame is free. */
  ghost predicate BitOk(bitmap: seq<bv8>, free: set<nat>, f: nat)
    requires |bitmap| == BYTES && f < MAX_FRAMES
  {
    f in free <==> !Bit(bitmap[f / 8], f % 8)
  }

  ghost predicate BitmapOk(bitmap: seq<bv8>, free: set<nat>) {
    && |bitmap| == BYTES
    && (forall f :: f in free ==> f < MAX_FRAMES)
    && (forall f :: 0 <= f < MAX_FRAMES ==> BitOk(bitmap, free, f))
  }

  lemma UsedKeeps(bitmap: seq<bv8>, free: set<nat>, f: nat)
    requires BitmapOk(bitmap, free) && f < MAX_FRAMES
    ensures BitmapOk(bitmap[f / 8 := bitmap[f / 8] | Mask(f % 8)], free - {f})
  {
    var r := bitmap[f / 8 := bitmap[f / 8] | Mask(f % 8)];
    forall g: nat | g < MAX_FRAMES ensures BitOk(r, free - {f}, g) {
      assert BitOk(bitmap, free, g);
      SetBit(bitmap[f / 8], f % 8, g % 8);
    }
  }

  lemma FreeKeeps(bitmap: seq<bv8>, free: set<nat>, f: nat)
    requires BitmapOk(bitmap, free) && f < MAX_FRAMES
    ensures BitmapOk(bitmap[f / 8 := bitmap[f / 8] & !Mask(f % 8)], free + {f})
  {
    var r := bitmap[f / 8 := bitmap[f / 8] & !Mask(f % 8)];
    forall g: nat | g < MAX_FRAMES ensures BitOk(r, free + {f}, g) {
      assert BitOk(bitmap, free, g);
      ClearBit(bitmap[f / 8], f % 8, g % 8);
    }
  }

  /** The scan of the contiguous allocator: behind the cursor lies a free run that cannot be extended downwards. */
  ghost predicate RunBehind(free: set<nat>, frame: nat, len: nat) {
    && len + LOW_FRAMES <= frame && RunFree(free, frame - len, len)
    && (frame - len == LOW_FRAMES || frame - len - 1 !in free)
  }

  lemma ExtendScan(free: set<nat>, frame: nat, len: nat, n: nat)
    requires RunBehind(free, frame, len) && NoRun(free, n, frame) && len < n
    ensures frame !in free ==> RunBehind(free, frame + 1, 0) && NoRun(free, n, frame + 1)
    ensures frame in free && len + 1 < n ==> RunBehind(free, frame + 1, len + 1) && NoRun(free, n, frame + 1)
    ensures frame in free && len + 1 == n ==> RunFree(free, frame - len, n)
  {
    if frame !in free || len + 1 < n {
      forall s | LOW_FRAMES <= s && s + n <= frame + 1 ensures !RunFree(free, s, n) {
        if s + n == frame + 1 {
          var gap := if frame !in free then frame else frame - len - 1;
          assert s <= gap < s + n && gap !in free;
        }
      }
    }
  }

  lemma NoFrames(lo: nat, hi: nat)
    ensures FrameRange(lo, lo) == {} && (hi <= lo ==> FrameRange(lo, hi) == {})
  {
  }

  lemma Remaining(a: set<nat>, b: set<nat>, c: set<nat>)
    ensures a - b - c == a - (b + c)
  {
  }

  datatype Panic = Unaligned | LowMemory | NullInfo | NoMap

  class FrameAllocator {
    const bitmap: array<bv8>
    var freeFrames: nat
    ghost var free: set<nat>

    ghost predicate Valid()
      reads this, bitmap
    {
      BitmapOk(bitmap[..], free) && freeFrames == |free|
    }

    /** No frame below 1 MiB is free, as `pmm_init` leaves it. */
    ghost predicate Ready()
      reads this, bitmap
    {
      Valid() && forall f :: f in free ==> f >= LOW_FRAMES
    }

    method Test(f: nat) returns (used: bool)
      requires Valid() && f < MAX_FRAMES
      ensures used == (f !in free)
    {
      used := Bit(bitmap[f / 8], f % 8);
      assert BitOk(bitmap[..], free, f);
    }

    method MarkUsed(f: nat)
      requires Valid()
      modifies this, bitmap
      ensures Valid() && free == old(free) - {f}
    {
      if f >= MAX_FRAMES { return; }
      var used := Test(f);
      if !used {
        UsedKeeps(bitmap[..], free, f);
        bitmap[f / 8] := bitmap[f / 8] | Mask(f % 8);
        free := free - {f};
        if freeFrames > 0 { freeFrames := freeFrames - 1; }
      }
    }

    method MarkFree(f: nat)
      requires Valid()
      modifies this, bitmap
      ensures Valid() && free == old(free) + (if f < MAX_FRAMES then {f} else {})
    {
      if f >= MAX_FRAMES { return; }
      var used := Test(f);
      if used {
        FreeKeeps(bitmap[..], free, f);
        bitmap[f / 8] := bitmap[f / 8] & !Mask(f % 8);
        free := free + {f};
        freeFrames := freeFrames + 1;
      }
    }

    // ------------------------------------------------ the allocators

    /** `pmm_alloc_page`: the lowest free frame from 1 MiB up. */
    method AllocPage() returns (addr: nat)
      requires Valid()
      modifies this, bitmap
      ensures Valid()
      ensures var f := FirstFree(old(free), 256, 0x10_0000);
              && addr == (if f < 0x10_0000 then f * PAGE else INVALID)
              && free == old(free) - {f}
      ensures old(Ready()) ==> Ready() && (addr == INVALID <==> old(freeFrames) == 0)
    {
      addr := ScanBelow(MAX_FRAMES);
      assert old(free) != {} ==> exists f :: f in old(free);
    }

    /** `pmm_alloc_page_below`: the lowest free frame from 1 MiB up whose number is below the limit's. */
    method AllocPageBelow(maxExclusive: nat) returns (addr: nat)
      requires Valid() && maxExclusive < U32
      modifies this, bitmap
      ensures Valid() && (old(Ready()) ==> Ready())
      ensures var f := FirstFree(old(free), LOW_FRAMES, Limit(maxExclusive));
              && addr == (if f < Limit(maxExclusive) then f * PAGE else INVALID)
              && free == (if f < Limit(maxExclusive) then old(free) - {f} else old(free))
      ensures addr != INVALID ==> addr + PAGE <= maxExclusive
    {
      var maxFrame := maxExclusive / PAGE;
      if maxFrame > MAX_FRAMES { maxFrame := MAX_FRAMES; }
      addr := ScanBelow(maxFrame);
    }

    method ScanBelow(maxFrame: nat) returns (addr: nat)
      requires Valid() && maxFrame <= MAX_FRAMES
      modifies this, bitmap
      ensures Valid()
      ensures var limit := if maxFrame < LOW_FRAMES then LOW_FRAMES else maxFrame;
              var f := FirstFree(old(free), LOW_FRAMES, limit);
              && addr == (if f < limit then f * PAGE else INVALID)
              && free == (if f < limit then old(free) - {f} else old(free))
    {
      var frame := LOW_FRAMES;
      while frame < maxFrame
        invariant LOW_FRAMES <= frame && Valid() && free == old(free)
        invariant maxFrame >= LOW_FRAMES ==>
          frame <= maxFrame && FirstFree(free, frame, maxFrame) == FirstFree(free, LOW_FRAMES, maxFrame)
      {
        var used := Test(frame);
        if !used {
          MarkUsed(frame);
          return frame * PAGE;
        }
        frame := frame + 1;
      }
      return INVALID;
    }

    /** `pmm_alloc_contiguous_pages_below`: exactly the n frames of the lowest free run, or nothing when there is none. */
    method AllocContiguousBelow(n: nat, maxExclusive: nat) returns (addr: nat)
      requires Valid() && n < U32 && maxExclusive < U32
      modifies this, bitmap
      ensures Valid() && (old(Ready()) ==> Ready())
      ensures addr == INVALID ==> free == old(free) && (n == 0 || NoRun(free, n, Limit(maxExclusive)))
      ensures addr != INVALID ==>
                && addr % PAGE == 0 && n > 0 && LowestRun(old(free), addr / PAGE, n, Limit(maxExclusive))
                && free == old(free) - FrameRange(addr / PAGE, addr / PAGE + n)
    {
      if n == 0 { return INVALID; }
      var maxFrame := maxExclusive / PAGE;
      if maxFrame > MAX_FRAMES { maxFrame := MAX_FRAMES; }
      var runStart, runLength, frame := 0, 0, LOW_FRAMES;
      while frame < maxFrame
        invariant LOW_FRAMES <= frame && (maxFrame >= LOW_FRAMES ==> frame <= maxFrame) && Valid() && free == old(free)
        invariant runLength < n && (runLength > 0 ==> runStart == frame - runLength)
        invariant RunBehind(free, frame, runLength) && NoRun(free, n, frame)
      {
        var used := Test(frame);
        ExtendScan(free, frame, runLength, n);
        if !used {
          if runLength == 0 { runStart := frame; }
          runLength := runLength + 1;
          if runLength == n {
            MarkRun(runStart, n);
            return runStart * PAGE;
          }
        } else {
          runStart, runLength := 0, 0;
        }
        frame := frame + 1;
      }
      return INVALID;
    }

    method MarkRun(start: nat, n: nat)
      requires Valid()
      modifies this, bitmap
      ensures Valid() && free == old(free) - FrameRange(start, start + n)
    {
      hide Valid;
      var i := 0;
      while i < n
        invariant i <= n && Valid() && free == old(free) - FrameRange(start, start + i)
      {
        MarkUsed(start + i);
        i := i + 1;
      }
    }

    /** `pmm_free_page`; freeing a frame that is already free changes nothing. */
    method FreePage(addr: nat) returns (panic: Option<Panic>)
      requires Valid() && addr < U32
      modifies this, bitmap
      ensures Valid() && (old(Ready()) ==> Ready())
      ensures panic == (if addr % PAGE != 0 then Some(Unaligned) else if addr < LOW_FRAMES * PAGE then Some(LowMemory) else None)
      ensures free == (if panic.None? then old(free) + {addr / PAGE} else old(free))
    {
      if addr % PAGE != 0 { return Some(Unaligned); }
      if addr < LOW_FRAMES * PAGE { return Some(LowMemory); }
      MarkFree(addr / PAGE);
      return None;
    }

    // ------------------------------------------------ initialisation

    /** `reserve_range`: the frames from the one start lies in up to end rounded up. */
    method ReserveRange(start: nat, end: nat)
      requires Valid() && start < U32 && end < U32
      modifies this, bitmap
      ensures Valid() && free == old(free) - Reserved(start, end)
    {
      hide Valid;
      ReservePages(start / PAGE, AlignUp32(end) / PAGE);
    }

    method ReservePages(first: nat, last: nat)
      requires Valid()
      modifies this, bitmap
      ensures Valid() && free == old(free) - FrameRange(first, last)
    {
      hide Valid, FrameRange;
      NoFrames(first, last);
      var addr := first * PAGE;
      ghost var k := first;
      PageOrder(k, last);
      while addr < last * PAGE
        invariant Valid() && addr == k * PAGE && k >= first && (addr < last * PAGE <==> k < last)
        invariant (k > first ==> k <= last) && free == old(free) - FrameRange(first, k)
      {
        PageNumber(k);
        MarkUsed(addr / PAGE);
        FrameRangeNext(first, k);
        Remaining(old(free), FrameRange(first, k), {k});
        addr := addr + PAGE;
        k := k + 1;
        PageOrder(k, last);
      }
    }

    /** `free_range`: the frames from start rounded up to end rounded down. */
    method FreeRange(start: nat, end: nat)
      requires Valid() && start < U32 && end < U32
      modifies this, bitmap
      ensures Valid() && free == old(free) + FrameRange(AlignUp32(start) / PAGE, end / PAGE)
    {
      hide Valid;
      FreePages(AlignUp32(start) / PAGE, end / PAGE);
    }

    method FreePages(first: nat, last: nat)
      requires Valid() && last <= MAX_FRAMES
      modifies this, bitmap
      ensures Valid() && free == old(free) + FrameRange(first, last)
    {
      hide Valid, FrameRange;
      NoFrames(first, last);
      var addr := first * PAGE;
      ghost var k := first;
      PageOrder(k, last);
      while addr < last * PAGE
        invariant Valid() && addr == k * PAGE && k >= first && (addr < last * PAGE <==> k < last)
        invariant (k > first ==> k <= last) && free == old(free) + FrameRange(first, k)
      {
        PageNumber(k);
        MarkFree(addr / PAGE);
        FrameRangeNext(first, k);
        Regroup(old(free), FrameRange(first, k), {k});
        addr := addr + PAGE;
        k := k + 1;
        PageOrder(k, last);
      }
    }

    method MarkAllUsed()
      requires bitmap.Length == BYTES
      modifies this, bitmap
      ensures Valid() && free == {}
    {
      var i := 0;
      while i < BYTES
        invariant i <= BYTES && forall j :: 0 <= j < i ==> bitmap[j] == 0xFF
      {
        bitmap[i] := 0xFF;
        i := i + 1;
      }
      freeFrames, free := 0, {};
      forall f: nat | f < MAX_FRAMES ensures BitOk(bitmap[..], {}, f) { FullByte(f % 8); }
    }

    /** `discover_from_mmap` */
    method Discover(mapAddr: nat, mapEnd: nat, entryAt: nat -> MapEntry)
      requires Valid() && NoWrap(entryAt, mapAddr, mapEnd)
      modifies this, bitmap
      ensures Valid() && free == old(free) + FreedBy(Walk(entryAt, mapAddr, mapEnd))
    {
      hide Valid, Freed, FrameRange;
      ghost var all := free + FreedBy(Walk(entryAt, mapAddr, mapEnd));
      var cursor := mapAddr;
      while cursor < mapEnd
        invariant Valid() && WalkFrees(entryAt, cursor, mapEnd, free, all)
        decreases U32 - cursor
      {
        WalkStep(entryAt, cursor, mapEnd, free, all);
        var e := entryAt(cursor);
        FreeEntry(e);
        cursor := cursor + e.size + 4;
      }
      WalkDone(entryAt, cursor, mapEnd, free, all);
    }

    method FreeEntry(e: MapEntry)
      requires Valid() && WellTyped(e)
      modifies this, bitmap
      ensures Valid() && free == old(free) + Freed(e)
    {
      hide Valid;
      if e.kind == AVAILABLE && e.base < U32 {
        var end := (e.base + e.length) % U64;
        var usableEnd := if end > U32 then U32 - 1 else end % U32;
        FreeRange(e.base, usableEnd);
      }
    }

    /** `reserve_kernel_and_boot_data`, one call of `reserve_range` for each range. */
    method ReserveRanges(rs: seq<(nat, nat)>)
      requires Valid() && forall r :: r in rs ==> r.0 < U32 && r.1 < U32
      modifies this, bitmap
      ensures Valid() && free == old(free) - ReservedBy(rs)
      decreases |rs|
    {
      hide Valid;
      if rs != [] {
        ReserveRange(rs[0].0, rs[0].1);
        ReserveRanges(rs[1..]);
        Remaining(old(free), Reserved(rs[0].0, rs[0].1), ReservedBy(rs[1..]));
      }
    }

    /** `pmm_init` */
    method Init(b: BootInfo, entryAt: nat -> MapEntry) returns (panic: Option<Panic>)
      requires bitmap.Length == BYTES && BootOk(b, entryAt)
      modifies this, bitmap
      ensures panic == (if b.info == 0 then Some(NullInfo) else if !b.hasMap then Some(NoMap) else None)
      ensures panic.None? ==> Ready() && free == FreeAtBoot(b, entryAt)
    {
      if b.info == 0 { return Some(NullInfo); }
      MarkAllUsed();
      if !b.hasMap { return Some(NoMap); }
      Discover(b.mapAddr, MapEnd(b), entryAt);
      ghost var freed := free;
      ReserveRanges(BootRanges(b));
      forall f | f in free ensures f >= LOW_FRAMES { BootKeepsLow(freed, b, f); }
      return None;
    }

    constructor ()
      ensures bitmap.Length == BYTES && fresh(bitmap)
    {
      bitmap := new bv8[BYTES];
      freeFrames, free := 0, {};
    }
  }

  /** The frame ends at or below the address. */
  predicate EndsBy(f: nat, end: nat) {
    (f + 1) * 4096 <= end
  }

  /** The first frame number the limited allocators do not look at. */
  function Limit(maxExclusive: nat): (l: nat)
    ensures l >= 256 && forall f: nat :: 256 <= f ==> (f < l <==> f < 0x10_0000 && EndsBy(f, maxExclusive))
  {
    var maxFrame := maxExclusive / PAGE;
    if maxFrame > MAX_FRAMES then MAX_FRAMES else if maxFrame < LOW_FRAMES then LOW_FRAMES else maxFrame
  }
}
