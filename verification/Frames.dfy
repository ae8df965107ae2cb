/** Physical memory: page frames, the boot memory map, and the sets of frames that ranges of addresses stand for. */
module Frames {
  import opened Base

  const MAX_FRAMES: nat := 0x10_0000
  const LOW_FRAMES: nat := 256
  const U64: nat := 0x1_0000_0000_0000_0000

  lemma Quotient(w: nat, d: nat, q: nat, r: nat)
    requires d > 0 && r < d && w == d * q + r
    ensures w / d == q && w % d == r
  {
    var k := w / d;
    assert k > q ==> d * k >= d * (q + 1);
    assert k < q ==> d * (k + 1) <= d * q;
  }

  lemma PageNumber(k: nat)
    ensures k * PAGE / PAGE == k && k * PAGE % PAGE == 0
  {
    Quotient(k * PAGE, PAGE, k, 0);
  }

  lemma PageOrder(k: nat, n: nat)
    ensures k * PAGE < n * PAGE <==> k < n
  {
  }

  /** `align_up_page`, in 32 bits. */
  function AlignUp32(v: nat): (r: nat)
    ensures r % PAGE == 0 && r < U32
    ensures v <= 0xFFFF_F000 ==> v <= r < v + PAGE
    ensures 0xFFFF_F000 < v < U32 ==> r == 0
  {
    (v + PAGE - 1) % U32 / PAGE * PAGE
  }

  predicate Between(f: nat, lo: nat, hi: nat) {
    lo <= f < hi
  }

  /** The frames numbered lo up to but excluding hi. */
  function FrameRange(lo: nat, hi: nat): (s: set<nat>)
    ensures forall f :: f in s <==> lo <= f < hi
  {
    set f: nat | f < hi && Between(f, lo, hi)
  }

  lemma FrameRangeNext(lo: nat, hi: nat)
    requires lo <= hi
    ensures FrameRange(lo, hi + 1) == FrameRange(lo, hi) + {hi}
  {
  }

  // ------------------------------------------------ what the scanning allocators look for

  /** The first frame of the set in [from, limit), or limit. */
  function FirstFree(free: set<nat>, from: nat, limit: nat): (f: nat)
    requires from <= limit
    ensures from <= f <= limit && (f < limit ==> f in free)
    ensures forall g :: from <= g < f ==> g !in free
    decreases limit - from
  {
    if from == limit || from in free then from else FirstFree(free, from + 1, limit)
  }

  ghost predicate AnyFree(free: set<nat>, lo: nat, hi: nat) {
    exists g :: lo <= g < hi && g in free
  }

  /** The free frames that page tables can be made of. */
  function LowFree(free: set<nat>): set<nat> {
    set g | g in free && 256 <= g < 0x1000
  }

  lemma LowSpent(free: set<nat>, free': set<nat>, f: nat, t: nat)
    requires free - {f, t} <= free'
    ensures |LowFree(free')| + 2 >= |LowFree(free)|
  {
    var s := LowFree(free);
    assert s - {f} - {t} <= LowFree(free');
    CardinalityUp(s - {f} - {t}, LowFree(free'));
    assert |s - {f}| >= |s| - 1 && |s - {f} - {t}| >= |s - {f}| - 1;
  }

  lemma {:induction false} CardinalityUp(a: set<nat>, b: set<nat>)
    requires a <= b
    ensures |a| <= |b|
    decreases |a|
  {
    if a != {} {
      var x :| x in a;
      CardinalityUp(a - {x}, b - {x});
    }
  }

  /** With two low frames free there is one for a page and another for its table. */
  lemma TwoLow(free: set<nat>, f: nat)
    requires |LowFree(free)| >= 2
    ensures AnyFree(free, 256, 0x10_0000) && AnyFree(free - {f}, 256, 0x1000)
  {
    var s := LowFree(free);
    assert |s - {f}| >= 1;
    var g :| g in s - {f};
    assert g in free && 256 <= g < 0x1000 && g in free - {f};
  }

  ghost predicate RunFree(free: set<nat>, start: nat, n: nat) {
    forall f :: start <= f < start + n ==> f in free
  }

  /** start is the lowest beginning of n consecutive free frames from 256 up and below the limit. */
  ghost predicate LowestRun(free: set<nat>, start: nat, n: nat, limit: nat) {
    && LOW_FRAMES <= start && start + n <= limit && RunFree(free, start, n)
    && NoRun(free, n, start + n - 1)
  }

  /** No n consecutive free frames lie in [256, limit). */
  ghost predicate NoRun(free: set<nat>, n: nat, limit: nat) {
    forall s :: LOW_FRAMES <= s && s + n <= limit ==> !RunFree(free, s, n)
  }

  // ------------------------------------------------ ranges of addresses

  /** The frames `reserve_range` marks used. */
  function Reserved(start: nat, end: nat): set<nat> {
    FrameRange(start / PAGE, AlignUp32(end) / PAGE)
  }

  predicate Touches(f: nat, start: nat, end: nat) {
    start < (f + 1) * PAGE && f * PAGE < end
  }

  /** The frames that share a byte with [start, end); for an empty range, the frame the point lies strictly inside. */
  function Touched(start: nat, end: nat): set<nat> {
    set f: nat | f < MAX_FRAMES && Touches(f, start, end)
  }

  /** Reserving covers every touched frame exactly when the end does not lie in the last page below 4 GiB. */
  lemma ReservedExact(start: nat, end: nat)
    requires start < U32 && end < U32
    ensures Reserved(start, end) == Touched(start, end) <==> end <= 0xFFFF_F000
  {
    if end <= 0xFFFF_F000 {
      forall f ensures f in Reserved(start, end) <==> f in Touched(start, end) { TouchedArith(start, end, f); }
    } else {
      assert Touches(MAX_FRAMES - 1, start, end);
      assert MAX_FRAMES - 1 in Touched(start, end) && MAX_FRAMES - 1 !in Reserved(start, end);
    }
  }

  lemma TouchedArith(start: nat, end: nat, f: nat)
    requires start < U32 && end <= 0xFFFF_F000
    ensures start / PAGE <= f < AlignUp32(end) / PAGE
            <==> f < MAX_FRAMES && Touches(f, start, end)
  {
  }

  // ------------------------------------------------ the boot memory map

  /** One entry of the boot memory map: `size` counts the bytes after itself. */
  datatype MapEntry = MapEntry(size: nat, base: nat, length: nat, kind: nat)

  const AVAILABLE: nat := 1

  predicate WellTyped(e: MapEntry) {
    e.size < U32 && e.base < U64 && e.length < U64
  }

  /** Where the code takes an entry's usable memory to end: a 64-bit sum, then 32 bits of it. */
  function UsableEnd(e: MapEntry): nat {
    var end := (e.base + e.length) % U64;
    if end > U32 then U32 - 1 else end % U32
  }

  /** The frames `discover_from_mmap` frees for one entry. */
  function Freed(e: MapEntry): set<nat> {
    if e.kind == AVAILABLE && e.base < U32 then FrameRange(AlignUp32(e.base) / PAGE, UsableEnd(e) / PAGE) else {}
  }

  predicate LiesIn(f: nat, e: MapEntry) {
    e.kind == AVAILABLE && e.base <= f * PAGE && (f + 1) * PAGE <= e.base + e.length
  }

  /** The frames that lie wholly inside an available entry. */
  function Inside(e: MapEntry): set<nat> {
    set f: nat | f < MAX_FRAMES && LiesIn(f, e)
  }

  /** The entries whose bounds the 32-bit code handles. */
  predicate Representable(e: MapEntry) {
    || e.kind != AVAILABLE || e.base >= U32
    || (e.base <= 0xFFFF_F000 && e.base + e.length < U32)
    || (e.base > 0xFFFF_F000 && (e.base + e.length == U32 || U64 <= e.base + e.length < U64 + PAGE))
  }

  lemma FreedArith(e: MapEntry, f: nat)
    requires e.kind == AVAILABLE && e.base <= 0xFFFF_F000 && e.base + e.length < U32
    ensures AlignUp32(e.base) / PAGE <= f < (e.base + e.length) / PAGE
            <==> f < MAX_FRAMES && LiesIn(f, e)
  {
  }

  /** An entry's frames are freed exactly when its bounds are representable: an available region that reaches 4 GiB
      loses its last frame or is dropped whole, and one that begins in the last page below 4 GiB frees other memory. */
  lemma FreedExact(e: MapEntry)
    requires WellTyped(e)
    ensures Freed(e) == Inside(e) <==> Representable(e)
  {
    if e.kind == AVAILABLE && e.base < U32 {
      if Representable(e) {
        if e.base + e.length < U32 {
          forall f ensures f in Freed(e) <==> f in Inside(e) { FreedArith(e, f); }
        } else {
          assert UsableEnd(e) < PAGE && Freed(e) == {} == Inside(e);
        }
      } else if e.base <= 0xFFFF_F000 {
        assert LiesIn(MAX_FRAMES - 1, e);
        assert MAX_FRAMES - 1 in Inside(e) && MAX_FRAMES - 1 !in Freed(e);
      } else {
        assert Between(0, AlignUp32(e.base) / PAGE, UsableEnd(e) / PAGE) && !LiesIn(0, e);
        assert 0 in Freed(e) && 0 !in Inside(e);
      }
    }
  }

  /** A range that ends inside the last page below 4 GiB is not reserved at all. */
  lemma UnreservedExample()
    ensures Reserved(0xFFFF_E000, 0xFFFF_F001) == {} && {MAX_FRAMES - 2, MAX_FRAMES - 1} <= Touched(0xFFFF_E000, 0xFFFF_F001)
  {
    assert AlignUp32(0xFFFF_F001) == 0;
  }

  /** A region that crosses 4 GiB loses the last frame below it. */
  lemma CrossingExample()
    ensures var e := MapEntry(20, 0x10_0000, U32, AVAILABLE);
            WellTyped(e) && {MAX_FRAMES - 2, MAX_FRAMES - 1} <= Inside(e)
            && MAX_FRAMES - 2 in Freed(e) && MAX_FRAMES - 1 !in Freed(e)
  {
    var e := MapEntry(20, 0x10_0000, U32, AVAILABLE);
    assert UsableEnd(e) / PAGE == MAX_FRAMES - 1;
    assert LiesIn(MAX_FRAMES - 2, e) && LiesIn(MAX_FRAMES - 1, e);
  }

  /** A region of 256 bytes inside the last page below 4 GiB holds no frame, and frees nearly all memory. */
  lemma LastPageExample()
    ensures var e := MapEntry(20, 0xFFFF_F800, 0x100, AVAILABLE);
            WellTyped(e) && Inside(e) == {} && Freed(e) == FrameRange(0, MAX_FRAMES - 1)
  {
    var e := MapEntry(20, 0xFFFF_F800, 0x100, AVAILABLE);
    assert AlignUp32(e.base) == 0 && UsableEnd(e) / PAGE == MAX_FRAMES - 1;
  }

  /** A region ending exactly at 4 GiB is dropped whole. */
  lemma DroppedExample()
    ensures var e := MapEntry(20, 0x10_0000, 0xFFF0_0000, AVAILABLE);
            WellTyped(e) && Freed(e) == {} && LOW_FRAMES in Inside(e)
  {
  }

  /** The entries a walk from `cursor` visits; `entryAt` is the memory the map lies in. */
  function Walk(entryAt: nat -> MapEntry, cursor: nat, end: nat): seq<MapEntry>
    requires NoWrap(entryAt, cursor, end)
    decreases U32 - cursor
  {
    if cursor >= end then [] else [entryAt(cursor)] + Walk(entryAt, cursor + entryAt(cursor).size + 4, end)
  }

  /** The walk's cursor never wraps around. */
  predicate NoWrap(entryAt: nat -> MapEntry, cursor: nat, end: nat)
    decreases U32 - cursor
  {
    cursor < U32 &&
    (cursor < end ==> WellTyped(entryAt(cursor)) && NoWrap(entryAt, cursor + entryAt(cursor).size + 4, end))
  }

  function FreedBy(es: seq<MapEntry>): set<nat> {
    if es == [] then {} else Freed(es[0]) + FreedBy(es[1..])
  }

  /** With these frames freed before the cursor, a walk from it ends with `all` free. */
  ghost predicate WalkFrees(entryAt: nat -> MapEntry, cursor: nat, end: nat, free: set<nat>, all: set<nat>) {
    NoWrap(entryAt, cursor, end) && free + FreedBy(Walk(entryAt, cursor, end)) == all
  }

  lemma WalkStep(entryAt: nat -> MapEntry, cursor: nat, end: nat, free: set<nat>, all: set<nat>)
    requires WalkFrees(entryAt, cursor, end, free, all) && cursor < end
    ensures var e := entryAt(cursor);
            WellTyped(e) && WalkFrees(entryAt, cursor + e.size + 4, end, free + Freed(e), all)
  {
    var e := entryAt(cursor);
    var rest := Walk(entryAt, cursor + e.size + 4, end);
    assert Walk(entryAt, cursor, end) == [e] + rest;
    assert ([e] + rest)[1..] == rest;
    Regroup(free, Freed(e), FreedBy(rest));
  }

  lemma Regroup(a: set<nat>, b: set<nat>, c: set<nat>)
    ensures a + (b + c) == (a + b) + c
  {
  }

  lemma WalkDone(entryAt: nat -> MapEntry, cursor: nat, end: nat, free: set<nat>, all: set<nat>)
    requires WalkFrees(entryAt, cursor, end, free, all) && cursor >= end
    ensures free == all
  {
  }

  lemma {:induction false} FreedByExact(es: seq<MapEntry>, f: nat)
    requires forall e :: e in es ==> WellTyped(e) && Representable(e)
    ensures f in FreedBy(es) <==> f < MAX_FRAMES && exists e :: e in es && LiesIn(f, e)
    decreases |es|
  {
    if es != [] {
      FreedExact(es[0]);
      assert f in Inside(es[0]) <==> f < MAX_FRAMES && LiesIn(f, es[0]);
      FreedByExact(es[1..], f);
      assert es == [es[0]] + es[1..];
    }
  }

  // ------------------------------------------------ what initialisation leaves free

  const INFO_BYTES: nat := 52

  /** What the boot loader and the linker tell the kernel. */
  datatype BootInfo = BootInfo(info: nat, hasMap: bool, mapAddr: nat, mapLength: nat, kernelStart: nat, kernelEnd: nat)

  ghost predicate BootOk(b: BootInfo, entryAt: nat -> MapEntry) {
    && b.info < U32 && b.mapAddr < U32 && b.mapLength < U32 && b.kernelStart < U32 && b.kernelEnd < U32
    && NoWrap(entryAt, b.mapAddr, MapEnd(b))
  }

  function MapEnd(b: BootInfo): nat {
    (b.mapAddr + b.mapLength) % U32
  }

  /** The ranges `reserve_kernel_and_boot_data` takes back: low memory, the kernel, the boot information, the map. */
  function BootRanges(b: BootInfo): seq<(nat, nat)> {
    [(0, LOW_FRAMES * PAGE), (b.kernelStart, b.kernelEnd), (b.info, (b.info + INFO_BYTES) % U32), (b.mapAddr, MapEnd(b))]
  }

  function ReservedBy(rs: seq<(nat, nat)>): set<nat> {
    if rs == [] then {} else Reserved(rs[0].0, rs[0].1) + ReservedBy(rs[1..])
  }

  lemma {:induction false} ReservedByExact(rs: seq<(nat, nat)>, f: nat)
    requires forall r :: r in rs ==> r.0 < U32 && r.1 <= 0xFFFF_F000
    ensures f in ReservedBy(rs) <==> f < MAX_FRAMES && exists r :: r in rs && Touches(f, r.0, r.1)
    decreases |rs|
  {
    if rs != [] {
      TouchedArith(rs[0].0, rs[0].1, f);
      ReservedByExact(rs[1..], f);
      assert rs == [rs[0]] + rs[1..];
    }
  }

  /** The frames `pmm_init` leaves free. */
  function FreeAtBoot(b: BootInfo, entryAt: nat -> MapEntry): set<nat>
    requires BootOk(b, entryAt)
  {
    FreedBy(Walk(entryAt, b.mapAddr, MapEnd(b))) - ReservedBy(BootRanges(b))
  }

  /** A boot whose reserved ranges end outside the last page below 4 GiB and whose map entries are representable. */
  ghost predicate BootRepresentable(b: BootInfo, entryAt: nat -> MapEntry) {
    && BootOk(b, entryAt)
    && b.kernelEnd <= 0xFFFF_F000 && b.info + INFO_BYTES <= 0xFFFF_F000 && b.mapAddr + b.mapLength <= 0xFFFF_F000
    && forall e :: e in Walk(entryAt, b.mapAddr, MapEnd(b)) ==> WellTyped(e) && Representable(e)
  }

  /** A frame is free after boot exactly when it lies wholly inside one available entry of the map and touches neither
      the first MiB, nor the kernel image, nor the boot information, nor the map itself. */
  lemma FreeAtBootExact(b: BootInfo, entryAt: nat -> MapEntry, f: nat)
    requires BootRepresentable(b, entryAt)
    ensures f in FreeAtBoot(b, entryAt) <==>
              && f < 0x10_0000
              && (exists e :: e in Walk(entryAt, b.mapAddr, MapEnd(b)) && LiesIn(f, e))
              && !Touches(f, 0, 0x10_0000) && !Touches(f, b.kernelStart, b.kernelEnd)
              && !Touches(f, b.info, b.info + 52) && !Touches(f, b.mapAddr, b.mapAddr + b.mapLength)
  {
    FreedButReserved(Walk(entryAt, b.mapAddr, MapEnd(b)), BootRanges(b), f);
    BootRangesTouch(b, f);
  }

  lemma FreedButReserved(es: seq<MapEntry>, rs: seq<(nat, nat)>, f: nat)
    requires forall e :: e in es ==> WellTyped(e) && Representable(e)
    requires forall r :: r in rs ==> r.0 < U32 && r.1 <= 0xFFFF_F000
    ensures f in FreedBy(es) - ReservedBy(rs) <==>
              && f < MAX_FRAMES && (exists e :: e in es && LiesIn(f, e))
              && forall r :: r in rs ==> !Touches(f, r.0, r.1)
  {
    FreedByExact(es, f);
    ReservedByExact(rs, f);
  }

  lemma BootRangesTouch(b: BootInfo, f: nat)
    requires b.info + INFO_BYTES < U32 && b.mapAddr + b.mapLength < U32
    ensures (forall r :: r in BootRanges(b) ==> !Touches(f, r.0, r.1)) <==>
              && !Touches(f, 0, 0x10_0000) && !Touches(f, b.kernelStart, b.kernelEnd)
              && !Touches(f, b.info, b.info + INFO_BYTES) && !Touches(f, b.mapAddr, b.mapAddr + b.mapLength)
  {
    var rs := BootRanges(b);
    assert rs[0] in rs && rs[1] in rs && rs[2] in rs && rs[3] in rs;
  }

  /** Whatever the map says, no frame below 1 MiB is left free. */
  lemma BootKeepsLow(freed: set<nat>, b: BootInfo, f: nat)
    requires f in freed - ReservedBy(BootRanges(b))
    ensures f >= 256
  {
    assert f !in Reserved(0, LOW_FRAMES * PAGE);
  }
}
