/** The kernel heap as a sequence of blocks: what allocating, freeing and growing do to it, and what they keep. */
module HeapSpec {
  import opened Base

  const HEADER: nat := 24
  const MIN_SPLIT: nat := 16

  /** A header at `addr` followed by `size` payload bytes. */
  datatype Block = Block(addr: nat, size: nat, free: bool) {
    function End(): nat { addr + HEADER + size }
    function Payload(): nat { addr + HEADER }
  }

  // ------------------------------------------------ the invariant

  ghost predicate Abuts(bs: seq<Block>, i: nat)
    requires i + 1 < |bs|
  {
    bs[i].End() == bs[i + 1].addr
  }

  /** The blocks, in address order, exactly tile [lo, hi). */
  ghost predicate Tiled(bs: seq<Block>, lo: nat, hi: nat) {
    && (bs == [] ==> lo == hi)
    && (bs != [] ==> bs[0].addr == lo && bs[|bs| - 1].End() == hi)
    && (forall i :: 0 <= i < |bs| - 1 ==> Abuts(bs, i))
  }

  ghost predicate BlockOk(b: Block) {
    b.addr % 8 == 0 && b.size % 8 == 0 && b.size >= 8
  }

  ghost predicate BlocksOk(bs: seq<Block>) {
    forall b :: b in bs ==> BlockOk(b)
  }

  ghost predicate BothFree(bs: seq<Block>, i: nat)
    requires i + 1 < |bs|
  {
    bs[i].free && bs[i + 1].free
  }

  /** No two neighbouring blocks are both free. */
  ghost predicate Coalesced(bs: seq<Block>) {
    forall i :: 0 <= i < |bs| - 1 ==> !BothFree(bs, i)
  }

  ghost predicate HeapOk(bs: seq<Block>, lo: nat, hi: nat) {
    Tiled(bs, lo, hi) && BlocksOk(bs) && Coalesced(bs)
  }

  // ------------------------------------------------ operations

  /** `find_free_block`: first fit, or |bs|. */
  function FindFree(bs: seq<Block>, wanted: nat, from: nat): (i: nat)
    requires from <= |bs|
    ensures from <= i <= |bs|
    ensures i < |bs| ==> bs[i].free && bs[i].size >= wanted
    ensures forall j :: from <= j < i ==> !(bs[j].free && bs[j].size >= wanted)
    decreases |bs| - from
  {
    if from == |bs| || (bs[from].free && bs[from].size >= wanted) then from
    else FindFree(bs, wanted, from + 1)
  }

  /** `split_block_if_large_enough` */
  function Split(bs: seq<Block>, i: nat, wanted: nat): seq<Block>
    requires i < |bs| && wanted <= bs[i].size
  {
    var b := bs[i];
    if b.size - wanted < HEADER + MIN_SPLIT then bs
    else bs[..i] + [b.(size := wanted), Block(b.addr + HEADER + wanted, b.size - wanted - HEADER, true)] + bs[i + 1..]
  }

  function SetFree(bs: seq<Block>, i: nat, free: bool): seq<Block>
    requires i < |bs|
  {
    bs[i := bs[i].(free := free)]
  }

  /** What `kmalloc` does to the block it found. */
  function Alloc(bs: seq<Block>, i: nat, wanted: nat): seq<Block>
    requires i < |bs| && wanted <= bs[i].size
  {
    SetFree(Split(bs, i, wanted), i, false)
  }

  function Merge(bs: seq<Block>, i: nat): seq<Block>
    requires i + 1 < |bs|
  {
    bs[..i] + [bs[i].(size := bs[i].size + HEADER + bs[i + 1].size)] + bs[i + 2..]
  }

  /** `coalesce_with_next` */
  function CoalesceNext(bs: seq<Block>, i: nat): seq<Block>
    requires i < |bs|
  {
    if i + 1 < |bs| && bs[i].free && bs[i + 1].free && bs[i].End() == bs[i + 1].addr then Merge(bs, i) else bs
  }

  /** `coalesce_around` */
  function CoalesceAround(bs: seq<Block>, i: nat): seq<Block>
    requires i < |bs|
  {
    var r := CoalesceNext(bs, i);
    if i > 0 && r[i - 1].free && r[i - 1].End() == r[i].addr then CoalesceNext(r, i - 1) else r
  }

  /** What `kfree` does to the block it is given. */
  function Free(bs: seq<Block>, i: nat): seq<Block>
    requires i < |bs|
  {
    CoalesceAround(SetFree(bs, i, true), i)
  }

  /** What `heap_add_region` does: a free block over the new pages, merged into a free block before it. */
  function AddRegion(bs: seq<Block>, hi: nat, pages: nat): seq<Block>
    requires pages > 0
  {
    CoalesceAround(bs + [Block(hi, pages * PAGE - HEADER, true)], |bs|)
  }

  // ------------------------------------------------ order and disjointness

  lemma {:induction false} Ordered(bs: seq<Block>, lo: nat, hi: nat, i: nat, j: nat)
    requires Tiled(bs, lo, hi) && i < j < |bs|
    ensures bs[i].End() <= bs[j].addr
    decreases j
  {
    assert Abuts(bs, j - 1);
    if i < j - 1 { Ordered(bs, lo, hi, i, j - 1); }
  }

  lemma {:induction false} Within(bs: seq<Block>, lo: nat, hi: nat, i: nat)
    requires Tiled(bs, lo, hi) && i < |bs|
    ensures lo <= bs[i].addr && bs[i].End() <= hi
  {
    if i > 0 { Ordered(bs, lo, hi, 0, i); }
    if i < |bs| - 1 { Ordered(bs, lo, hi, i, |bs| - 1); }
  }

  // ------------------------------------------------ what each operation keeps

  /** Everything but coalescing, which a step may break between blocks k - 1 and k + 1. */
  ghost predicate Bare(bs: seq<Block>, lo: nat, hi: nat) {
    Tiled(bs, lo, hi) && BlocksOk(bs)
  }

  /** Replacing the stretch [a, b) of the blocks by others over the same bytes keeps the tiling. */
  lemma Replace(bs: seq<Block>, lo: nat, hi: nat, a: nat, b: nat, mid: seq<Block>)
    requires Bare(bs, lo, hi) && a < b <= |bs| && mid != []
    requires mid[0].addr == bs[a].addr && mid[|mid| - 1].End() == bs[b - 1].End()
    requires BlocksOk(mid) && (forall i :: 0 <= i < |mid| - 1 ==> Abuts(mid, i))
    ensures Bare(bs[..a] + mid + bs[b..], lo, hi)
  {
    var r := bs[..a] + mid + bs[b..];
    forall i | 0 <= i < |r| - 1 ensures Abuts(r, i) {
      if i + 1 < a { assert Abuts(bs, i); }
      else if i + 1 == a { assert Abuts(bs, i); }
      else if i + 1 < a + |mid| { assert Abuts(mid, i - a); }
      else { assert Abuts(bs, i - |mid| - a + b); }
    }
    assert forall x :: x in r ==> x in bs || x in mid;
    if b == |bs| { assert r[|r| - 1] == mid[|mid| - 1]; } else { assert r[|r| - 1] == bs[|bs| - 1]; }
  }

  lemma SplitKeeps(bs: seq<Block>, lo: nat, hi: nat, i: nat, wanted: nat)
    requires Bare(bs, lo, hi) && i < |bs| && 8 <= wanted <= bs[i].size && wanted % 8 == 0
    ensures Bare(Split(bs, i, wanted), lo, hi)
  {
    var b := bs[i];
    assert BlockOk(b);
    if b.size - wanted >= HEADER + MIN_SPLIT {
      var mid := [b.(size := wanted), Block(b.addr + HEADER + wanted, b.size - wanted - HEADER, true)];
      assert Abuts(mid, 0);
      assert BlockOk(mid[0]) && BlockOk(mid[1]) by { Multiples(b.addr, wanted, b.size); }
      Replace(bs, lo, hi, i, i + 1, mid);
    }
  }

  lemma Multiples(addr: nat, wanted: nat, size: nat)
    requires addr % 8 == 0 && wanted % 8 == 0 && size % 8 == 0 && size >= wanted + HEADER
    ensures (addr + HEADER + wanted) % 8 == 0 && (size - wanted - HEADER) % 8 == 0
  {
  }

  lemma SetFreeKeeps(bs: seq<Block>, lo: nat, hi: nat, i: nat, free: bool)
    requires Bare(bs, lo, hi) && i < |bs|
    ensures Bare(SetFree(bs, i, free), lo, hi)
  {
    assert BlockOk(bs[i]);
    Replace(bs, lo, hi, i, i + 1, [bs[i].(free := free)]);
    assert SetFree(bs, i, free) == bs[..i] + [bs[i].(free := free)] + bs[i + 1..];
  }

  lemma MergeKeeps(bs: seq<Block>, lo: nat, hi: nat, i: nat)
    requires Bare(bs, lo, hi) && i + 1 < |bs|
    ensures Bare(Merge(bs, i), lo, hi)
  {
    assert BlockOk(bs[i]) && BlockOk(bs[i + 1]) && Abuts(bs, i);
    Replace(bs, lo, hi, i, i + 2, [bs[i].(size := bs[i].size + HEADER + bs[i + 1].size)]);
  }

  /** Coalesced but for the pairs around block k. */
  ghost predicate CoalescedBut(bs: seq<Block>, k: nat) {
    forall i :: 0 <= i < |bs| - 1 && i != k && i + 1 != k ==> !BothFree(bs, i)
  }

  lemma MergeKeepsCoalesced(bs: seq<Block>, i: nat)
    requires i + 1 < |bs| && bs[i].free && bs[i + 1].free
    requires forall j :: 0 <= j < |bs| - 1 && j != i && j + 1 != i ==> !BothFree(bs, j)
    ensures forall j :: 0 <= j < |Merge(bs, i)| - 1 && j + 1 != i ==> !BothFree(Merge(bs, i), j)
  {
    var r := Merge(bs, i);
    forall j | 0 <= j < |r| - 1 && j + 1 != i ensures !BothFree(r, j) {
      if j + 1 < i { assert !BothFree(bs, j); } else { assert !BothFree(bs, j + 1); }
    }
  }

  lemma CoalesceNextKeeps(bs: seq<Block>, lo: nat, hi: nat, i: nat)
    requires Bare(bs, lo, hi) && i < |bs| && bs[i].free && CoalescedBut(bs, i)
    ensures Bare(CoalesceNext(bs, i), lo, hi) && i < |CoalesceNext(bs, i)| && CoalesceNext(bs, i)[i].free
    ensures forall j :: 0 <= j < |CoalesceNext(bs, i)| - 1 && j + 1 != i ==> !BothFree(CoalesceNext(bs, i), j)
  {
    if i + 1 < |bs| {
      assert Abuts(bs, i);
      if bs[i + 1].free {
        MergeKeeps(bs, lo, hi, i);
        MergeKeepsCoalesced(bs, i);
      }
    }
  }

  lemma MergePrevKeeps(r: seq<Block>, lo: nat, hi: nat, i: nat)
    requires Bare(r, lo, hi) && 0 < i < |r| && r[i - 1].free && r[i].free
    requires forall j :: 0 <= j < |r| - 1 && j + 1 != i ==> !BothFree(r, j)
    ensures HeapOk(Merge(r, i - 1), lo, hi)
  {
    MergeKeeps(r, lo, hi, i - 1);
    var t := Merge(r, i - 1);
    forall j | 0 <= j < |t| - 1 ensures !BothFree(t, j) {
      if j < i - 1 { assert !BothFree(r, j); } else { assert !BothFree(r, j + 1); }
    }
  }

  /** Coalescing around a free block repairs the only two pairs that can both be free. */
  lemma CoalesceAroundKeeps(bs: seq<Block>, lo: nat, hi: nat, i: nat)
    requires Bare(bs, lo, hi) && i < |bs| && bs[i].free && CoalescedBut(bs, i)
    ensures HeapOk(CoalesceAround(bs, i), lo, hi)
  {
    var r := CoalesceNext(bs, i);
    CoalesceNextKeeps(bs, lo, hi, i);
    if i > 0 {
      assert Abuts(r, i - 1);
      if r[i - 1].free { MergePrevKeeps(r, lo, hi, i); }
    }
  }

  lemma AllocKeeps(bs: seq<Block>, lo: nat, hi: nat, i: nat, wanted: nat)
    requires HeapOk(bs, lo, hi) && i < |bs| && bs[i].free && 8 <= wanted <= bs[i].size && wanted % 8 == 0
    ensures HeapOk(Alloc(bs, i, wanted), lo, hi)
  {
    SplitKeeps(bs, lo, hi, i, wanted);
    SetFreeKeeps(Split(bs, i, wanted), lo, hi, i, false);
    var r := Alloc(bs, i, wanted);
    forall j | 0 <= j < |r| - 1 ensures !BothFree(r, j) {
      if j < i { assert !BothFree(bs, j); }
      else if |r| == |bs| { if j > i { assert !BothFree(bs, j); } }
      else if j > i { assert !BothFree(bs, j - 1); }
    }
  }

  lemma FreeKeeps(bs: seq<Block>, lo: nat, hi: nat, i: nat)
    requires HeapOk(bs, lo, hi) && i < |bs| && !bs[i].free
    ensures HeapOk(Free(bs, i), lo, hi)
  {
    SetFreeKeeps(bs, lo, hi, i, true);
    var r := SetFree(bs, i, true);
    forall j | 0 <= j < |r| - 1 && j != i && j + 1 != i ensures !BothFree(r, j) { assert !BothFree(bs, j); }
    CoalesceAroundKeeps(r, lo, hi, i);
  }

  lemma PageAligned(hi: nat, pages: nat)
    requires hi % PAGE == 0 && pages > 0
    ensures hi % 8 == 0 && (pages * PAGE - HEADER) % 8 == 0 && pages * PAGE - HEADER >= 4072
  {
    var a := hi / PAGE;
    assert hi == 8 * (a * 512);
    assert pages * PAGE - HEADER == 8 * (pages * 512 - 3);
  }

  lemma AppendKeeps(bs: seq<Block>, lo: nat, hi: nat, pages: nat)
    requires HeapOk(bs, lo, hi) && pages > 0 && hi % PAGE == 0
    ensures var r := bs + [Block(hi, pages * PAGE - HEADER, true)];
            Bare(r, lo, hi + pages * PAGE) && CoalescedBut(r, |bs|)
  {
    var b := Block(hi, pages * PAGE - HEADER, true);
    var r := bs + [b];
    assert BlockOk(b) by { PageAligned(hi, pages); }
    forall j | 0 <= j < |r| - 1 ensures Abuts(r, j) { if j + 1 < |bs| { assert Abuts(bs, j); } }
    forall j | 0 <= j < |r| - 1 && j + 1 != |bs| ensures !BothFree(r, j) { assert !BothFree(bs, j); }
  }

  lemma AddRegionKeeps(bs: seq<Block>, lo: nat, hi: nat, pages: nat)
    requires HeapOk(bs, lo, hi) && pages > 0 && hi % PAGE == 0
    ensures HeapOk(AddRegion(bs, hi, pages), lo, hi + pages * PAGE)
    ensures UsedCount(AddRegion(bs, hi, pages)) == UsedCount(bs)
  {
    var b := Block(hi, pages * PAGE - HEADER, true);
    var r := bs + [b];
    AppendKeeps(bs, lo, hi, pages);
    CoalesceAroundKeeps(r, lo, hi + pages * PAGE, |bs|);
    UsedCountAround(r, |bs|);
    UsedCountConcat(bs, [b]);
  }

  // ------------------------------------------------ conservation

  function FreeBytes(bs: seq<Block>): nat {
    if bs == [] then 0 else (if bs[0].free then bs[0].size else 0) + FreeBytes(bs[1..])
  }

  function UsedBytes(bs: seq<Block>): nat {
    if bs == [] then 0 else (if bs[0].free then 0 else bs[0].size) + UsedBytes(bs[1..])
  }

  function UsedCount(bs: seq<Block>): nat {
    if bs == [] then 0 else (if bs[0].free then 0 else 1) + UsedCount(bs[1..])
  }

  /** Every byte of a tiled region is a header byte, a free byte or a used byte. */
  lemma {:induction false} Conservation(bs: seq<Block>, lo: nat, hi: nat)
    requires Tiled(bs, lo, hi)
    ensures FreeBytes(bs) + UsedBytes(bs) + HEADER * |bs| == hi - lo
    decreases |bs|
  {
    if bs != [] {
      var t := bs[1..];
      forall i | 0 <= i < |t| - 1 ensures Abuts(t, i) { assert Abuts(bs, i + 1); }
      if t != [] { assert Abuts(bs, 0); }
      Conservation(t, bs[0].End(), hi);
    }
  }

  lemma {:induction false} UsedCountConcat(a: seq<Block>, b: seq<Block>)
    ensures UsedCount(a + b) == UsedCount(a) + UsedCount(b)
    decreases |a|
  {
    if a == [] { assert a + b == b; } else {
      assert (a + b)[1..] == a[1..] + b;
      UsedCountConcat(a[1..], b);
    }
  }

  lemma UsedCountReplace(bs: seq<Block>, a: nat, b: nat, mid: seq<Block>)
    requires a <= b <= |bs|
    ensures UsedCount(bs[..a] + mid + bs[b..]) == UsedCount(bs) - UsedCount(bs[a..b]) + UsedCount(mid)
  {
    assert bs == bs[..a] + bs[a..b] + bs[b..];
    UsedCountConcat(bs[..a] + bs[a..b], bs[b..]);
    UsedCountConcat(bs[..a], bs[a..b]);
    UsedCountConcat(bs[..a] + mid, bs[b..]);
    UsedCountConcat(bs[..a], mid);
  }

  lemma UsedCountOne(b: Block)
    ensures UsedCount([b]) == if b.free then 0 else 1
  {
  }

  lemma UsedCountSetFree(bs: seq<Block>, i: nat, free: bool)
    requires i < |bs|
    ensures UsedCount(SetFree(bs, i, free)) == UsedCount(bs) - (if bs[i].free then 0 else 1) + (if free then 0 else 1)
  {
    hide UsedCount;
    var b := bs[i].(free := free);
    UsedCountReplace(bs, i, i + 1, [b]);
    UsedCountOne(b);
    UsedCountOne(bs[i]);
    assert SetFree(bs, i, free) == bs[..i] + [b] + bs[i + 1..];
    assert bs[i..i + 1] == [bs[i]];
  }

  lemma UsedCountMerge(bs: seq<Block>, i: nat)
    requires i + 1 < |bs| && bs[i].free && bs[i + 1].free
    ensures UsedCount(Merge(bs, i)) == UsedCount(bs)
  {
    UsedCountReplace(bs, i, i + 2, [bs[i].(size := bs[i].size + HEADER + bs[i + 1].size)]);
    assert bs[i..i + 2] == [bs[i], bs[i + 1]];
  }

  lemma UsedCountAround(bs: seq<Block>, i: nat)
    requires i < |bs| && bs[i].free
    ensures UsedCount(CoalesceAround(bs, i)) == UsedCount(bs)
  {
    var r := CoalesceNext(bs, i);
    if r != bs { UsedCountMerge(bs, i); }
    if i > 0 && r[i - 1].free && r[i - 1].End() == r[i].addr { UsedCountMerge(r, i - 1); }
  }

  lemma UsedCountSplit(bs: seq<Block>, i: nat, wanted: nat)
    requires i < |bs| && bs[i].free && wanted <= bs[i].size
    ensures UsedCount(Split(bs, i, wanted)) == UsedCount(bs)
  {
    hide UsedCount;
    var b := bs[i];
    if b.size - wanted >= HEADER + MIN_SPLIT {
      var mid := [b.(size := wanted), Block(b.addr + HEADER + wanted, b.size - wanted - HEADER, true)];
      UsedCountReplace(bs, i, i + 1, mid);
      UsedCountOne(b);
      UsedCountOne(mid[0]);
      UsedCountOne(mid[1]);
      UsedCountConcat([mid[0]], [mid[1]]);
      assert bs[i..i + 1] == [b] && mid == [mid[0]] + [mid[1]];
    }
  }

  /** Allocating adds one used block, */
  lemma UsedCountAlloc(bs: seq<Block>, i: nat, wanted: nat)
    requires i < |bs| && bs[i].free && wanted <= bs[i].size
    ensures UsedCount(Alloc(bs, i, wanted)) == UsedCount(bs) + 1
  {
    UsedCountSplit(bs, i, wanted);
    UsedCountSetFree(Split(bs, i, wanted), i, false);
  }

  /** and freeing removes one. */
  lemma UsedCountFree(bs: seq<Block>, i: nat)
    requires i < |bs| && !bs[i].free
    ensures UsedCount(Free(bs, i)) == UsedCount(bs) - 1
  {
    UsedCountSetFree(bs, i, true);
    UsedCountAround(SetFree(bs, i, true), i);
  }

  // ------------------------------------------------ inverse laws

  /** Freeing what was just allocated restores the exact block list. */
  lemma AllocFreeRoundTrip(bs: seq<Block>, lo: nat, hi: nat, i: nat, wanted: nat)
    requires HeapOk(bs, lo, hi) && i < |bs| && bs[i].free && wanted <= bs[i].size
    ensures Free(Alloc(bs, i, wanted), i) == bs
  {
    var a := Alloc(bs, i, wanted);
    var f := SetFree(a, i, true);
    assert i + 1 < |bs| ==> !BothFree(bs, i);
    assert i > 0 ==> !BothFree(bs, i - 1);
    var r := CoalesceNext(f, i);
    assert r == bs;
  }

  /** The live blocks, each with its address and size. */
  function UsedBlocks(bs: seq<Block>): set<Block> {
    set b | b in bs && !b.free
  }

  lemma MergeKeepsUsed(bs: seq<Block>, i: nat)
    requires i + 1 < |bs| && bs[i].free && bs[i + 1].free
    ensures UsedBlocks(Merge(bs, i)) == UsedBlocks(bs)
  {
    var r := Merge(bs, i);
    forall b | b in bs && !b.free ensures b in r {
      var j :| 0 <= j < |bs| && bs[j] == b;
      assert b == r[if j < i then j else j - 1];
    }
    assert forall b :: b in r && !b.free ==> b in bs;
  }

  /** Freeing a block takes it, and no other, out of the live ones; the others keep their place and size. */
  lemma FreeRemovesUsed(bs: seq<Block>, lo: nat, hi: nat, i: nat)
    requires HeapOk(bs, lo, hi) && i < |bs| && !bs[i].free
    ensures UsedBlocks(Free(bs, i)) == UsedBlocks(bs) - {bs[i]}
  {
    var f := SetFree(bs, i, true);
    assert UsedBlocks(f) == UsedBlocks(bs) - {bs[i]} by {
      forall j | 0 <= j < |bs| && j != i ensures bs[j] != bs[i] {
        if j < i { Ordered(bs, lo, hi, j, i); } else { Ordered(bs, lo, hi, i, j); }
      }
      forall b | b in bs && !b.free && b != bs[i] ensures b in f {
        var j :| 0 <= j < |bs| && bs[j] == b;
        assert f[j] == b;
      }
      forall b | b in f && !b.free ensures b in bs && b != bs[i] {
        var j :| 0 <= j < |f| && f[j] == b;
        assert bs[j] == b;
      }
    }
    var r := CoalesceNext(f, i);
    if r != f { MergeKeepsUsed(f, i); }
    if i > 0 && r[i - 1].free && r[i - 1].End() == r[i].addr { MergeKeepsUsed(r, i - 1); }
  }

  /** One free block over the whole region. */
  ghost predicate OneFreeBlock(bs: seq<Block>, lo: nat, hi: nat) {
    |bs| == 1 && bs[0].free && bs[0].addr == lo && bs[0].End() == hi
  }

  /** A heap with nothing live is one free block. */
  lemma AllFree(bs: seq<Block>, lo: nat, hi: nat)
    requires HeapOk(bs, lo, hi) && UsedBlocks(bs) == {} && lo < hi
    ensures OneFreeBlock(bs, lo, hi)
  {
    assert forall b :: b in bs && !b.free ==> b in UsedBlocks(bs);
    assert |bs| > 1 ==> !BothFree(bs, 0);
  }

  function IndexOf(bs: seq<Block>, addr: nat): (i: nat)
    ensures i <= |bs| && (i < |bs| ==> bs[i].addr == addr)
    ensures forall j :: 0 <= j < i ==> bs[j].addr != addr
  {
    if bs == [] || bs[0].addr == addr then 0 else IndexOf(bs[1..], addr) + 1
  }

  /** Freeing, in order, the blocks at the addresses of the given ones. */
  function FreeInOrder(bs: seq<Block>, order: seq<Block>): seq<Block>
    decreases |order|
  {
    if order == [] then bs
    else
      var i := IndexOf(bs, order[0].addr);
      FreeInOrder(if i < |bs| && !bs[i].free then Free(bs, i) else bs, order[1..])
  }

  /** The address of a block of the list leads back to it. */
  lemma IndexAt(bs: seq<Block>, lo: nat, hi: nat, j: nat)
    requires Tiled(bs, lo, hi) && j < |bs|
    ensures IndexOf(bs, bs[j].addr) == j
  {
    var i := IndexOf(bs, bs[j].addr);
    if i < j { Ordered(bs, lo, hi, i, j); }
  }

  /** Freeing every live allocation, each once, in any order, leaves one free block covering the whole heap. */
  lemma {:induction false} FreeAllAnyOrder(bs: seq<Block>, lo: nat, hi: nat, order: seq<Block>)
    requires HeapOk(bs, lo, hi) && lo < hi
    requires (forall b :: b in order <==> b in UsedBlocks(bs)) && (forall i, j :: 0 <= i < j < |order| ==> order[i] != order[j])
    ensures OneFreeBlock(FreeInOrder(bs, order), lo, hi)
    decreases |order|
  {
    if order == [] {
      assert forall b :: b in UsedBlocks(bs) ==> b in order;
      AllFree(bs, lo, hi);
    } else {
      var b := order[0];
      assert b in UsedBlocks(bs);
      var i :| 0 <= i < |bs| && bs[i] == b;
      IndexAt(bs, lo, hi, i);
      FreeKeeps(bs, lo, hi, i);
      FreeRemovesUsed(bs, lo, hi, i);
      assert order == [b] + order[1..];
      FreeAllAnyOrder(Free(bs, i), lo, hi, order[1..]);
    }
  }

  // ------------------------------------------------ what an allocation is worth

  ghost predicate Apart(a: Block, b: Block) {
    a.End() <= b.addr || b.End() <= a.addr
  }

  /** The block handed out is big enough and less than 40 bytes longer than asked for, aligned, inside the heap, and shares no byte, payload or header, with
      any other block; and all blocks live before are still live, where they were and as long as they were. */
  lemma AllocGood(bs: seq<Block>, lo: nat, hi: nat, i: nat, wanted: nat)
    requires HeapOk(bs, lo, hi) && i < |bs| && bs[i].free && 8 <= wanted <= bs[i].size && wanted % 8 == 0
    ensures var r := Alloc(bs, i, wanted);
            && !r[i].free && r[i].size >= wanted && r[i].Payload() % 8 == 0
            && r[i].size == (if bs[i].size >= wanted + 40 then wanted else bs[i].size)
            && lo <= r[i].addr && r[i].End() <= hi
            && UsedBlocks(r) == UsedBlocks(bs) + {r[i]} && r[i] !in UsedBlocks(bs)
            && (forall b :: b in r && b != r[i] ==> Apart(r[i], b))
  {
    var r := Alloc(bs, i, wanted);
    AllocKeeps(bs, lo, hi, i, wanted);
    Within(r, lo, hi, i);
    assert BlockOk(r[i]);
    forall b | b in r && b != r[i] ensures Apart(r[i], b) {
      var j :| 0 <= j < |r| && r[j] == b;
      if j < i { Ordered(r, lo, hi, j, i); } else { Ordered(r, lo, hi, i, j); }
    }
    AllocAddsUsed(bs, lo, hi, i, wanted);
  }

  lemma AllocAddsUsed(bs: seq<Block>, lo: nat, hi: nat, i: nat, wanted: nat)
    requires HeapOk(bs, lo, hi) && i < |bs| && bs[i].free && wanted <= bs[i].size
    ensures var r := Alloc(bs, i, wanted); UsedBlocks(r) == UsedBlocks(bs) + {r[i]} && r[i] !in UsedBlocks(bs)
  {
    var r := Alloc(bs, i, wanted);
    forall b | b in bs && !b.free ensures b in r && b.addr != bs[i].addr {
      var j :| 0 <= j < |bs| && bs[j] == b;
      assert b == r[if j < i then j else if |r| == |bs| then j else j + 1];
      if j < i { Ordered(bs, lo, hi, j, i); } else { Ordered(bs, lo, hi, i, j); }
    }
    assert r[i] in r && r[i].addr == bs[i].addr;
    forall b | b in r && !b.free && b != r[i] ensures b in bs {
      var j :| 0 <= j < |r| && r[j] == b;
      assert b == bs[if j < i then j else if |r| == |bs| then j else j - 1];
    }
  }

  /** After growth by enough pages, first fit succeeds. */
  lemma GrowthFits(bs: seq<Block>, lo: nat, hi: nat, pages: nat, wanted: nat)
    requires HeapOk(bs, lo, hi) && pages > 0 && hi % PAGE == 0 && wanted + HEADER <= pages * PAGE
    ensures var r := AddRegion(bs, hi, pages); FindFree(r, wanted, 0) < |r|
  {
    var b := Block(hi, pages * PAGE - HEADER, true);
    var f := bs + [b];
    var r := AddRegion(bs, hi, pages);
    var last := r[|r| - 1];
    assert last.free && last.size >= wanted;
    var k := FindFree(r, wanted, 0);
  }
}
