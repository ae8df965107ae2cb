/** The kernel heap over raw memory: block headers at their own addresses, doubly linked in address order. */
module Heap {
  import opened Base
  import opened HeapSpec

  const BASE: nat := 0xD100_0000
  const LIMIT: nat := 0xD200_0000
  const NULL: nat := 0

  /** A block header as it lies in memory; the magic number is that every address in the map holds one. */
  datatype Header = Header(size: nat, free: bool, next: nat, prev: nat)

  function AddrAt(bs: seq<Block>, i: int): nat {
    if 0 <= i < |bs| then bs[i].addr else NULL
  }

  ghost predicate HeaderAt(hdr: map<nat, Header>, bs: seq<Block>, i: nat)
    requires i < |bs|
  {
    bs[i].addr in hdr && hdr[bs[i].addr] == Header(bs[i].size, bs[i].free, AddrAt(bs, i + 1), AddrAt(bs, i - 1))
  }

  ghost predicate Listed(bs: seq<Block>, addr: nat) {
    exists i :: 0 <= i < |bs| && bs[i].addr == addr
  }

  /** The headers link exactly these blocks, in this order; any other header, left behind by a merge, is marked free. */
  ghost predicate Linked(hdr: map<nat, Header>, head: nat, bs: seq<Block>) {
    && head == AddrAt(bs, 0)
    && (forall i :: 0 <= i < |bs| ==> HeaderAt(hdr, bs, i))
    && OthersFree(hdr, bs)
  }

  ghost predicate OthersFree(hdr: map<nat, Header>, bs: seq<Block>) {
    forall a :: a in hdr && !hdr[a].free ==> Listed(bs, a)
  }

  /** Headers stay known when the list keeps every address it had and no other header becomes used. */
  lemma OthersKept(hdr: map<nat, Header>, bs: seq<Block>, hdr': map<nat, Header>, r: seq<Block>)
    requires OthersFree(hdr, bs)
    requires forall i :: 0 <= i < |bs| ==> Listed(r, bs[i].addr)
    requires forall a :: a in hdr' && !hdr'[a].free ==> a in hdr && !hdr[a].free
    ensures OthersFree(hdr', r)
  {
    forall a | a in hdr' && !hdr'[a].free ensures Listed(r, a) { assert Listed(bs, a); }
  }

  /** Address order makes addresses distinct, and none is null. */
  lemma Distinct(bs: seq<Block>, lo: nat, hi: nat, i: nat)
    requires Tiled(bs, lo, hi) && i < |bs| && lo > 0
    ensures bs[i].addr != NULL
    ensures forall j :: 0 <= j < |bs| && j != i ==> bs[j].addr != bs[i].addr
  {
    Within(bs, lo, hi, i);
    forall j | 0 <= j < |bs| && j != i ensures bs[j].addr != bs[i].addr {
      if j < i { Ordered(bs, lo, hi, j, i); } else { Ordered(bs, lo, hi, i, j); }
    }
  }

  lemma SetFreeLinked(hdr: map<nat, Header>, head: nat, bs: seq<Block>, lo: nat, hi: nat, i: nat, free: bool)
    requires Linked(hdr, head, bs) && Tiled(bs, lo, hi) && lo > 0 && i < |bs|
    ensures bs[i].addr in hdr
    ensures Linked(hdr[bs[i].addr := hdr[bs[i].addr].(free := free)], head, SetFree(bs, i, free))
  {
    Distinct(bs, lo, hi, i);
    assert HeaderAt(hdr, bs, i);
    var a := bs[i].addr;
    var hdr' := hdr[a := hdr[a].(free := free)];
    var r := SetFree(bs, i, free);
    forall j | 0 <= j < |r| ensures HeaderAt(hdr', r, j) { assert HeaderAt(hdr, bs, j); }
    forall x | x in hdr' && !hdr'[x].free ensures Listed(r, x) {
      if x != a { ListedAt(bs, r, x); } else { assert r[i].addr == x; }
    }
  }

  lemma ListedAt(bs: seq<Block>, r: seq<Block>, addr: nat)
    requires Listed(bs, addr) && |r| == |bs| && forall i :: 0 <= i < |bs| ==> r[i].addr == bs[i].addr
    ensures Listed(r, addr)
  {
    var i :| 0 <= i < |bs| && bs[i].addr == addr;
    assert r[i].addr == addr;
  }

  /** What `coalesce_with_next` writes. */
  function MergedHeaders(hdr: map<nat, Header>, a: nat): map<nat, Header>
    requires a in hdr && hdr[a].next in hdr
  {
    var n := hdr[hdr[a].next];
    var h := hdr[a := hdr[a].(size := hdr[a].size + HEADER + n.size, next := n.next)];
    if n.next != NULL && n.next in h then h[n.next := h[n.next].(prev := a)] else h
  }

  lemma MergeLinked(hdr: map<nat, Header>, head: nat, bs: seq<Block>, lo: nat, hi: nat, i: nat)
    requires Linked(hdr, head, bs) && Tiled(bs, lo, hi) && lo > 0 && i + 1 < |bs| && bs[i + 1].free
    ensures bs[i].addr in hdr && hdr[bs[i].addr].next == bs[i + 1].addr && bs[i + 1].addr in hdr
    ensures Linked(MergedHeaders(hdr, bs[i].addr), head, Merge(bs, i))
  {
    assert HeaderAt(hdr, bs, i) && HeaderAt(hdr, bs, i + 1);
    Distinct(bs, lo, hi, i);
    Distinct(bs, lo, hi, i + 1);
    if i + 2 < |bs| { Distinct(bs, lo, hi, i + 2); assert HeaderAt(hdr, bs, i + 2); }
    var hdr' := MergedHeaders(hdr, bs[i].addr);
    var r := Merge(bs, i);
    forall j | 0 <= j < |r| ensures HeaderAt(hdr', r, j) {
      assert HeaderAt(hdr, bs, if j <= i then j else j + 1);
    }
    forall x | x in hdr' && !hdr'[x].free ensures Listed(r, x) {
      assert !hdr[x].free;
      var j :| 0 <= j < |bs| && bs[j].addr == x;
      assert j != i + 1;
      assert r[if j <= i then j else j - 1].addr == x;
    }
  }

  /** What `split_block_if_large_enough` writes when it splits. */
  function SplitHeaders(hdr: map<nat, Header>, a: nat, wanted: nat): map<nat, Header>
    requires a in hdr && wanted + HEADER <= hdr[a].size
  {
    var b := a + HEADER + wanted;
    var h := hdr[b := Header(hdr[a].size - wanted - HEADER, true, hdr[a].next, a)];
    var h' := if hdr[a].next != NULL && hdr[a].next in h then h[hdr[a].next := h[hdr[a].next].(prev := b)] else h;
    h'[a := Header(wanted, hdr[a].free, b, hdr[a].prev)]
  }

  /** The new block's address is none of the list's. */
  lemma SplitAddress(bs: seq<Block>, lo: nat, hi: nat, i: nat, wanted: nat)
    requires Tiled(bs, lo, hi) && i < |bs| && wanted + HEADER + MIN_SPLIT <= bs[i].size
    ensures forall j :: 0 <= j < |bs| ==> bs[j].addr != bs[i].addr + HEADER + wanted
  {
    forall j | 0 <= j < |bs| ensures bs[j].addr != bs[i].addr + HEADER + wanted {
      if j < i { Ordered(bs, lo, hi, j, i); } else if j > i { Ordered(bs, lo, hi, i, j); }
    }
  }

  lemma SplitHeadersAt(hdr: map<nat, Header>, a: nat, wanted: nat, x: nat)
    requires a in hdr && wanted + HEADER <= hdr[a].size && a != NULL && hdr[a].next != a
    requires hdr[a].next != NULL ==> hdr[a].next in hdr && hdr[a].next != a + HEADER + wanted
    requires x in hdr || x == a + HEADER + wanted
    ensures x in SplitHeaders(hdr, a, wanted)
    ensures var b := a + HEADER + wanted;
            SplitHeaders(hdr, a, wanted)[x] ==
              if x == a then Header(wanted, hdr[a].free, b, hdr[a].prev)
              else if x == hdr[a].next && x != NULL then hdr[x].(prev := b)
              else if x == b then Header(hdr[a].size - wanted - HEADER, true, hdr[a].next, a) else hdr[x]
  {
  }

  lemma SplitHeaderAt(hdr: map<nat, Header>, bs: seq<Block>, lo: nat, hi: nat, i: nat, wanted: nat, j: nat)
    requires (forall k :: 0 <= k < |bs| ==> HeaderAt(hdr, bs, k)) && Tiled(bs, lo, hi) && lo > 0 && i < |bs|
    requires wanted + HEADER + MIN_SPLIT <= bs[i].size && j < |bs| + 1
    ensures bs[i].addr in hdr && wanted + HEADER <= hdr[bs[i].addr].size
    ensures HeaderAt(SplitHeaders(hdr, bs[i].addr, wanted), Split(bs, i, wanted), j)
  {
    hide Tiled, SplitHeaders;
    SplitAddress(bs, lo, hi, i, wanted);
    assert HeaderAt(hdr, bs, i);
    Distinct(bs, lo, hi, i);
    if i + 1 < |bs| { Distinct(bs, lo, hi, i + 1); assert HeaderAt(hdr, bs, i + 1); }
    var k := if j <= i then j else j - 1;
    var x := if j == i + 1 then bs[i].addr + HEADER + wanted else bs[k].addr;
    if j != i + 1 { assert HeaderAt(hdr, bs, k); Distinct(bs, lo, hi, k); }
    SplitHeadersAt(hdr, bs[i].addr, wanted, x);
  }

  lemma SplitLinked(hdr: map<nat, Header>, head: nat, bs: seq<Block>, lo: nat, hi: nat, i: nat, wanted: nat)
    requires Linked(hdr, head, bs) && Tiled(bs, lo, hi) && lo > 0 && i < |bs|
    requires wanted + HEADER + MIN_SPLIT <= bs[i].size
    ensures bs[i].addr in hdr && wanted + HEADER <= hdr[bs[i].addr].size
    ensures Linked(SplitHeaders(hdr, bs[i].addr, wanted), head, Split(bs, i, wanted))
  {
    hide OthersFree, Listed, HeaderAt, SplitHeaders, Tiled;
    SplitHeaderAt(hdr, bs, lo, hi, i, wanted, 0);
    var r := Split(bs, i, wanted);
    forall j | 0 <= j < |r| ensures HeaderAt(SplitHeaders(hdr, bs[i].addr, wanted), r, j) {
      SplitHeaderAt(hdr, bs, lo, hi, i, wanted, j);
    }
    assert hdr[bs[i].addr].size == bs[i].size by { HeaderSize(hdr, bs, i); }
    SplitOthers(hdr, bs, i, wanted);
  }

  lemma HeaderSize(hdr: map<nat, Header>, bs: seq<Block>, i: nat)
    requires i < |bs| && HeaderAt(hdr, bs, i)
    ensures bs[i].addr in hdr && hdr[bs[i].addr].size == bs[i].size
  {
  }

  lemma SplitOthers(hdr: map<nat, Header>, bs: seq<Block>, i: nat, wanted: nat)
    requires OthersFree(hdr, bs) && i < |bs| && wanted + HEADER + MIN_SPLIT <= bs[i].size
    requires bs[i].addr in hdr && hdr[bs[i].addr].size == bs[i].size
    ensures OthersFree(SplitHeaders(hdr, bs[i].addr, wanted), Split(bs, i, wanted))
  {
    hide OthersFree, Listed;
    SplitListed(bs, i, wanted);
    OthersKept(hdr, bs, SplitHeaders(hdr, bs[i].addr, wanted), Split(bs, i, wanted));
  }

  lemma SplitListed(bs: seq<Block>, i: nat, wanted: nat)
    requires i < |bs| && wanted + HEADER + MIN_SPLIT <= bs[i].size
    ensures forall j :: 0 <= j < |bs| ==> Listed(Split(bs, i, wanted), bs[j].addr)
  {
    var r := Split(bs, i, wanted);
    forall j | 0 <= j < |bs| ensures Listed(r, bs[j].addr) {
      assert r[if j <= i then j else j + 1].addr == bs[j].addr;
    }
  }

  /** Strictly increasing, non-null addresses. */
  ghost predicate Ascending(bs: seq<Block>) {
    && (forall i, j :: 0 <= i < j < |bs| ==> bs[i].addr < bs[j].addr)
    && (forall i :: 0 <= i < |bs| ==> bs[i].addr > 0)
  }

  lemma TiledAscending(bs: seq<Block>, lo: nat, hi: nat)
    requires Tiled(bs, lo, hi) && lo > 0
    ensures Ascending(bs)
    ensures forall i :: 0 <= i < |bs| ==> bs[i].addr < hi
  {
    forall i, j | 0 <= i < j < |bs| ensures bs[i].addr < bs[j].addr { Ordered(bs, lo, hi, i, j); }
    forall i | 0 <= i < |bs| ensures 0 < bs[i].addr < hi { Within(bs, lo, hi, i); }
  }

  /** The first index whose block lies at or above addr. */
  function Place(bs: seq<Block>, addr: nat, from: nat): (k: nat)
    requires from <= |bs|
    ensures from <= k <= |bs| && (k < |bs| ==> bs[k].addr >= addr)
    ensures forall j :: from <= j < k ==> bs[j].addr < addr
    decreases |bs| - from
  {
    if from == |bs| || bs[from].addr >= addr then from else Place(bs, addr, from + 1)
  }

  function InsertAt(bs: seq<Block>, k: nat, b: Block): seq<Block>
    requires k <= |bs|
  {
    bs[..k] + [b] + bs[k..]
  }

  /** Linking a header between its two neighbours, either of which may be missing. */
  function LinkBetween(hdr: map<nat, Header>, prev: nat, added: nat, next: nat): map<nat, Header>
    requires added in hdr && (prev != NULL ==> prev in hdr) && (next != NULL ==> next in hdr)
  {
    var h1 := if prev != NULL then hdr[prev := hdr[prev].(next := added)] else hdr;
    var h2 := h1[added := h1[added].(prev := prev, next := next)];
    if next != NULL then h2[next := h2[next].(prev := added)] else h2
  }

  ghost predicate Insertable(hdr: map<nat, Header>, head: nat, bs: seq<Block>, b: Block) {
    && Linked(hdr, head, bs) && Ascending(bs)
    && b.addr > 0 && b.addr in hdr && hdr[b.addr].size == b.size && hdr[b.addr].free == b.free
    && forall i :: 0 <= i < |bs| ==> bs[i].addr != b.addr
  }

  lemma Neighbours(hdr: map<nat, Header>, head: nat, bs: seq<Block>, k: nat)
    requires Linked(hdr, head, bs) && Ascending(bs) && k <= |bs|
    ensures k > 0 ==> bs[k - 1].addr in hdr && bs[k - 1].addr != NULL
    ensures k < |bs| ==> bs[k].addr in hdr && bs[k].addr != NULL && hdr[bs[k].addr].prev == AddrAt(bs, k - 1)
    ensures (AddrAt(bs, k) == NULL) == (k == |bs|) && (AddrAt(bs, k) == head && bs != []) == (k == 0 && bs != [])
  {
    if k > 0 { assert HeaderAt(hdr, bs, k - 1); }
    if k < |bs| { assert HeaderAt(hdr, bs, k); }
  }

  lemma LinkBetweenAt(hdr: map<nat, Header>, prev: nat, added: nat, next: nat, x: nat)
    requires added in hdr && (prev != NULL ==> prev in hdr) && (next != NULL ==> next in hdr) && added != NULL
    requires prev != added && next != added && (prev == next ==> prev == NULL) && x in hdr && x != NULL
    ensures x in LinkBetween(hdr, prev, added, next)
    ensures LinkBetween(hdr, prev, added, next)[x] ==
              if x == added then hdr[x].(prev := prev, next := next)
              else if x == prev then hdr[x].(next := added)
              else if x == next then hdr[x].(prev := added) else hdr[x]
  {
  }

  lemma InsertHeaderAt(hdr: map<nat, Header>, head: nat, bs: seq<Block>, k: nat, b: Block, j: nat)
    requires Insertable(hdr, head, bs, b) && k <= |bs| && j < |bs| + 1
    ensures (k > 0 ==> bs[k - 1].addr in hdr) && (k < |bs| ==> bs[k].addr in hdr)
    ensures HeaderAt(LinkBetween(hdr, AddrAt(bs, k - 1), b.addr, AddrAt(bs, k)), InsertAt(bs, k, b), j)
  {
    hide OthersFree, LinkBetween;
    Neighbours(hdr, head, bs, k);
    var i := if j < k then j else j - 1;
    if j != k { assert HeaderAt(hdr, bs, i); }
    var x := if j == k then b.addr else bs[i].addr;
    assert j != k && i != k - 1 && k > 0 ==> x != bs[k - 1].addr;
    assert j != k && i != k && k < |bs| ==> x != bs[k].addr;
    LinkBetweenAt(hdr, AddrAt(bs, k - 1), b.addr, AddrAt(bs, k), x);
  }

  lemma InsertLinked(hdr: map<nat, Header>, head: nat, bs: seq<Block>, k: nat, b: Block)
    requires Insertable(hdr, head, bs, b) && k <= |bs|
    ensures k > 0 ==> bs[k - 1].addr in hdr
    ensures k < |bs| ==> bs[k].addr in hdr
    ensures Linked(LinkBetween(hdr, AddrAt(bs, k - 1), b.addr, AddrAt(bs, k)),
                   if k == 0 then b.addr else head, InsertAt(bs, k, b))
  {
    hide OthersFree, Listed, HeaderAt;
    InsertHeaderAt(hdr, head, bs, k, b, 0);
    var hdr' := LinkBetween(hdr, AddrAt(bs, k - 1), b.addr, AddrAt(bs, k));
    var r := InsertAt(bs, k, b);
    forall j | 0 <= j < |r| ensures HeaderAt(hdr', r, j) { InsertHeaderAt(hdr, head, bs, k, b, j); }
    InsertListed(bs, k, b);
    OthersKept(hdr, bs, hdr', r);
  }

  lemma InsertListed(bs: seq<Block>, k: nat, b: Block)
    requires k <= |bs|
    ensures forall j :: 0 <= j < |bs| ==> Listed(InsertAt(bs, k, b), bs[j].addr)
  {
    var r := InsertAt(bs, k, b);
    forall j | 0 <= j < |bs| ensures Listed(r, bs[j].addr) {
      assert r[if j < k then j else j + 1].addr == bs[j].addr;
    }
  }

  // ------------------------------------------------ the allocator object

  /** The static variables of the heap, and the headers in its pages. */
  datatype Memory = Memory(hdr: map<nat, Header>, head: nat, vnext: nat, regionBytes: nat, mappedPages: nat,
                           active: nat, total: nat)

  datatype Panic = TooLarge | CannotGrow | FailedAfterGrowth | OutsideRegion | BadMagic | DoubleFree
  datatype Outcome = Null | Pointer(addr: nat) | Panicked(why: Panic)

  function Align8(n: nat): (r: nat)
    ensures r % 8 == 0 && n <= r < n + 8
  {
    (n + 7) / 8 * 8
  }

  /** The page count `heap_grow` computes in 32-bit arithmetic. */
  function GrowPages(wanted: nat): (p: nat)
    ensures p >= 1
    ensures wanted + HEADER + PAGE - 1 < U32 ==> wanted + HEADER <= p * PAGE < U32
    ensures U32 <= wanted + HEADER + PAGE - 1 < U32 + PAGE ==> p == 1
  {
    var p := (wanted + HEADER + PAGE - 1) % U32 / PAGE;
    if p == 0 then 1 else p
  }

  /** Whether `heap_grow` finds room below the limit; `mapped` says whether the pages could be mapped. */
  predicate CanGrow(vnext: nat, wanted: nat, mapped: bool) {
    wanted <= U32 - 1 - HEADER && mapped && vnext + GrowPages(wanted) * PAGE <= LIMIT
  }

  /** What `kmalloc` returns for a rounded request, and the blocks it leaves: first fit, else grow once and retry. */
  function Malloc(bs: seq<Block>, vnext: nat, wanted: nat, mapped: bool): (Outcome, seq<Block>) {
    var i := FindFree(bs, wanted, 0);
    if i < |bs| then (Pointer(bs[i].Payload()), Alloc(bs, i, wanted))
    else if !CanGrow(vnext, wanted, mapped) then (Panicked(CannotGrow), bs)
    else
      var g := AddRegion(bs, vnext, GrowPages(wanted));
      var j := FindFree(g, wanted, 0);
      if j < |g| then (Pointer(g[j].Payload()), Alloc(g, j, wanted)) else (Panicked(FailedAfterGrowth), g)
  }

  /** Growing is not always enough: the retry fails exactly when the page count wrapped in 32 bits. */
  lemma FailsAfterGrowthIff(bs: seq<Block>, vnext: nat, wanted: nat, mapped: bool)
    requires HeapOk(bs, BASE, vnext) && vnext % PAGE == 0 && vnext <= LIMIT
    ensures Malloc(bs, vnext, wanted, mapped).0 == Panicked(FailedAfterGrowth)
            <==> CanGrow(vnext, wanted, mapped) && wanted + HEADER + PAGE - 1 >= U32
  {
    var i := FindFree(bs, wanted, 0);
    if i < |bs| { Within(bs, BASE, vnext, i); }
    else if CanGrow(vnext, wanted, mapped) {
      var pages := GrowPages(wanted);
      var g := AddRegion(bs, vnext, pages);
      var j := FindFree(g, wanted, 0);
      AddRegionKeeps(bs, BASE, vnext, pages);
      if wanted + HEADER + PAGE - 1 < U32 { GrowthFits(bs, BASE, vnext, pages, wanted); }
      else if j < |g| { Within(g, BASE, vnext + pages * PAGE, j); }
    }
  }

  /** Some free block is large enough. */
  ghost predicate Fits(bs: seq<Block>, wanted: nat) {
    exists b :: b in bs && b.free && b.size >= wanted
  }

  lemma FitsIff(bs: seq<Block>, wanted: nat)
    ensures Fits(bs, wanted) <==> FindFree(bs, wanted, 0) < |bs|
  {
    var i := FindFree(bs, wanted, 0);
    if i < |bs| { assert bs[i] in bs; }
  }

  /** The bytes of new pages that a request and its header take, whole pages of 4096. */
  function NewBytes(wanted: nat): nat {
    (wanted + 24 + 4095) / 4096 * 4096
  }

  lemma GrowsBy(wanted: nat)
    requires 0 < wanted && wanted + 24 + 4095 < U32
    ensures GrowPages(wanted) * PAGE == NewBytes(wanted)
  {
  }

  /** `kmalloc` finds memory exactly when a free block is large enough, or the new pages can be mapped and end at or below
      the limit of the heap; the heap then grows by exactly those pages.  A request so large that its page count would not
      fit in 32 bits never succeeds. */
  lemma MallocSucceedsIff(bs: seq<Block>, vnext: nat, wanted: nat, mapped: bool)
    requires HeapOk(bs, BASE, vnext) && vnext % PAGE == 0 && vnext <= LIMIT && wanted >= 8 && wanted % 8 == 0
    ensures var (r, after) := Malloc(bs, vnext, wanted, mapped);
            && (r.Pointer? <==>
                  && wanted + 24 + 4095 < U32
                  && (Fits(bs, wanted) || (mapped && vnext + NewBytes(wanted) <= 0xD200_0000)))
            && (r.Pointer? ==> HeapOk(after, 0xD100_0000, vnext + (if Fits(bs, wanted) then 0 else NewBytes(wanted))))
  {
    hide HeapOk, Alloc, AddRegion, Fits;
    FitsIff(bs, wanted);
    FailsAfterGrowthIff(bs, vnext, wanted, mapped);
    var i := FindFree(bs, wanted, 0);
    if wanted + 24 + 4095 < U32 { GrowsBy(wanted); }
    if i < |bs| {
      InHeap(bs, vnext, i);
      AllocKeeps(bs, BASE, vnext, i, wanted);
    } else if CanGrow(vnext, wanted, mapped) {
      var pages := GrowPages(wanted);
      var g := AddRegion(bs, vnext, pages);
      AddRegionKeeps(bs, BASE, vnext, pages);
      var j := FindFree(g, wanted, 0);
      if j < |g| { AllocKeeps(g, BASE, vnext + pages * PAGE, j, wanted); }
    }
  }

  /** The same for the heap object, whose end its blocks determine. */
  lemma MallocFacts(bs: seq<Block>, pages: nat, wanted: nat, mapped: bool, r: Outcome, after: seq<Block>, end: nat)
    requires HeapOk(bs, BASE, BASE + PAGE * pages) && BASE + PAGE * pages <= LIMIT && wanted >= 8 && wanted % 8 == 0
    requires (r, after) == Malloc(bs, BASE + PAGE * pages, wanted, mapped) && HeapOk(after, BASE, end)
    ensures r.Pointer? <==>
              && wanted + 24 + 4095 < U32
              && (Fits(bs, wanted) || (mapped && BASE + PAGE * pages + NewBytes(wanted) <= 0xD200_0000))
    ensures r.Pointer? ==> end == BASE + PAGE * pages + (if Fits(bs, wanted) then 0 else NewBytes(wanted))
  {
    hide Malloc, Fits, NewBytes, BlocksOk, Coalesced;
    MallocSucceedsIff(bs, BASE + PAGE * pages, wanted, mapped);
  }

  lemma InHeap(bs: seq<Block>, vnext: nat, i: nat)
    requires HeapOk(bs, BASE, vnext) && vnext <= LIMIT && i < |bs|
    ensures bs[i].size < 0x100_0000
  {
    Within(bs, BASE, vnext, i);
  }

  /** The heap as it starts, with four pages, and a request for the stack of a thread: five more pages. */
  lemma ThreadStackExample()
    ensures var bs := [Block(BASE, 16360, true)];
            && HeapOk(bs, BASE, BASE + 0x4000)
            && Malloc(bs, BASE + 0x4000, 16384, true).0.Pointer?
            && HeapOk(Malloc(bs, BASE + 0x4000, 16384, true).1, BASE, BASE + 0x9000)
  {
    var bs := [Block(BASE, 16360, true)];
    assert !Fits(bs, 16384);
    MallocSucceedsIff(bs, BASE + 0x4000, 16384, true);
  }

  /** A pointer handed out starts a used block of the list: aligned, inside the heap, at least as big as the request and less than 40 bytes bigger,
      new, and disjoint, header included, from every other block; earlier allocations stay where and as long as they
      were. */
  lemma MallocGood(bs: seq<Block>, vnext: nat, wanted: nat, mapped: bool)
    requires HeapOk(bs, BASE, vnext) && vnext % PAGE == 0 && wanted >= 8 && wanted % 8 == 0
    requires Malloc(bs, vnext, wanted, mapped).0.Pointer?
    ensures var (r, after) := Malloc(bs, vnext, wanted, mapped);
            var grown := FindFree(bs, wanted, 0) == |bs|;
            exists i :: 0 <= i < |after| && after[i].Payload() == r.addr && !after[i].free && wanted <= after[i].size < wanted + 40
                        && r.addr % 8 == 0
                        && 0xD100_0000 <= after[i].addr && after[i].End() <= vnext + (if grown then GrowPages(wanted) * PAGE else 0)
                        && UsedBlocks(after) == UsedBlocks(bs) + {after[i]} && after[i] !in UsedBlocks(bs)
                        && (forall b :: b in after && b != after[i] ==> Apart(after[i], b))
  {
    hide HeapOk, Alloc, AddRegion, UsedBlocks;
    var i := FindFree(bs, wanted, 0);
    if i < |bs| { AllocGood(bs, BASE, vnext, i, wanted); AllocAt(bs, i, wanted); }
    else {
      var pages := GrowPages(wanted);
      var g := AddRegion(bs, vnext, pages);
      var j := FindFree(g, wanted, 0);
      AddRegionKeeps(bs, BASE, vnext, pages);
      AddRegionKeepsUsed(bs, vnext, pages);
      AllocGood(g, BASE, vnext + pages * PAGE, j, wanted);
      AllocAt(g, j, wanted);
    }
  }

  lemma AllocAt(bs: seq<Block>, i: nat, wanted: nat)
    requires i < |bs| && wanted <= bs[i].size
    ensures i < |Alloc(bs, i, wanted)| && Alloc(bs, i, wanted)[i].addr == bs[i].addr
  {
  }

  lemma AddRegionKeepsUsed(bs: seq<Block>, hi: nat, pages: nat)
    requires pages > 0
    ensures UsedBlocks(AddRegion(bs, hi, pages)) == UsedBlocks(bs)
  {
    var f := bs + [Block(hi, pages * PAGE - HEADER, true)];
    assert UsedBlocks(f) == UsedBlocks(bs);
    if |bs| > 0 && bs[|bs| - 1].free && bs[|bs| - 1].End() == hi { MergeKeepsUsed(f, |bs| - 1); }
  }

  /** Where the header of a pointer lies. */
  function HeaderOf(ptr: nat): nat {
    if ptr >= 24 then ptr - 24 else 0
  }

  /** Freeing the pointer `kmalloc` returned finds its block and leaves the exact list there was, with the new pages
      added if the heap had to grow. */
  lemma MallocFreeRoundTrip(bs: seq<Block>, vnext: nat, wanted: nat, mapped: bool)
    requires HeapOk(bs, BASE, vnext) && vnext % PAGE == 0 && wanted >= 8 && wanted % 8 == 0
    requires Malloc(bs, vnext, wanted, mapped).0.Pointer?
    ensures var (r, after) := Malloc(bs, vnext, wanted, mapped);
            var k := IndexOf(after, HeaderOf(r.addr));
            && k < |after| && !after[k].free
            && Free(after, k) == if FindFree(bs, wanted, 0) < |bs| then bs else AddRegion(bs, vnext, GrowPages(wanted))
  {
    hide HeapOk, Alloc, AddRegion, Free;
    var i := FindFree(bs, wanted, 0);
    if i < |bs| { TakeGiveBack(bs, BASE, vnext, i, wanted); }
    else {
      var pages := GrowPages(wanted);
      var g := AddRegion(bs, vnext, pages);
      AddRegionKeeps(bs, BASE, vnext, pages);
      TakeGiveBack(g, BASE, vnext + pages * PAGE, FindFree(g, wanted, 0), wanted);
    }
  }

  lemma TakeGiveBack(bs: seq<Block>, lo: nat, hi: nat, i: nat, wanted: nat)
    requires HeapOk(bs, lo, hi) && i < |bs| && bs[i].free && 8 <= wanted <= bs[i].size && wanted % 8 == 0
    ensures var r := Alloc(bs, i, wanted); var k := IndexOf(r, bs[i].addr);
            k < |r| && !r[k].free && Free(r, k) == bs
  {
    hide Free;
    AllocKeeps(bs, lo, hi, i, wanted);
    IndexAt(Alloc(bs, i, wanted), lo, hi, i);
    AllocFreeRoundTrip(bs, lo, hi, i, wanted);
  }

  /** A request that makes a fresh one-page heap grow and then fail. */
  lemma FailsAfterGrowthExample()
    ensures var bs := [Block(BASE, PAGE - HEADER, true)];
            HeapOk(bs, BASE, BASE + PAGE) && Malloc(bs, BASE + PAGE, 0xFFFF_FFE0, true).0 == Panicked(FailedAfterGrowth)
  {
    var bs := [Block(BASE, PAGE - HEADER, true)];
    assert GrowPages(0xFFFF_FFE0) == 1;
    FailsAfterGrowthIff(bs, BASE + PAGE, 0xFFFF_FFE0, true);
  }

  class KernelHeap {
    var m: Memory
    ghost var blocks: seq<Block>

    ghost predicate Valid()
      reads this
    {
      && Linked(m.hdr, m.head, blocks)
      && HeapOk(blocks, BASE, m.vnext)
      && m.vnext <= LIMIT && m.vnext == BASE + m.regionBytes && m.regionBytes == PAGE * m.mappedPages
      && m.active == UsedCount(blocks)
    }

    /** The assignments of `heap_init`. */
    constructor ()
      ensures Valid() && blocks == [] && m.vnext == BASE && m.total == 0
    {
      m := Memory(map[], NULL, BASE, 0, 0, 0, 0);
      blocks := [];
    }

    method FindFreeBlock(wanted: nat) returns (block: nat)
      requires Valid()
      ensures var i := FindFree(blocks, wanted, 0); if i < |blocks| then block == blocks[i].addr != NULL else block == NULL
    {
      TiledAscending(blocks, BASE, m.vnext);
      block := m.head;
      ghost var i := 0;
      while block != NULL
        invariant i <= |blocks| && block == AddrAt(blocks, i)
        invariant FindFree(blocks, wanted, 0) == FindFree(blocks, wanted, i)
        decreases |blocks| - i
      {
        assert HeaderAt(m.hdr, blocks, i);
        if m.hdr[block].free && m.hdr[block].size >= wanted { return; }
        block := m.hdr[block].next;
        i := i + 1;
      }
    }

    /** The headers list the blocks, which tile the heap; two neighbours may be free while an operation is under way. */
    ghost predicate Working()
      reads this
    {
      Linked(m.hdr, m.head, blocks) && Bare(blocks, BASE, m.vnext)
    }

    method SplitBlock(block: nat, wanted: nat, ghost i: nat)
      requires Working() && i < |blocks| && block == blocks[i].addr
      requires 8 <= wanted <= blocks[i].size && wanted % 8 == 0
      modifies this
      ensures Working() && blocks == Split(old(blocks), i, wanted)
      ensures m == old(m).(hdr := m.hdr)
    {
      assert HeaderAt(m.hdr, blocks, i);
      var h := m.hdr[block];
      var leftover := h.size - wanted;
      if leftover < HEADER + MIN_SPLIT { return; }
      SplitLinked(m.hdr, m.head, blocks, BASE, m.vnext, i, wanted);
      SplitKeeps(blocks, BASE, m.vnext, i, wanted);
      ghost var after := SplitHeaders(m.hdr, block, wanted);
      assert h.next != NULL ==> HeaderAt(m.hdr, blocks, i + 1);
      var split := block + HEADER + wanted;
      var hdr := m.hdr[split := Header(leftover - HEADER, true, h.next, block)];
      if h.next != NULL { hdr := hdr[h.next := hdr[h.next].(prev := split)]; }
      hdr := hdr[block := Header(wanted, h.free, split, h.prev)];
      assert hdr == after;
      m := m.(hdr := hdr);
      blocks := Split(blocks, i, wanted);
    }

    method SetBlockFree(block: nat, free: bool, ghost i: nat)
      requires Working() && i < |blocks| && block == blocks[i].addr
      modifies this
      ensures Working() && blocks == SetFree(old(blocks), i, free)
      ensures m == old(m).(hdr := m.hdr)
    {
      SetFreeLinked(m.hdr, m.head, blocks, BASE, m.vnext, i, free);
      SetFreeKeeps(blocks, BASE, m.vnext, i, free);
      m := m.(hdr := m.hdr[block := m.hdr[block].(free := free)]);
      blocks := SetFree(blocks, i, free);
    }

    method CoalesceWithNext(block: nat, ghost i: nat)
      requires Working() && i < |blocks| && block == blocks[i].addr
      modifies this
      ensures Working() && blocks == CoalesceNext(old(blocks), i)
      ensures m == old(m).(hdr := m.hdr)
    {
      assert HeaderAt(m.hdr, blocks, i);
      var next := m.hdr[block].next;
      if next == NULL {
        if i + 1 < |blocks| { Distinct(blocks, BASE, m.vnext, i + 1); }
        return;
      }
      assert HeaderAt(m.hdr, blocks, i + 1);
      var h, n := m.hdr[block], m.hdr[next];
      if !h.free || !n.free { return; }
      if block + HEADER + h.size != next { return; }
      MergeLinked(m.hdr, m.head, blocks, BASE, m.vnext, i);
      MergeKeeps(blocks, BASE, m.vnext, i);
      ghost var after := MergedHeaders(m.hdr, block);
      assert n.next != NULL ==> HeaderAt(m.hdr, blocks, i + 2);
      var hdr := m.hdr[block := h.(size := h.size + HEADER + n.size, next := n.next)];
      if n.next != NULL { hdr := hdr[n.next := hdr[n.next].(prev := block)]; }
      assert hdr == after;
      m := m.(hdr := hdr);
      blocks := Merge(blocks, i);
    }

    method CoalesceAroundBlock(block: nat, ghost i: nat)
      requires Working() && i < |blocks| && block == blocks[i].addr
      modifies this
      ensures Working() && blocks == CoalesceAround(old(blocks), i)
      ensures m == old(m).(hdr := m.hdr)
    {
      CoalesceWithNext(block, i);
      assert HeaderAt(m.hdr, blocks, i);
      var prev := m.hdr[block].prev;
      if prev != NULL {
        assert HeaderAt(m.hdr, blocks, i - 1);
        if m.hdr[prev].free && prev + HEADER + m.hdr[prev].size == block { CoalesceWithNext(prev, i - 1); }
      } else if i > 0 {
        Distinct(blocks, BASE, m.vnext, i - 1);
      }
    }

    /** `insert_block_sorted`, for a block header already written. */
    method InsertBlockSorted(newBlock: nat, ghost b: Block)
      requires Insertable(m.hdr, m.head, blocks, b) && newBlock == b.addr
      modifies this
      ensures blocks == InsertAt(old(blocks), Place(old(blocks), b.addr, 0), b)
      ensures Linked(m.hdr, m.head, blocks) && m == old(m).(hdr := m.hdr, head := m.head)
    {
      ghost var k: int := Place(blocks, newBlock, 0);
      InsertLinked(m.hdr, m.head, blocks, k, b);
      Neighbours(m.hdr, m.head, blocks, k);
      Neighbours(m.hdr, m.head, blocks, 0);
      ghost var after := LinkBetween(m.hdr, AddrAt(blocks, k - 1), newBlock, AddrAt(blocks, k));
      blocks := InsertAt(blocks, k, b);
      var hdr := m.hdr;
      if m.head == NULL {
        hdr := hdr[newBlock := hdr[newBlock].(prev := NULL, next := NULL)];
        assert hdr == after;
        m := m.(hdr := hdr, head := newBlock);
        return;
      }
      var current := FindPlace(newBlock, old(blocks));
      if current == m.head {
        hdr := hdr[newBlock := hdr[newBlock].(prev := NULL, next := m.head)];
        hdr := hdr[m.head := hdr[m.head].(prev := newBlock)];
        assert hdr == after;
        m := m.(hdr := hdr, head := newBlock);
      } else if current == NULL {
        var tail := FindTail(old(blocks));
        hdr := hdr[tail := hdr[tail].(next := newBlock)];
        hdr := hdr[newBlock := hdr[newBlock].(prev := tail, next := NULL)];
        assert hdr == after;
        m := m.(hdr := hdr);
      } else {
        var previous := hdr[current].prev;
        hdr := hdr[previous := hdr[previous].(next := newBlock)];
        hdr := hdr[newBlock := hdr[newBlock].(prev := previous, next := current)];
        hdr := hdr[current := hdr[current].(prev := newBlock)];
        assert hdr == after;
        m := m.(hdr := hdr);
      }
    }

    method FindPlace(newBlock: nat, ghost bs: seq<Block>) returns (current: nat)
      requires Linked(m.hdr, m.head, bs) && Ascending(bs)
      ensures current == AddrAt(bs, Place(bs, newBlock, 0))
    {
      current := m.head;
      ghost var k := 0;
      while current != NULL && current < newBlock
        invariant k <= |bs| && current == AddrAt(bs, k)
        invariant Place(bs, newBlock, 0) == Place(bs, newBlock, k)
        decreases |bs| - k
      {
        assert HeaderAt(m.hdr, bs, k);
        current := m.hdr[current].next;
        k := k + 1;
      }
    }

    method FindTail(ghost bs: seq<Block>) returns (tail: nat)
      requires Linked(m.hdr, m.head, bs) && Ascending(bs) && bs != []
      ensures tail == bs[|bs| - 1].addr
    {
      tail := m.head;
      ghost var i := 0;
      assert HeaderAt(m.hdr, bs, 0);
      while m.hdr[tail].next != NULL
        invariant i < |bs| && tail == bs[i].addr && HeaderAt(m.hdr, bs, i)
        decreases |bs| - i
      {
        tail := m.hdr[tail].next;
        i := i + 1;
        assert HeaderAt(m.hdr, bs, i);
      }
    }

    /** Account for newly mapped pages and write a header over them. */
    method WriteRegion(pages: nat, regionBytes: nat)
      requires Valid() && pages > 0 && regionBytes == pages * PAGE && m.vnext + regionBytes <= LIMIT
      modifies this`m
      ensures m == old(m).(hdr := m.hdr, vnext := old(m.vnext) + regionBytes,
                           regionBytes := old(m.regionBytes) + regionBytes, mappedPages := old(m.mappedPages) + pages)
      ensures Insertable(m.hdr, m.head, blocks, Block(old(m.vnext), regionBytes - HEADER, true))
      ensures Place(blocks, old(m.vnext), 0) == |blocks|
    {
      TiledAscending(blocks, BASE, m.vnext);
      var hdr := m.hdr[m.vnext := Header(regionBytes - HEADER, true, NULL, NULL)];
      forall i | 0 <= i < |blocks| ensures HeaderAt(hdr, blocks, i) { assert HeaderAt(m.hdr, blocks, i); }
      m := m.(hdr := hdr, vnext := m.vnext + regionBytes, regionBytes := m.regionBytes + regionBytes,
              mappedPages := m.mappedPages + pages);
    }

    /** `heap_add_region`; `mapped` says whether the pages could be mapped, which takes fewer than 2^20 frames. */
    method AddRegionPages(pages: nat, mapped: bool) returns (grown: bool)
      requires Valid() && (mapped ==> pages * PAGE < U32)
      modifies this
      ensures Valid()
      ensures var n := if pages == 0 then 1 else pages;
              && grown == (mapped && old(m.vnext) + n * PAGE <= LIMIT)
              && blocks == (if grown then AddRegion(old(blocks), old(m.vnext), n) else old(blocks))
              && m.vnext == old(m.vnext) + (if grown then n * PAGE else 0)
      ensures m.total == old(m.total)
    {
      var n := if pages == 0 then 1 else pages;
      var regionBytes := n * PAGE % U32;
      if regionBytes > LIMIT - m.vnext || !mapped { return false; }
      AddMapped(n);
      return true;
    }

    /** `heap_init` on the state those assignments leave: one free block over the first region, or the panic. */
    method Init(pages: nat, mapped: bool) returns (panicked: bool)
      requires Valid() && blocks == [] && m.vnext == BASE && (mapped ==> pages * PAGE < U32)
      modifies this
      ensures Valid() && m.total == old(m.total)
      ensures var n := if pages == 0 then 1 else pages;
              && panicked == !(mapped && BASE + n * PAGE <= LIMIT)
              && (!panicked ==> OneFreeBlock(blocks, BASE, BASE + n * PAGE) && m.vnext == BASE + n * PAGE)
    {
      var grown := AddRegionPages(if pages == 0 then 1 else pages, mapped);
      return !grown;
    }

    /** The part of `heap_add_region` after its pages are mapped. */
    method AddMapped(n: nat)
      requires Valid() && n > 0 && m.vnext + n * PAGE <= LIMIT
      modifies this
      ensures Valid() && blocks == AddRegion(old(blocks), old(m.vnext), n)
      ensures m.vnext == old(m.vnext) + n * PAGE && m.total == old(m.total)
    {
      var start := m.vnext;
      ghost var b := Block(start, n * PAGE - HEADER, true);
      AppendKeeps(blocks, BASE, start, n);
      AddRegionKeeps(blocks, BASE, start, n);
      WriteRegion(n, n * PAGE);
      InsertBlockSorted(start, b);
      assert blocks == old(blocks) + [b];
      CoalesceAroundBlock(start, |blocks| - 1);
    }

    /** `heap_grow` */
    method Grow(wanted: nat, mapped: bool) returns (grown: bool)
      requires Valid() && wanted < U32
      modifies this
      ensures Valid() && m.total == old(m.total)
      ensures grown == CanGrow(old(m.vnext), wanted, mapped)
      ensures blocks == (if grown then AddRegion(old(blocks), old(m.vnext), GrowPages(wanted)) else old(blocks))
      ensures m.vnext == old(m.vnext) + (if grown then GrowPages(wanted) * PAGE else 0)
    {
      if wanted > U32 - 1 - HEADER { return false; }
      var pages := (wanted + HEADER + PAGE - 1) % U32 / PAGE;
      grown := AddRegionPages(if pages == 0 then 1 else pages, mapped);
    }

    /** `kmalloc` */
    method Kmalloc(size: nat, mapped: bool) returns (r: Outcome)
      requires Valid() && size < U32
      modifies this
      ensures Valid()
      ensures size == 0 ==> r == Null && m == old(m) && blocks == old(blocks)
      ensures size > U32 - 8 ==> r == Panicked(TooLarge) && m == old(m) && blocks == old(blocks)
      ensures 0 < size <= U32 - 8 ==> (r, blocks) == Malloc(old(blocks), old(m.vnext), Align8(size), mapped)
      ensures m.total == old(m.total) + (if r.Pointer? then 1 else 0)
      ensures r.Pointer? ==>
                m.vnext == old(m.vnext) + (if Fits(old(blocks), Align8(size)) then 0 else NewBytes(Align8(size)))
      ensures r.Pointer? <==> && 0 < size && Align8(size) + 24 + 4095 < U32
                              && (Fits(old(blocks), Align8(size))
                                  || (mapped && old(m.vnext) + NewBytes(Align8(size)) <= 0xD200_0000))
    {
      hide Fits, NewBytes, HeapOk, Linked;
      if size == 0 { return Null; }
      if size > U32 - 8 { return Panicked(TooLarge); }
      var wanted := Align8(size);
      var block, why := FindOrGrow(wanted, mapped);
      if block == NULL {
        MallocFacts(old(blocks), old(m.mappedPages), wanted, mapped, Panicked(why), blocks, m.vnext);
        return Panicked(why);
      }
      Take(block, wanted, FindFree(blocks, wanted, 0));
      MallocFacts(old(blocks), old(m.mappedPages), wanted, mapped, Pointer(block + HEADER), blocks, m.vnext);
      return Pointer(block + HEADER);
    }

    /** The middle of `kmalloc`: the block to take, or the reason there is none. */
    method FindOrGrow(wanted: nat, mapped: bool) returns (block: nat, why: Panic)
      requires Valid() && wanted < U32
      modifies this
      ensures Valid() && m.total == old(m.total)
      ensures var i := FindFree(blocks, wanted, 0); if i < |blocks| then block == blocks[i].addr != NULL else block == NULL
      ensures if block != NULL
              then Malloc(old(blocks), old(m.vnext), wanted, mapped)
                   == (Pointer(block + HEADER), Alloc(blocks, FindFree(blocks, wanted, 0), wanted))
              else Malloc(old(blocks), old(m.vnext), wanted, mapped) == (Panicked(why), blocks)
    {
      hide HeapOk, Linked, Alloc, AddRegion;
      why := CannotGrow;
      block := FindFreeBlock(wanted);
      if block == NULL {
        var grown := Grow(wanted, mapped);
        if !grown { return; }
        why := FailedAfterGrowth;
        block := FindFreeBlock(wanted);
      }
    }

    /** The end of `kmalloc`: split the block found and mark it used. */
    method Take(block: nat, wanted: nat, ghost i: nat)
      requires Valid() && i < |blocks| && block == blocks[i].addr && blocks[i].free
      requires 8 <= wanted <= blocks[i].size && wanted % 8 == 0
      modifies this
      ensures Valid() && blocks == Alloc(old(blocks), i, wanted)
      ensures m == old(m).(hdr := m.hdr, active := old(m.active) + 1, total := old(m.total) + 1)
    {
      AllocKeeps(blocks, BASE, m.vnext, i, wanted);
      UsedCountAlloc(blocks, i, wanted);
      SplitBlock(block, wanted, i);
      SetBlockFree(block, false, i);
      m := m.(active := m.active + 1, total := m.total + 1);
    }

    /** `kfree`.  A header left behind by a merge still carries the magic number, and is marked free. */
    method Kfree(ptr: nat) returns (r: Outcome)
      requires Valid() && ptr < U32
      modifies this
      ensures Valid() && m.vnext == old(m.vnext) && m.total == old(m.total)
      ensures var bs := old(blocks);
              if ptr == NULL then r == Null && blocks == bs
              else if !(BASE <= ptr < m.vnext) || ptr < BASE + HEADER then r == Panicked(OutsideRegion) && blocks == bs
              else
                var i := IndexOf(bs, ptr - HEADER);
                if i == |bs| then r == Panicked(if ptr - HEADER in old(m.hdr) then DoubleFree else BadMagic) && blocks == bs
                else if bs[i].free then r == Panicked(DoubleFree) && blocks == bs
                else r == Null && blocks == Free(bs, i) && m.active == old(m.active) - 1
    {
      if ptr == NULL { return Null; }
      if !(BASE <= ptr < m.vnext) { return Panicked(OutsideRegion); }
      var block := ptr - HEADER;
      if block < BASE { return Panicked(OutsideRegion); }
      ghost var i := IndexOf(blocks, block);
      if i < |blocks| { assert HeaderAt(m.hdr, blocks, i); }
      if block !in m.hdr { return Panicked(BadMagic); }
      if m.hdr[block].free { return Panicked(DoubleFree); }
      FreeKeeps(blocks, BASE, m.vnext, i);
      UsedCountFree(blocks, i);
      SetBlockFree(block, true, i);
      if m.active > 0 { m := m.(active := m.active - 1); }
      CoalesceAroundBlock(block, i);
      return Null;
    }

    /** `heap_compute_stats`: the counts the walk returns account for every mapped byte. */
    method ComputeStats() returns (freeBytes: nat, usedBytes: nat, count: nat)
      requires Valid()
      ensures freeBytes == FreeBytes(blocks) && usedBytes == UsedBytes(blocks) && count == |blocks|
      ensures freeBytes + usedBytes + HEADER * count == m.regionBytes == PAGE * m.mappedPages
    {
      TiledAscending(blocks, BASE, m.vnext);
      Conservation(blocks, BASE, m.vnext);
      freeBytes, usedBytes, count := 0, 0, 0;
      var block := m.head;
      while block != NULL
        invariant count <= |blocks| && block == AddrAt(blocks, count)
        invariant freeBytes + FreeBytes(blocks[count..]) == FreeBytes(blocks)
        invariant usedBytes + UsedBytes(blocks[count..]) == UsedBytes(blocks)
        decreases |blocks| - count
      {
        assert HeaderAt(m.hdr, blocks, count);
        assert blocks[count..][1..] == blocks[count + 1..];
        if m.hdr[block].free { freeBytes := freeBytes + m.hdr[block].size; }
        else { usedBytes := usedBytes + m.hdr[block].size; }
        block := m.hdr[block].next;
        count := count + 1;
      }
    }
  }
}
