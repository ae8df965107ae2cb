/** Address spaces as the kernel manipulates them: directories, tables, mapping lists and the frames behind them. */
module AddressSpaces {
  import opened Base
  import opened Frames
  import opened Paging
  import opened PagingSteps
  import opened Access

  /** Page tables are allocated below 16 MiB, where memory is identity mapped. */
  const TABLE_LIMIT: nat := 0x1000

  const OK: int := 0
  const FAILED: int := -1
  const INVALID: int := -1
  const ALREADY_MAPPED: int := -3
  const NOT_MAPPED: int := -4

  /** The frame `pmm_alloc_page_below` hands out for a directory or table, or TABLE_LIMIT. */
  function TableFrameFor(free: set<nat>): (f: nat)
    ensures f <= 0x1000 && (f < 0x1000 <==> AnyFree(free, 256, 0x1000))
    ensures f < 0x1000 ==> f in free && forall g :: 256 <= g < f ==> g !in free
  {
    FirstFree(free, LOW_FRAMES, TABLE_LIMIT)
  }

  // ------------------------------------------------ what map does

  predicate Mappable(va: nat, pa: nat) {
    va % PAGE == 0 && pa % PAGE == 0 && UserPage(va / PAGE)
  }

  /** Whether a page's table exists or can be made. */
  predicate TableAtHand(m: Machine, sid: Sid, p: nat)
    requires sid in m.spaces
  {
    Present(m.Word(m.spaces[sid].dir, Slot(p))) || TableFrameFor(m.free) < TABLE_LIMIT
  }

  predicate UserFlag(flags: nat) { flags / 2 % 2 == 1 }
  predicate WritableFlag(flags: nat) { flags % 2 == 1 }

  /** `get_or_create_table`, when there is a table to be had. */
  function WithTable(m: Machine, sid: Sid, p: nat, flags: nat): Machine
    requires sid in m.spaces
  {
    var dir, f := m.spaces[sid].dir, TableFrameFor(m.free);
    if Present(m.Word(dir, Slot(p))) then m
    else m.(ram := m.ram[f := EMPTY], free := m.free - {f}).SetWord(dir, Slot(p), Entry(f, true, UserFlag(flags)))
  }

  /** `address_space_map_page`, when it succeeds. */
  function Mapped(m: Machine, sid: Sid, p: nat, f: nat, flags: nat): Machine
    requires sid in m.spaces
  {
    var m1 := WithTable(m, sid, p, flags);
    WithEntry(m1, sid, p, Entry(f, WritableFlag(flags), UserFlag(flags)),
              [Mapping(p * PAGE, f * PAGE)] + m.spaces[sid].mappings, m.spaces[sid].count + 1)
  }

  function TableOwners(m: Machine, ow: Owners, sid: Sid, p: nat): Owners
    requires sid in m.spaces
  {
    if Present(m.Word(m.spaces[sid].dir, Slot(p))) then ow else ow[TableFrameFor(m.free) := UserTable(sid, Slot(p))]
  }

  /** What mapping a page returns and leaves: it fails, and changes nothing, exactly when the page is mapped already, or
      has no table and no frame is left for one; else one translation and one list node are added. */
  ghost predicate MapResult(m: Machine, ow: Owners, m': Machine, ow': Owners, sid: Sid, p: nat, f: nat, flags: nat, code: int)
    requires sid in m.spaces
  {
    && code == (if TableAtHand(m, sid, p) && m.Lookup(sid, p) == None then OK else FAILED)
    && m'.spaces.Keys == m.spaces.Keys && (code == FAILED ==> m' == m && ow' == ow)
    && (code == OK ==>
          && Local(m, ow, m', ow', sid) && ViewSet(m, m', sid, p, Some(Entry(f, WritableFlag(flags), UserFlag(flags))))
          && SlotSet(m, m', sid, Slot(p), UserFlag(flags))
          && Owns(ow', f, Data(sid, p)) && sid in m'.spaces
          && m'.spaces[sid].mappings == [Mapping(p * PAGE, f * PAGE)] + m.spaces[sid].mappings
          && m'.free + ow'.Keys == m.free + ow.Keys + {f} && m.free - {TableFrameFor(m.free)} <= m'.free)
  }

  /** The word a mapped page's table entry holds: bit 0 of the flags makes it writable, bit 1 makes it the user's. */
  lemma MapWord(f: nat, flags: nat)
    ensures Entry(f, WritableFlag(flags), UserFlag(flags)) == f * 4096 + 1 + 2 * (flags % 2) + 4 * (flags / 2 % 2)
  {
  }

  /** What user code may do with a page just mapped: what the flags allow, unless the page's table was made earlier for a
      mapping that allowed less. */
  lemma MappedAccess(m: Machine, ow: Owners, m': Machine, ow': Owners, sid: Sid, p: nat, f: nat, flags: nat)
    requires sid in m.spaces && UserPage(p) && MapResult(m, ow, m', ow', sid, p, f, flags, OK)
    ensures var pde := m.Word(m.spaces[sid].dir, Slot(p));
            && (UserMay(m', sid, p, false) <==> flags / 2 % 2 == 1 && (Present(pde) ==> User(pde)))
            && (UserMay(m', sid, p, true) <==>
                  flags / 2 % 2 == 1 && flags % 2 == 1 && (Present(pde) ==> User(pde) && Writable(pde)))
  {
    hide Local;
    assert UserSlot(Slot(p));
  }

  /** A page mapped for the user behind a table that was made for a page of the kernel's: the user cannot reach it. */
  lemma PrivateTableHides(m: Machine, ow: Owners, m1: Machine, ow1: Owners, m2: Machine, ow2: Owners, sid: Sid,
                          p: nat, f: nat, q: nat, g: nat)
    requires sid in m.spaces && UserPage(p) && UserPage(q) && Slot(q) == Slot(p)
    requires !Present(m.Word(m.spaces[sid].dir, Slot(p)))
    requires MapResult(m, ow, m1, ow1, sid, p, f, 1, OK) && MapResult(m1, ow1, m2, ow2, sid, q, g, 3, OK)
    ensures !UserMay(m2, sid, q, false)
  {
    hide Local, ViewSet;
    assert UserSlot(Slot(p));
    MappedAccess(m1, ow1, m2, ow2, sid, q, g, 3);
  }

  ghost predicate CanMap(m: Machine, ow: Owners, sid: Sid, p: nat, f: nat) {
    && Inv(m, ow) && sid in m.spaces && UserPage(p) && f !in ow && f !in m.free && f >= LOW_FRAMES
    && TableAtHand(m, sid, p) && m.Lookup(sid, p) == None
  }

  lemma Unchanged(m: Machine, ow: Owners, sid: Sid)
    requires Inv(m, ow)
    ensures Local(m, ow, m, ow, sid) && SameView(m, m, sid)
  {
    hide Inv;
    forall f | f in ow ensures f !in m.free { InvOwner(m, ow, f); }
  }

  lemma LocalTransitive(m: Machine, ow: Owners, m1: Machine, ow1: Owners, m2: Machine, ow2: Owners, sid: Sid)
    requires Local(m, ow, m1, ow1, sid) && Local(m1, ow1, m2, ow2, sid)
    ensures Local(m, ow, m2, ow2, sid)
  {
  }

  /** Making a table changes no translation anywhere. */
  lemma WithTableKeeps(m: Machine, ow: Owners, sid: Sid, p: nat, f: nat, flags: nat)
    requires CanMap(m, ow, sid, p, f)
    ensures var m1, ow1 := WithTable(m, sid, p, flags), TableOwners(m, ow, sid, p);
            && Local(m, ow, m1, ow1, sid) && SameView(m, m1, sid) && m1.spaces == m.spaces
            && HasTable(m1, ow1, sid, p) && f !in ow1 && f !in m1.free
            && SlotSet(m, m1, sid, Slot(p), UserFlag(flags)) && m1.free + ow1.Keys == m.free + ow.Keys
  {
    hide Inv;
    var dir, t := m.spaces[sid].dir, TableFrameFor(m.free);
    if Present(m.Word(dir, Slot(p))) {
      Unchanged(m, ow, sid);
    } else {
      InvSpace(m, ow, sid);
      InvOwner(m, ow, dir);
      TableAddedKeeps(m, ow, WithTable(m, sid, p, flags), sid, Slot(p), t, Entry(t, true, UserFlag(flags)));
    }
  }

  /** Mapping adds exactly one translation to the space and none to any other. */
  lemma MappedKeeps(m: Machine, ow: Owners, sid: Sid, p: nat, f: nat, flags: nat)
    requires CanMap(m, ow, sid, p, f)
    ensures var m', ow' := Mapped(m, sid, p, f, flags), TableOwners(m, ow, sid, p)[f := Data(sid, p)];
            && Inv(m', ow') && Local(m, ow, m', ow', sid)
            && ViewSet(m, m', sid, p, Some(Entry(f, WritableFlag(flags), UserFlag(flags))))
            && SlotSet(m, m', sid, Slot(p), UserFlag(flags)) && m'.free + ow'.Keys == m.free + ow.Keys + {f}
  {
    hide Inv;
    WithTableKeeps(m, ow, sid, p, f, flags);
    var m1, ow1 := WithTable(m, sid, p, flags), TableOwners(m, ow, sid, p);
    var m', ow' := Mapped(m, sid, p, f, flags), ow1[f := Data(sid, p)];
    var w := Entry(f, WritableFlag(flags), UserFlag(flags));
    WithEntryIs(m1, sid, p, w, [Mapping(p * PAGE, f * PAGE)] + m.spaces[sid].mappings, m.spaces[sid].count + 1);
    PageAddedKeeps(m1, ow1, m', sid, p, w);
    LocalTransitive(m, ow, m1, ow1, m', ow', sid);
    EntryWrittenSameDir(m1, ow1, m', sid, p, w);
    SlotSetThen(m, m1, m', sid, Slot(p), UserFlag(flags));
  }

  lemma MapResultHolds(m: Machine, ow: Owners, m': Machine, ow': Owners, sid: Sid, p: nat, f: nat, flags: nat, code: int)
    requires Inv(m, ow) && sid in m.spaces && UserPage(p) && f !in ow && f !in m.free && f >= LOW_FRAMES
    requires code == (if TableAtHand(m, sid, p) && m.Lookup(sid, p) == None then OK else FAILED)
    requires code == FAILED ==> m' == m && ow' == ow
    requires code == OK ==> m' == Mapped(m, sid, p, f, flags) && ow' == TableOwners(m, ow, sid, p)[f := Data(sid, p)]
    ensures Inv(m', ow') && m'.spaces.Keys == m.spaces.Keys && MapResult(m, ow, m', ow', sid, p, f, flags, code)
  {
    hide Inv;
    if code == OK { MappedKeeps(m, ow, sid, p, f, flags); }
  }

  /** Mappings for the user keep every directory open. */
  lemma MapResultOpen(m: Machine, ow: Owners, m': Machine, ow': Owners, sid: Sid, p: nat, f: nat, flags: nat, code: int)
    requires Inv(m, ow) && sid in m.spaces && MapResult(m, ow, m', ow', sid, p, f, flags, code)
    requires UserFlag(flags) && DirsOpen(m)
    ensures DirsOpen(m')
  {
    hide Inv, DirOpen, Local;
    if code == OK {
      assert DirOpen(m, sid);
      SlotSetOpen(m, m', sid, Slot(p));
      LocalDirsOpen(m, ow, m', ow', sid);
    }
  }

  // ------------------------------------------------ what unmap does

  function Unmapped(m: Machine, sid: Sid, p: nat): Machine
    requires sid in m.spaces && m.Lookup(sid, p).Some?
  {
    var s := m.spaces[sid];
    var m1 := WithEntry(m, sid, p, 0, Without(s.mappings, p * PAGE), if s.count > 0 then s.count - 1 else 0);
    m1.(free := m1.free + {FrameOf(m.Lookup(sid, p).value)})
  }

  lemma UnmappedIs(m: Machine, ow: Owners, sid: Sid, p: nat)
    requires Inv(m, ow) && sid in m.spaces && UserPage(p) && m.Lookup(sid, p).Some?
    ensures PageRemoved(m, Unmapped(m, sid, p), sid, p)
  {
    hide Inv;
    var s := m.spaces[sid];
    assert s.count > 0 by {
      InvSpace(m, ow, sid);
      assert PageOk(m, ow, sid, p);
    }
    WithEntryIs(m, sid, p, 0, Without(s.mappings, p * PAGE), s.count - 1);
  }

  /** Unmapping removes exactly that translation and frees exactly its frame, which was not free before. */
  lemma UnmappedKeeps(m: Machine, ow: Owners, sid: Sid, p: nat)
    requires Inv(m, ow) && sid in m.spaces && UserPage(p) && m.Lookup(sid, p).Some?
    ensures var m', f := Unmapped(m, sid, p), FrameOf(m.Lookup(sid, p).value);
            && Inv(m', ow - {f}) && Local(m, ow, m', ow - {f}, sid) && ViewSet(m, m', sid, p, None)
            && f in ow && f !in m.free && f >= LOW_FRAMES && m'.free == m.free + {f} && SameDir(m, m', sid)
  {
    hide Inv;
    UnmappedIs(m, ow, sid, p);
    PageRemovedKeeps(m, ow, Unmapped(m, sid, p), sid, p);
    EntryWrittenSameDir(m, ow, Unmapped(m, sid, p), sid, p, 0);
  }

  /** What unmapping a page returns and leaves: it fails, and changes nothing, exactly when the page is not mapped. */
  ghost predicate UnmapResult(m: Machine, ow: Owners, m': Machine, ow': Owners, sid: Sid, p: nat, code: int)
    requires sid in m.spaces
  {
    && code == (if m.Lookup(sid, p).Some? then OK else FAILED)
    && (code == FAILED ==> m' == m && ow' == ow)
    && (code == OK ==> m' == Unmapped(m, sid, p) && ow' == ow - {FrameOf(m.Lookup(sid, p).value)})
  }

  lemma UnmapResultKeeps(m: Machine, ow: Owners, m': Machine, ow': Owners, sid: Sid, p: nat, code: int)
    requires Inv(m, ow) && sid in m.spaces && UserPage(p) && UnmapResult(m, ow, m', ow', sid, p, code)
    ensures Inv(m', ow') && m'.spaces.Keys == m.spaces.Keys && (DirsOpen(m) ==> DirsOpen(m'))
  {
    hide Inv, DirOpen;
    if code == OK {
      UnmappedKeeps(m, ow, sid, p);
      if DirsOpen(m) {
        assert DirOpen(m, sid);
        SameDirOpen(m, m', sid);
        LocalDirsOpen(m, ow, m', ow', sid);
      }
    }
  }

  /** Unmapping undoes mapping: every translation of every space is as it was. */
  lemma UnmapAfterMap(m: Machine, ow: Owners, sid: Sid, p: nat, f: nat, flags: nat, s: Sid, q: nat)
    requires CanMap(m, ow, sid, p, f) && UserPage(q)
    ensures var m' := Mapped(m, sid, p, f, flags);
            && sid in m'.spaces && m'.Lookup(sid, p).Some?
            && Unmapped(m', sid, p).Lookup(s, q) == m.Lookup(s, q)
            && Unmapped(m', sid, p).spaces[sid].mappings == m.spaces[sid].mappings
  {
    hide Inv;
    var m', ow' := Mapped(m, sid, p, f, flags), TableOwners(m, ow, sid, p)[f := Data(sid, p)];
    MappedKeeps(m, ow, sid, p, f, flags);
    UnmappedKeeps(m', ow', sid, p);
    if s != sid {
      Isolation(m, ow, m', ow', sid, s, q);
      Isolation(m', ow', Unmapped(m', sid, p), ow' - {f}, sid, s, q);
    }
    assert m'.spaces[sid].mappings[1..] == m.spaces[sid].mappings;
  }

  // ------------------------------------------------ sharing the kernel's slots

  /** The shared slots below i equal the kernel's. */
  ghost predicate Synced(m: Machine, sid: Sid, i: nat)
    requires sid in m.spaces
  {
    forall d: nat :: SharedSlot(d) && d < i ==> m.Word(m.spaces[sid].dir, d) == m.Word(m.kdir, d)
  }

  /** Refreshing slots has changed no user translation and nothing another space or the kernel owns. */
  ghost predicate Refreshed(m: Machine, m': Machine, ow: Owners, sid: Sid) {
    && Inv(m', ow) && Local(m, ow, m', ow, sid) && SameView(m, m', sid)
    && m'.spaces == m.spaces && m'.free == m.free && m'.kdir == m.kdir && SameDir(m, m', sid)
  }

  lemma RefreshedOpen(m: Machine, m': Machine, ow: Owners, sid: Sid)
    requires Inv(m, ow) && Refreshed(m, m', ow, sid) && DirsOpen(m)
    ensures DirsOpen(m')
  {
    hide Inv, DirOpen, Local;
    assert DirOpen(m, sid);
    SameDirOpen(m, m', sid);
    LocalDirsOpen(m, ow, m', ow, sid);
  }

  function SlotCopied(m: Machine, sid: Sid, d: nat): Machine
    requires sid in m.spaces && d < 1024
  {
    m.SetWord(m.spaces[sid].dir, d, m.Word(m.kdir, d))
  }

  lemma SlotCopiedKeeps(m: Machine, ow: Owners, sid: Sid, d: nat)
    requires Inv(m, ow) && sid in m.spaces && SharedSlot(d)
    ensures Refreshed(m, SlotCopied(m, sid, d), ow, sid)
    ensures Synced(m, sid, d) ==> Synced(SlotCopied(m, sid, d), sid, d + 1)
  {
    hide Inv;
    InvSpace(m, ow, sid);
    SlotSyncedKeeps(m, ow, SlotCopied(m, sid, d), sid, d);
  }

  lemma RefreshedTransitive(m: Machine, m1: Machine, m2: Machine, ow: Owners, sid: Sid)
    requires Refreshed(m, m1, ow, sid) && Refreshed(m1, m2, ow, sid)
    ensures Refreshed(m, m2, ow, sid)
  {
    LocalTransitive(m, ow, m1, ow, m2, ow, sid);
  }

  /** Once synced, the space and the kernel translate alike every page below 16 MiB and from 3 GiB up. */
  lemma SharedAgree(m: Machine, sid: Sid, p: nat)
    requires sid in m.spaces && Synced(m, sid, 1024) && (p < 0x1000 || 0xC_0000 <= p < 0x10_0000)
    ensures m.Lookup(sid, p) == m.Walk(m.kdir, p)
  {
  }

  // ------------------------------------------------ taking a space apart

  /** Some frames the space owned at first have been given back to the frame allocator, each of them once. */
  ghost predicate Dismantled(m: Machine, ow: Owners, m': Machine, ow': Owners, sid: Sid, freed: nat) {
    && Inv(m', ow') && Local(m, ow, m', ow', sid)
    && (forall f :: f in ow' ==> Owns(ow, f, ow'[f]))
    && (forall f :: f in m'.free <==> f in m.free || (f in ow && f !in ow'))
    && |m'.free| == |m.free| + freed
  }

  lemma DismantledMore(m: Machine, ow: Owners, m1: Machine, ow1: Owners, m2: Machine, sid: Sid, freed: nat, f: nat)
    requires Dismantled(m, ow, m1, ow1, sid, freed)
    requires f in ow1 && f !in m1.free && Inv(m2, ow1 - {f}) && Local(m1, ow1, m2, ow1 - {f}, sid) && m2.free == m1.free + {f}
    ensures Dismantled(m, ow, m2, ow1 - {f}, sid, freed + 1)
  {
    hide Inv;
    LocalTransitive(m, ow, m1, ow1, m2, ow1 - {f}, sid);
  }

  lemma DismantledStart(m: Machine, ow: Owners, sid: Sid)
    requires Inv(m, ow)
    ensures Dismantled(m, ow, m, ow, sid, 0)
  {
    hide Inv;
    Unchanged(m, ow, sid);
  }

  function TableDropped(m: Machine, sid: Sid, d: nat): Machine
    requires sid in m.spaces && d < 1024
  {
    var m1 := m.SetWord(m.spaces[sid].dir, d, 0);
    m1.(free := m1.free + {FrameOf(m.Word(m.spaces[sid].dir, d))})
  }

  lemma TableDroppedKeeps(m: Machine, ow: Owners, sid: Sid, d: nat)
    requires Inv(m, ow) && sid in m.spaces && m.spaces[sid].mappings == [] && UserSlot(d)
    requires Present(m.Word(m.spaces[sid].dir, d))
    ensures var m', f := TableDropped(m, sid, d), FrameOf(m.Word(m.spaces[sid].dir, d));
            Inv(m', ow - {f}) && Local(m, ow, m', ow - {f}, sid) && f in ow && f !in m.free && m'.free == m.free + {f}
  {
    hide Inv;
    TableFrame(m, ow, sid, d);
    TableRemovedKeeps(m, ow, TableDropped(m, sid, d), sid, d);
  }

  // ------------------------------------------------ the kernel's own mappings

  /** A kernel table entry: the caller's flag bits, and present. */
  function KernelEntry(f: nat, flags: nat): (w: nat)
    ensures Present(w) && FrameOf(w) == f
    ensures w == f * 4096 + (if flags % 2 == 1 then flags % 4096 else flags % 4096 + 1)
  {
    f * PAGE + flags % PAGE / 2 * 2 + 1
  }

  function KernelWithTable(m: Machine, p: nat, flags: nat): Machine {
    var t := TableFrameFor(m.free);
    if Present(m.Word(m.kdir, Slot(p))) then m
    else m.(ram := m.ram[t := EMPTY], free := m.free - {t}).SetWord(m.kdir, Slot(p), Entry(t, true, User(flags)))
  }

  /** What making a kernel table does to the kernel's directory. */
  ghost predicate KernelSlotSet(m: Machine, m': Machine, d: nat, user: bool) {
    forall e: nat :: e < 1024 ==>
      var w, w' := m.Word(m.kdir, e), m'.Word(m.kdir, e);
      if e == d && !Present(w) then Present(w') && Writable(w') && User(w') == user else w' == w
  }

  lemma KernelSlotIs(m: Machine, ow: Owners, p: nat, flags: nat, w: nat)
    requires Inv(m, ow) && (Present(m.Word(m.kdir, Slot(p))) || TableFrameFor(m.free) < TABLE_LIMIT)
    ensures var m1 := KernelWithTable(m, p, flags);
            var table := FrameOf(m1.Word(m.kdir, Slot(p)));
            KernelSlotSet(m, m1.SetWord(table, Index(p), w), Slot(p), flags / 4 % 2 == 1)
  {
    hide Inv;
    InvKernel(m, ow);
    InvOwner(m, ow, m.kdir);
    InvSlot(m, ow, Slot(p));
  }

  function KernelTableOwners(m: Machine, ow: Owners, p: nat): Owners {
    if Present(m.Word(m.kdir, Slot(p))) then ow else ow[TableFrameFor(m.free) := KernelTable(Slot(p))]
  }

  /** A kernel step leaves every user translation of every space alone and sets at most one kernel translation. */
  ghost predicate KernelEffect(m: Machine, m': Machine, ow': Owners, p: nat, e: Option<nat>) {
    && Inv(m', ow') && m'.spaces == m.spaces && m'.kdir == m.kdir && (forall sid :: sid in m.spaces ==> SameView(m, m', sid) && SameDir(m, m', sid))
    && forall q :: 0 <= q < MAX_FRAMES ==> m'.Walk(m.kdir, q) == if q == p then e else m.Walk(m.kdir, q)
  }

  lemma KernelWithTableKeeps(m: Machine, ow: Owners, p: nat, flags: nat)
    requires Inv(m, ow) && p < MAX_FRAMES && (Present(m.Word(m.kdir, Slot(p))) || TableFrameFor(m.free) < TABLE_LIMIT)
    ensures var m1 := KernelWithTable(m, p, flags);
            && KernelEffect(m, m1, KernelTableOwners(m, ow, p), p, m.Walk(m.kdir, p)) && Present(m1.Word(m.kdir, Slot(p)))
  {
    hide Inv;
    var t := TableFrameFor(m.free);
    if !Present(m.Word(m.kdir, Slot(p))) {
      InvKernel(m, ow);
      InvOwner(m, ow, m.kdir);
      KernelTableAddedKeeps(m, ow, KernelWithTable(m, p, flags), Slot(p), t, Entry(t, true, User(flags)));
      forall f | f in ow ensures f != t && (f == m.kdir ==> ow[f] == KernelDir) { InvOwner(m, ow, f); }
      forall sid | sid in m.spaces ensures SameDir(m, KernelWithTable(m, p, flags), sid) {
        KernelSameDir(m, ow, KernelWithTable(m, p, flags), sid);
      }
    }
  }

  lemma KernelEffectTransitive(m: Machine, m1: Machine, ow1: Owners, m2: Machine, ow2: Owners, p: nat, e: Option<nat>)
    requires KernelEffect(m, m1, ow1, p, m.Walk(m.kdir, p)) && KernelEffect(m1, m2, ow2, p, e)
    ensures KernelEffect(m, m2, ow2, p, e)
  {
    hide Inv;
    forall sid | sid in m.spaces ensures SameView(m, m2, sid) && SameDir(m, m2, sid) {
      assert SameView(m, m1, sid) && SameView(m1, m2, sid) && SameDir(m, m1, sid) && SameDir(m1, m2, sid);
    }
  }

  /** What `vmm_map_page` and `vmm_unmap_page` write to the table of a page that has one. */
  function KernelWithEntry(m: Machine, p: nat, w: nat): Machine {
    m.SetWord(FrameOf(m.Word(m.kdir, Slot(p))), Index(p), w)
  }

  lemma KernelWithEntryKeeps(m: Machine, ow: Owners, p: nat, w: nat)
    requires Inv(m, ow) && p < MAX_FRAMES && Present(m.Word(m.kdir, Slot(p)))
    ensures KernelEffect(m, KernelWithEntry(m, p, w), ow, p, if Present(w) then Some(w) else None)
  {
    hide Inv;
    KernelEntryKeeps(m, ow, KernelWithEntry(m, p, w), p, w);
    InvSlot(m, ow, Slot(p));
    forall sid | sid in m.spaces ensures SameDir(m, KernelWithEntry(m, p, w), sid) {
      KernelSameDir(m, ow, KernelWithEntry(m, p, w), sid);
    }
  }

  lemma InvSlot(m: Machine, ow: Owners, d: nat)
    requires Inv(m, ow) && d < 1024
    ensures KernelSlotOk(m, ow, d)
  {
  }

  lemma KernelEffectOpen(m: Machine, m': Machine, ow': Owners, p: nat, e: Option<nat>)
    requires KernelEffect(m, m', ow', p, e) && DirsOpen(m)
    ensures DirsOpen(m')
  {
    hide Inv, SameDir, DirOpen;
    AllSameDirsOpen(m, m');
  }

  // ------------------------------------------------ the operations

  datatype Panic = NoDirectory | UnmapFailed | TableNotEmpty

  class AddressSpaceTable {
    var m: Machine
    /** The space the processor runs in; None is the kernel's. */
    var current: Option<Sid>
    ghost var ow: Owners

    ghost predicate Valid()
      reads this
    {
      Inv(m, ow) && (current.Some? ==> current.value in m.spaces)
    }

    /** `address_space_init`, over the tables paging was turned on with. */
    constructor (boot: Machine, ghost owners: Owners)
      requires boot.spaces == map[] && Inv(boot, owners)
      ensures Valid() && m == boot && ow == owners && current == None
    {
      m, ow, current := boot, owners, None;
    }

    method GetPhysical(sid: Sid, va: nat) returns (pa: nat)
      requires Valid() && sid in m.spaces && va < U32
      ensures var e := m.Lookup(sid, va / PAGE); pa == if e.Some? then FrameOf(e.value) * PAGE + va % PAGE else 0
    {
      hide Inv;
      var pde := m.Word(m.spaces[sid].dir, Slot(va / PAGE));
      if !Present(pde) { return 0; }
      var pte := m.Word(FrameOf(pde), Index(va / PAGE));
      if !Present(pte) { return 0; }
      return FrameOf(pte) * PAGE + va % PAGE;
    }

    /** Bit 0 of the flags is writable, bit 1 is user. */
    method GetFlags(sid: Sid, va: nat) returns (flags: nat)
      requires Valid() && sid in m.spaces && va < U32
      ensures var e := m.Lookup(sid, va / PAGE);
              if e.Some? then WritableFlag(flags) == Writable(e.value) && UserFlag(flags) == User(e.value) && flags < 4
              else flags == 0
    {
      hide Inv;
      flags := 0;
      var pde := m.Word(m.spaces[sid].dir, Slot(va / PAGE));
      if !Present(pde) { return; }
      var pte := m.Word(FrameOf(pde), Index(va / PAGE));
      if !Present(pte) { return; }
      if Writable(pte) { flags := flags + 1; }
      if User(pte) { flags := flags + 2; }
    }

    /** `get_or_create_table` */
    method GetOrCreateTable(sid: Sid, p: nat, flags: nat) returns (ok: bool)
      requires sid in m.spaces
      modifies this`m
      ensures ok == TableAtHand(old(m), sid, p)
      ensures m == if ok then WithTable(old(m), sid, p, flags) else old(m)
    {
      var dir := m.spaces[sid].dir;
      if Present(m.Word(dir, Slot(p))) { return true; }
      var f := TableFrameFor(m.free);
      if f >= TABLE_LIMIT { return false; }
      m := m.(free := m.free - {f});
      m := m.(ram := m.ram[f := EMPTY]);
      m := m.SetWord(dir, Slot(p), Entry(f, true, UserFlag(flags)));
      return true;
    }

    /** `address_space_map_page`, for a frame that the caller took from the frame allocator and gave to no one else. */
    method MapPage(sid: Sid, va: nat, pa: nat, flags: nat) returns (code: int)
      requires Valid() && sid in m.spaces && va < U32 && pa < U32
      requires pa / PAGE !in ow && pa / PAGE !in m.free && pa / PAGE >= LOW_FRAMES
      modifies this`m, this`ow
      ensures Valid() && (!Mappable(va, pa) ==> code == FAILED && m == old(m) && ow == old(ow))
      ensures Mappable(va, pa) ==> MapResult(old(m), old(ow), m, ow, sid, va / PAGE, pa / PAGE, flags, code)
      ensures flags / 2 % 2 == 1 && DirsOpen(old(m)) ==> DirsOpen(m)
    {
      hide Inv, DirsOpen, SlotSet, ViewSet, Local;
      if va % PAGE != 0 || pa % PAGE != 0 { return FAILED; }
      if !UserPage(va / PAGE) { return FAILED; }
      code := MapUserPage(sid, va / PAGE, pa / PAGE, flags);
      if flags / 2 % 2 == 1 && DirsOpen(old(m)) {
        MapResultOpen(old(m), old(ow), m, ow, sid, va / PAGE, pa / PAGE, flags, code);
      }
    }

    method MapUserPage(sid: Sid, p: nat, f: nat, flags: nat) returns (code: int)
      requires Valid() && sid in m.spaces && UserPage(p) && f !in ow && f !in m.free && f >= LOW_FRAMES
      modifies this`m, this`ow
      ensures Valid() && MapResult(old(m), old(ow), m, ow, sid, p, f, flags, code)
    {
      hide Inv;
      DirNotFree(m, ow, sid);
      code := WriteMapping(sid, p, f, flags);
      if code == OK { ow := TableOwners(old(m), ow, sid, p)[f := Data(sid, p)]; }
      MapResultHolds(old(m), old(ow), m, ow, sid, p, f, flags, code);
    }

    /** The writes of `address_space_map_page`. */
    method WriteMapping(sid: Sid, p: nat, f: nat, flags: nat) returns (code: int)
      requires sid in m.spaces && m.spaces[sid].dir !in m.free
      modifies this`m
      ensures code == if TableAtHand(old(m), sid, p) && old(m).Lookup(sid, p) == None then OK else FAILED
      ensures m == if code == OK then Mapped(old(m), sid, p, f, flags) else old(m)
    {
      var ok := GetOrCreateTable(sid, p, flags);
      if !ok { return FAILED; }
      var s := m.spaces[sid];
      var table := FrameOf(m.Word(s.dir, Slot(p)));
      if Present(m.Word(table, Index(p))) { return FAILED; }
      m := m.SetWord(table, Index(p), Entry(f, WritableFlag(flags), UserFlag(flags)));
      m := m.(spaces := m.spaces[sid := Space(s.dir, [Mapping(p * PAGE, f * PAGE)] + s.mappings, s.count + 1)]);
      return OK;
    }

    /** `address_space_unmap_page` */
    method UnmapPage(sid: Sid, va: nat) returns (code: int)
      requires Valid() && sid in m.spaces && va < U32
      modifies this`m, this`ow
      ensures Valid() && (va % PAGE != 0 || !UserPage(va / PAGE) ==> code == FAILED && m == old(m) && ow == old(ow))
      ensures va % PAGE == 0 && UserPage(va / PAGE) ==> UnmapResult(old(m), old(ow), m, ow, sid, va / PAGE, code)
      ensures DirsOpen(old(m)) ==> DirsOpen(m)
    {
      hide Inv;
      if va % PAGE != 0 { return FAILED; }
      if !UserPage(va / PAGE) { return FAILED; }
      code := UnmapUserPage(sid, va / PAGE);
    }

    method UnmapUserPage(sid: Sid, p: nat) returns (code: int)
      requires Valid() && sid in m.spaces && UserPage(p)
      modifies this`m, this`ow
      ensures Valid() && UnmapResult(old(m), old(ow), m, ow, sid, p, code) && (DirsOpen(old(m)) ==> DirsOpen(m))
    {
      hide Inv;
      code := WriteUnmapping(sid, p);
      if code == OK { ow := ow - {FrameOf(old(m).Lookup(sid, p).value)}; }
      UnmapResultKeeps(old(m), old(ow), m, ow, sid, p, code);
    }

    /** The writes of `address_space_unmap_page`. */
    method WriteUnmapping(sid: Sid, p: nat) returns (code: int)
      requires sid in m.spaces
      modifies this`m
      ensures code == if old(m).Lookup(sid, p).Some? then OK else FAILED
      ensures m == if code == OK then Unmapped(old(m), sid, p) else old(m)
    {
      var s := m.spaces[sid];
      var pde := m.Word(s.dir, Slot(p));
      if !Present(pde) { return FAILED; }
      var table := FrameOf(pde);
      var pte := m.Word(table, Index(p));
      if !Present(pte) { return FAILED; }
      m := m.SetWord(table, Index(p), 0);
      var ms := RemoveMapping(s.mappings, p * PAGE);
      m := m.(spaces := m.spaces[sid := Space(s.dir, ms, if s.count > 0 then s.count - 1 else 0)]);
      m := m.(free := m.free + {FrameOf(pte)});
      return OK;
    }

    /** `mapping_remove` */
    method RemoveMapping(ms: seq<Mapping>, va: nat) returns (r: seq<Mapping>)
      ensures r == Without(ms, va)
    {
      var i := 0;
      while i < |ms|
        invariant i <= |ms| && Without(ms, va) == ms[..i] + Without(ms[i..], va)
      {
        if ms[i].va == va { return ms[..i] + ms[i + 1..]; }
        assert ms[i..][1..] == ms[i + 1..];
        i := i + 1;
      }
      return ms;
    }

    // ------------------------------------------------ create, switch

    /** `sync_kernel_mappings` */
    method SyncKernelMappings(sid: Sid)
      requires Valid() && sid in m.spaces
      modifies this`m
      ensures Valid() && Refreshed(old(m), m, ow, sid) && Synced(m, sid, 1024)
    {
      hide Inv;
      RefreshedStart(m, ow, sid);
      var i := 0;
      while i < 4
        invariant i <= 4 && Refreshed(old(m), m, ow, sid) && Synced(m, sid, i)
      {
        CopySlot(sid, i, old(m));
        i := i + 1;
      }
      assert Synced(m, sid, 768);
      i := 768;
      while i < 1024
        invariant 768 <= i <= 1024 && Refreshed(old(m), m, ow, sid) && Synced(m, sid, i)
      {
        CopySlot(sid, i, old(m));
        i := i + 1;
      }
    }

    method CopySlot(sid: Sid, d: nat, ghost was: Machine)
      requires sid in m.spaces && SharedSlot(d) && Refreshed(was, m, ow, sid) && Synced(m, sid, d)
      modifies this`m
      ensures Refreshed(was, m, ow, sid) && sid in m.spaces && Synced(m, sid, d + 1)
    {
      hide Inv;
      SlotCopiedKeeps(m, ow, sid, d);
      m := SlotCopied(m, sid, d);
      RefreshedTransitive(was, old(m), m, ow, sid);
    }

    /** `address_space_switch`: the shared slots of a process's space equal the kernel's afterwards; switching to the
        kernel's own space writes nothing. */
    method Switch(space: Option<Sid>)
      requires Valid() && (space.Some? ==> space.value in m.spaces)
      modifies this`m, this`current
      ensures Valid() && current == space
      ensures if space.None? then m == old(m) else Refreshed(old(m), m, ow, space.value) && Synced(m, space.value, 1024)
      ensures DirsOpen(old(m)) ==> DirsOpen(m)
    {
      hide Inv;
      if space.Some? {
        SyncKernelMappings(space.value);
        if DirsOpen(old(m)) { RefreshedOpen(old(m), m, ow, space.value); }
      }
      if current == space { return; }
      current := space;
    }

    /** `address_space_create`, for an object not in use. */
    method Create(sid: Sid) returns (panic: Option<Panic>)
      requires Valid() && sid !in m.spaces
      modifies this`m, this`ow
      ensures Valid() && panic == (if TableFrameFor(old(m.free)) < TABLE_LIMIT then None else Some(NoDirectory))
      ensures panic.Some? ==> m == old(m) && ow == old(ow)
      ensures panic.None? ==>
                && Local(old(m), old(ow), m, ow, sid) && sid in m.spaces && Synced(m, sid, 1024)
                && m.spaces[sid] == Space(TableFrameFor(old(m.free)), [], 0)
                && (forall p :: UserPage(p) ==> m.Lookup(sid, p) == None)
      ensures (DirsOpen(old(m)) ==> DirsOpen(m)) && m.free + ow.Keys == old(m.free) + old(ow).Keys
    {
      hide Inv, DirsOpen;
      var f := TableFrameFor(m.free);
      if f >= TABLE_LIMIT { return Some(NoDirectory); }
      m := m.(free := m.free - {f});
      m := m.(ram := m.ram[f := EMPTY]);
      m := m.(spaces := m.spaces[sid := Space(f, [], 0)]);
      SpaceAddedKeeps(old(m), ow, m, sid, f);
      ow := ow[f := Dir(sid)];
      ghost var m1, ow1 := m, ow;
      SyncKernelMappings(sid);
      LocalTransitive(old(m), old(ow), m1, ow1, m, ow, sid);
      if DirsOpen(old(m)) {
        LocalDirsOpen(old(m), old(ow), m1, ow1, sid);
        RefreshedOpen(m1, m, ow, sid);
      }
      return None;
    }

    // ------------------------------------------------ frames for data pages

    /** `pmm_alloc_page`: the frame now belongs to the caller. */
    method AllocPage() returns (pa: nat)
      requires Valid()
      modifies this`m
      ensures Valid() && pa % PAGE == 0 && pa < U32
      ensures var f := FirstFree(old(m.free), LOW_FRAMES, MAX_FRAMES);
              if f < MAX_FRAMES then pa == f * PAGE && pa / PAGE == f && f in old(m.free) && m == old(m).(free := old(m.free) - {f})
              else pa == 0 && m == old(m)
      ensures pa != 0 ==> pa / PAGE !in ow && pa / PAGE !in m.free && pa / PAGE >= LOW_FRAMES
    {
      hide Inv;
      var f := FirstFree(m.free, LOW_FRAMES, MAX_FRAMES);
      if f == MAX_FRAMES { return 0; }
      FreeSetKeeps(m, ow, m.free - {f});
      forall g | g in ow ensures g != f { InvOwner(m, ow, g); }
      m := m.(free := m.free - {f});
      return f * PAGE;
    }

    /** `pmm_free_page`, for a frame that belongs to the caller. */
    method FreePage(pa: nat)
      requires Valid() && pa / PAGE !in ow
      modifies this`m
      ensures Valid() && m == old(m).(free := old(m.free) + {pa / PAGE})
    {
      hide Inv;
      FreeSetKeeps(m, ow, m.free + {pa / PAGE});
      m := m.(free := m.free + {pa / PAGE});
    }

    // ------------------------------------------------ the kernel's own mappings

    /** `vmm_map_page`, given that a table is there or a frame for one. */
    method KernelMapPage(va: nat, pa: nat, flags: nat) returns (code: int)
      requires Valid() && va < U32 && pa < U32
      requires Present(m.Word(m.kdir, Slot(va / PAGE))) || TableFrameFor(m.free) < TABLE_LIMIT
      modifies this`m, this`ow
      ensures Valid() && m.spaces == old(m.spaces)
      ensures code == if va % PAGE != 0 || pa % PAGE != 0 then INVALID
                      else if old(m).Walk(m.kdir, va / PAGE).Some? then ALREADY_MAPPED else OK
      ensures code != OK ==> m == old(m) && ow == old(ow)
      ensures code == OK ==> KernelEffect(old(m), m, ow, va / PAGE, Some(KernelEntry(pa / PAGE, flags)))
      ensures code == OK ==> KernelSlotSet(old(m), m, Slot(va / PAGE), flags / 4 % 2 == 1)
      ensures (DirsOpen(old(m)) ==> DirsOpen(m)) && m.free + ow.Keys == old(m.free) + old(ow).Keys
    {
      hide Inv, DirsOpen, KernelSlotSet;
      if va % PAGE != 0 || pa % PAGE != 0 { return INVALID; }
      code := KernelMap(va / PAGE, pa / PAGE, flags);
      if code == OK && DirsOpen(old(m)) {
        KernelEffectOpen(old(m), m, ow, va / PAGE, Some(KernelEntry(pa / PAGE, flags)));
      }
    }

    method KernelMap(p: nat, f: nat, flags: nat) returns (code: int)
      requires Valid() && p < MAX_FRAMES && (Present(m.Word(m.kdir, Slot(p))) || TableFrameFor(m.free) < TABLE_LIMIT)
      modifies this`m, this`ow
      ensures Valid() && m.spaces == old(m.spaces) && m.kdir == old(m.kdir)
      ensures code == if old(m).Walk(m.kdir, p).Some? then ALREADY_MAPPED else OK
      ensures code != OK ==> m == old(m) && ow == old(ow)
      ensures code == OK ==> KernelEffect(old(m), m, ow, p, Some(KernelEntry(f, flags)))
      ensures code == OK ==> KernelSlotSet(old(m), m, Slot(p), flags / 4 % 2 == 1)
      ensures m.free + ow.Keys == old(m.free) + old(ow).Keys
    {
      hide Inv;
      KernelWithTableKeeps(m, ow, p, flags);
      KernelSlotIs(m, ow, p, flags, KernelEntry(f, flags));
      KernelGetOrCreateTable(p, flags);
      ow := KernelTableOwners(old(m), ow, p);
      var table := FrameOf(m.Word(m.kdir, Slot(p)));
      if Present(m.Word(table, Index(p))) { return ALREADY_MAPPED; }
      ghost var m1 := m;
      KernelWithEntryKeeps(m1, ow, p, KernelEntry(f, flags));
      m := m.SetWord(table, Index(p), KernelEntry(f, flags));
      KernelEffectTransitive(old(m), m1, ow, m, ow, p, Some(KernelEntry(f, flags)));
      return OK;
    }

    method KernelGetOrCreateTable(p: nat, flags: nat)
      requires Present(m.Word(m.kdir, Slot(p))) || TableFrameFor(m.free) < TABLE_LIMIT
      modifies this`m
      ensures m == KernelWithTable(old(m), p, flags)
    {
      if Present(m.Word(m.kdir, Slot(p))) { return; }
      var f := TableFrameFor(m.free);
      m := m.(free := m.free - {f});
      m := m.(ram := m.ram[f := EMPTY]);
      m := m.SetWord(m.kdir, Slot(p), Entry(f, true, User(flags)));
    }

    /** `vmm_unmap_page` */
    method KernelUnmapPage(va: nat) returns (code: int)
      requires Valid() && va < U32
      modifies this`m
      ensures Valid() && m.spaces == old(m.spaces)
      ensures code == if va % PAGE != 0 then INVALID else if old(m).Walk(m.kdir, va / PAGE).None? then NOT_MAPPED else OK
      ensures code != OK ==> m == old(m)
      ensures code == OK ==> KernelEffect(old(m), m, ow, va / PAGE, None)
      ensures (DirsOpen(old(m)) ==> DirsOpen(m)) && m.free == old(m.free)
    {
      hide Inv, DirsOpen;
      if va % PAGE != 0 { return INVALID; }
      var p := va / PAGE;
      var pde := m.Word(m.kdir, Slot(p));
      if !Present(pde) { return NOT_MAPPED; }
      if !Present(m.Word(FrameOf(pde), Index(p))) { return NOT_MAPPED; }
      KernelWithEntryKeeps(m, ow, p, 0);
      m := m.SetWord(FrameOf(pde), Index(p), 0);
      if DirsOpen(old(m)) { KernelEffectOpen(old(m), m, ow, p, None); }
      return OK;
    }

    // ------------------------------------------------ destroy

    /** `address_space_destroy`: it never panics, and gives back every frame of the space, each once, and no other. */
    method Destroy(sid: Sid) returns (panic: Option<Panic>, freedPages: nat, freedTables: nat)
      requires Valid() && sid in m.spaces
      modifies this
      ensures Valid() && panic == None && sid !in m.spaces
      ensures m.free == old(m.free) + FramesOf(old(ow), sid) && FramesOf(old(ow), sid) !! old(m.free)
      ensures |m.free| == |old(m.free)| + freedPages + freedTables + 1
      ensures Local(old(m), old(ow), m, ow, sid) && (DirsOpen(old(m)) ==> DirsOpen(m))
    {
      hide Inv, DirsOpen;
      if current == Some(sid) { current := None; }
      panic, freedPages := FreePages(sid);
      panic, freedTables := FreeUserPageTables(sid, old(m), old(ow), freedPages);
      DropSpace(sid, old(m), old(ow), freedPages + freedTables);
      if DirsOpen(old(m)) { LocalDirsOpen(old(m), old(ow), m, ow, sid); }
    }

    /** The end of `address_space_destroy`: the directory and the object. */
    method DropSpace(sid: Sid, ghost was: Machine, ghost wasOw: Owners, ghost before: nat)
      requires sid in m.spaces && m.spaces[sid].mappings == [] && NoTables(m, sid)
      requires Inv(was, wasOw) && Dismantled(was, wasOw, m, ow, sid, before) && current != Some(sid)
      requires current.Some? ==> current.value in m.spaces
      modifies this`m, this`ow
      ensures Valid() && sid !in m.spaces && Local(was, wasOw, m, ow, sid) && |m.free| == |was.free| + before + 1
      ensures m.free == was.free + FramesOf(wasOw, sid) && FramesOf(wasOw, sid) !! was.free
    {
      hide Inv;
      var dir := m.spaces[sid].dir;
      m := m.(spaces := m.spaces - {sid});
      m := m.(free := m.free + {dir});
      ow := ow - {dir};
      SpaceGone(was, wasOw, old(m), old(ow), m, sid, before);
    }

    /** The unmap loop of `address_space_destroy`. */
    method FreePages(sid: Sid) returns (panic: Option<Panic>, freed: nat)
      requires Valid() && sid in m.spaces
      modifies this`m, this`ow
      ensures panic == None && Valid() && Dismantled(old(m), old(ow), m, ow, sid, freed)
      ensures sid in m.spaces && m.spaces[sid].mappings == []
    {
      hide Inv;
      panic, freed := None, 0;
      DismantledStart(m, ow, sid);
      while panic == None && m.spaces[sid].mappings != []
        invariant panic == None && Valid() && sid in m.spaces && Dismantled(old(m), old(ow), m, ow, sid, freed)
        decreases |m.spaces[sid].mappings|
      {
        HeadIsMapped(m, ow, sid);
        var va := m.spaces[sid].mappings[0].va;
        ghost var m1, ow1 := m, ow;
        UnmappedKeeps(m1, ow1, sid, va / PAGE);
        var code := UnmapPage(sid, va);
        panic := if code != OK then Some(UnmapFailed) else None;
        DismantledMore(old(m), old(ow), m1, ow1, m, sid, freed, FrameOf(m1.Lookup(sid, va / PAGE).value));
        freed := freed + 1;
      }
    }

    /** `free_user_page_tables` */
    method FreeUserPageTables(sid: Sid, ghost was: Machine, ghost wasOw: Owners, ghost before: nat)
      returns (panic: Option<Panic>, freed: nat)
      requires sid in m.spaces && m.spaces[sid].mappings == [] && Dismantled(was, wasOw, m, ow, sid, before)
      modifies this`m, this`ow
      ensures panic == None && Dismantled(was, wasOw, m, ow, sid, before + freed)
      ensures sid in m.spaces && m.spaces == old(m.spaces) && NoTables(m, sid)
    {
      hide Inv;
      panic, freed := None, 0;
      var d := 4;
      while d < 768
        invariant 4 <= d <= 768 && panic == None && m.spaces == old(m.spaces)
        invariant Dismantled(was, wasOw, m, ow, sid, before + freed) && NoTablesBelow(m, sid, d)
      {
        if Present(m.Word(m.spaces[sid].dir, d)) {
          panic := FreeTable(sid, d, was, wasOw, before + freed);
          freed := freed + 1;
        }
        d := d + 1;
      }
    }

    /** One present slot of the loop: its table is empty, so it goes back to the frame allocator. */
    method FreeTable(sid: Sid, d: nat, ghost was: Machine, ghost wasOw: Owners, ghost before: nat) returns (panic: Option<Panic>)
      requires sid in m.spaces && m.spaces[sid].mappings == [] && UserSlot(d) && Present(m.Word(m.spaces[sid].dir, d))
      requires Dismantled(was, wasOw, m, ow, sid, before) && NoTablesBelow(m, sid, d)
      modifies this`m, this`ow
      ensures panic == None && m.spaces == old(m.spaces)
      ensures Dismantled(was, wasOw, m, ow, sid, before + 1) && NoTablesBelow(m, sid, d + 1)
    {
      hide Inv;
      var table := FrameOf(m.Word(m.spaces[sid].dir, d));
      TableStep(was, wasOw, m, ow, sid, d, before);
      var empty := IsEmptyTable(table);
      panic := if empty then None else Some(TableNotEmpty);
      m := m.SetWord(m.spaces[sid].dir, d, 0);
      m := m.(free := m.free + {table});
      ow := ow - {table};
    }

    method IsEmptyTable(table: nat) returns (empty: bool)
      ensures empty == forall i: nat :: i < 1024 ==> !Present(m.Word(table, i))
    {
      var i := 0;
      while i < 1024
        invariant i <= 1024 && forall j: nat :: j < i ==> !Present(m.Word(table, j))
      {
        if Present(m.Word(table, i)) { return false; }
        i := i + 1;
      }
      return true;
    }
  }

  ghost predicate NoTablesBelow(m: Machine, sid: Sid, d: nat)
    requires sid in m.spaces && d <= 1024
  {
    forall e: nat :: UserSlot(e) && e < d ==> !Present(m.Word(m.spaces[sid].dir, e))
  }

  lemma TableStep(was: Machine, wasOw: Owners, m: Machine, ow: Owners, sid: Sid, d: nat, before: nat)
    requires sid in m.spaces && m.spaces[sid].mappings == [] && UserSlot(d) && Present(m.Word(m.spaces[sid].dir, d))
    requires Dismantled(was, wasOw, m, ow, sid, before) && NoTablesBelow(m, sid, d)
    ensures var f := FrameOf(m.Word(m.spaces[sid].dir, d));
            && (forall i: nat :: i < 1024 ==> !Present(m.Word(f, i)))
            && Dismantled(was, wasOw, TableDropped(m, sid, d), ow - {f}, sid, before + 1)
            && NoTablesBelow(TableDropped(m, sid, d), sid, d + 1)
  {
    hide Inv;
    var f := FrameOf(m.Word(m.spaces[sid].dir, d));
    forall i: nat | i < 1024 ensures !Present(m.Word(f, i)) { TableIsEmpty(m, ow, sid, d, i); }
    TableDroppedKeeps(m, ow, sid, d);
    DismantledMore(was, wasOw, m, ow, TableDropped(m, sid, d), sid, before, f);
  }

  /** The last step: the directory goes back, and with it the space has nothing left. */
  lemma SpaceGone(m: Machine, ow: Owners, m1: Machine, ow1: Owners, m2: Machine, sid: Sid, freed: nat)
    requires Dismantled(m, ow, m1, ow1, sid, freed) && sid in m1.spaces && m1.spaces[sid].mappings == [] && NoTables(m1, sid)
    requires m2 == m1.(spaces := m1.spaces - {sid}, free := m1.free + {m1.spaces[sid].dir}) && Inv(m, ow)
    ensures Dismantled(m, ow, m2, ow1 - {m1.spaces[sid].dir}, sid, freed + 1)
    ensures m2.free == m.free + FramesOf(ow, sid) && FramesOf(ow, sid) !! m.free
  {
    hide Inv;
    var dir := m1.spaces[sid].dir;
    SpaceRemovedKeeps(m1, ow1, m2, sid);
    DirNotFree(m1, ow1, sid);
    DismantledMore(m, ow, m1, ow1, m2, sid, freed, dir);
    forall f | f in ow ensures f !in m.free { InvOwner(m, ow, f); }
    forall f | f in ow && ow[f].Of(sid) ensures f !in ow1 - {dir} {
      if f in ow1 { assert Owns(ow, f, ow1[f]); }
    }
  }

  /** The frames a space owns: its directory, its tables, its pages. */
  ghost function FramesOf(ow: Owners, sid: Sid): set<nat> {
    set f | f in ow && ow[f].Of(sid)
  }

  /** The first node of the mapping list names a mapped page. */
  lemma HeadIsMapped(m: Machine, ow: Owners, sid: Sid)
    requires Inv(m, ow) && sid in m.spaces && m.spaces[sid].mappings != []
    ensures var n := m.spaces[sid].mappings[0];
            n.va < U32 && n.va % PAGE == 0 && UserPage(n.va / PAGE) && m.Lookup(sid, n.va / PAGE).Some?
            && Without(m.spaces[sid].mappings, n.va / PAGE * PAGE) == m.spaces[sid].mappings[1..]
  {
    hide Inv;
    var ms := m.spaces[sid].mappings;
    InvSpace(m, ow, sid);
    assert NodeOk(m, sid, ms[0]);
  }

  lemma RefreshedStart(m: Machine, ow: Owners, sid: Sid)
    requires Inv(m, ow) && sid in m.spaces
    ensures Refreshed(m, m, ow, sid)
  {
    Unchanged(m, ow, sid);
  }

  /** The invariant holds for any set of free frames that no one owns. */
  lemma FreeSetKeeps(m: Machine, ow: Owners, free: set<nat>)
    requires Inv(m, ow) && forall f :: f in ow ==> f in m.free || f !in free
    ensures Inv(m.(free := free), ow)
  {
    hide SpaceOk;
    var m' := m.(free := free);
    forall f | f in ow ensures OwnerOk(m', ow, f) { assert OwnerOk(m, ow, f); }
    forall d: nat | d < 1024 ensures KernelSlotOk(m', ow, d) { assert KernelSlotOk(m, ow, d); }
    forall sid | sid in m'.spaces ensures SpaceOk(m', ow, sid) && SharedSlotsOk(m', sid) {
      assert SpaceOk(m, ow, sid) && SharedSlotsOk(m, sid);
      assert SameFor(m, ow, m', ow, sid);
      SameSpace(m, ow, m', ow, sid);
      forall d | SharedSlot(d) ensures SharedOk(m', sid, d) { assert SharedOk(m, sid, d); }
    }
  }

  lemma DirNotFree(m: Machine, ow: Owners, sid: Sid)
    requires Inv(m, ow) && sid in m.spaces
    ensures m.spaces[sid].dir !in m.free && m.spaces[sid].dir >= LOW_FRAMES && m.spaces[sid].dir in ow
  {
    hide Inv;
    InvSpace(m, ow, sid);
    InvOwner(m, ow, m.spaces[sid].dir);
  }
}
