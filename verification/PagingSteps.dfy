/** The writes that the address-space operations are made of, each with what it keeps and what it does to translations. */
module PagingSteps {
  import opened Base
  import opened Frames
  import opened Paging

  /** Every user translation of the space is as before. */
  ghost predicate SameView(m: Machine, m': Machine, sid: Sid) {
    forall p :: UserPage(p) ==> m'.Lookup(sid, p) == m.Lookup(sid, p)
  }

  /** A page's translation is set; the space's other user translations are as before. */
  ghost predicate ViewSet(m: Machine, m': Machine, sid: Sid, p: nat, e: Option<nat>) {
    && m'.Lookup(sid, p) == e
    && forall q :: UserPage(q) && q != p ==> m'.Lookup(sid, q) == m.Lookup(sid, q)
  }

  /** Exactly one word of memory differs. */
  ghost predicate Wrote(m: Machine, m': Machine, f: nat, i: nat, w: nat) {
    && i < 1024 && m'.Page(f) == m.Page(f)[i := w]
    && (forall g :: g != f ==> m'.Page(g) == m.Page(g))
    && m'.kdir == m.kdir
  }

  // ------------------------------------------------ a new, empty table in a user slot

  ghost predicate TableAdded(m: Machine, m': Machine, sid: Sid, d: nat, f: nat, w: nat)
    requires sid in m.spaces
  {
    var dir := m.spaces[sid].dir;
    && d < 1024 && f != dir && Present(w) && FrameOf(w) == f
    && m'.kdir == m.kdir && m'.spaces == m.spaces && m'.free == m.free - {f}
    && m'.Page(dir) == m.Page(dir)[d := w] && m'.Page(f) == EMPTY
    && (forall g :: g != f && g != dir ==> m'.Page(g) == m.Page(g))
  }

  ghost predicate CanAddTable(m: Machine, ow: Owners, sid: Sid, d: nat, f: nat) {
    && Inv(m, ow) && sid in m.spaces && UserSlot(d) && !Present(m.Word(m.spaces[sid].dir, d))
    && f in m.free && f >= LOW_FRAMES
  }

  lemma TableAddedLookup(m: Machine, ow: Owners, m': Machine, sid: Sid, d: nat, f: nat, w: nat, p: nat)
    requires CanAddTable(m, ow, sid, d, f) && TableAdded(m, m', sid, d, f, w) && UserPage(p)
    ensures m'.Lookup(sid, p) == m.Lookup(sid, p)
  {
    hide Inv;
    var pde := m.Word(m.spaces[sid].dir, Slot(p));
    InvSpace(m, ow, sid);
    assert SlotOk(m, ow, sid, Slot(p));
    if Present(pde) { InvOwner(m, ow, FrameOf(pde)); }
  }

  lemma TableAddedSpace(m: Machine, ow: Owners, m': Machine, sid: Sid, d: nat, f: nat, w: nat)
    requires CanAddTable(m, ow, sid, d, f) && TableAdded(m, m', sid, d, f, w)
    ensures SameView(m, m', sid) && SpaceOk(m', ow[f := UserTable(sid, d)], sid)
  {
    hide Inv;
    var ow' := ow[f := UserTable(sid, d)];
    InvSpace(m, ow, sid);
    forall p | UserPage(p) ensures m'.Lookup(sid, p) == m.Lookup(sid, p) { TableAddedLookup(m, ow, m', sid, d, f, w, p); }
    forall g | g in ow ensures g != f { InvOwner(m, ow, g); }
    forall e | UserSlot(e) ensures SlotOk(m', ow', sid, e) { assert SlotOk(m, ow, sid, e); }
    forall p | UserPage(p) ensures PageOk(m', ow', sid, p) { assert PageOk(m, ow, sid, p); }
    forall n | n in m.spaces[sid].mappings ensures NodeOk(m', sid, n) { assert NodeOk(m, sid, n); }
  }

  lemma TableAddedKeeps(m: Machine, ow: Owners, m': Machine, sid: Sid, d: nat, f: nat, w: nat)
    requires CanAddTable(m, ow, sid, d, f) && TableAdded(m, m', sid, d, f, w)
    ensures var ow' := ow[f := UserTable(sid, d)]; Inv(m', ow') && Local(m, ow, m', ow', sid) && SameView(m, m', sid)
  {
    hide Inv;
    InvKernel(m, ow);
    var ow' := ow[f := UserTable(sid, d)];
    TableAddedSpace(m, ow, m', sid, d, f, w);
    InvSpace(m, ow, sid);
    forall g | g in ow ensures g != f && g !in m'.free { InvOwner(m, ow, g); }
    forall e | SharedSlot(e) ensures SharedOk(m', sid, e) { assert SharedOk(m, sid, e); }
    forall g | g in ow' && ow'[g].Of(sid) ensures OwnerOk(m', ow', g) {
      if g != f { InvOwner(m, ow, g); }
    }
    LocalKeeps(m, ow, m', ow', sid);
  }

  // ------------------------------------------------ one table entry set or cleared

  /** The table entry for page p is written, and the space's mapping list replaced. */
  ghost predicate EntryWritten(m: Machine, m': Machine, sid: Sid, p: nat, w: nat)
    requires sid in m.spaces
  {
    var pde := m.Word(m.spaces[sid].dir, Slot(p));
    && Wrote(m, m', FrameOf(pde), Index(p), w)
    && sid in m'.spaces && m'.spaces[sid].dir == m.spaces[sid].dir
    && (forall s :: s != sid && s in m.spaces ==> s in m'.spaces && m'.spaces[s] == m.spaces[s])
    && (forall s :: s != sid && s in m'.spaces ==> s in m.spaces)
  }

  /** Page p has a table to be written to. */
  ghost predicate HasTable(m: Machine, ow: Owners, sid: Sid, p: nat) {
    Inv(m, ow) && sid in m.spaces && UserPage(p) && Present(m.Word(m.spaces[sid].dir, Slot(p)))
  }

  lemma EntryWrittenDir(m: Machine, ow: Owners, m': Machine, sid: Sid, p: nat, w: nat)
    requires HasTable(m, ow, sid, p) && EntryWritten(m, m', sid, p, w)
    ensures var dir := m.spaces[sid].dir;
            m'.Page(dir) == m.Page(dir) && Owns(ow, FrameOf(m.Word(dir, Slot(p))), UserTable(sid, Slot(p)))
  {
    hide Inv;
    InvSpace(m, ow, sid);
    assert SlotOk(m, ow, sid, Slot(p));
  }

  lemma EntryWrittenLookup(m: Machine, ow: Owners, m': Machine, sid: Sid, p: nat, w: nat, q: nat)
    requires HasTable(m, ow, sid, p) && EntryWritten(m, m', sid, p, w) && UserPage(q)
    ensures m'.Lookup(sid, q) == if q == p then (if Present(w) then Some(w) else None) else m.Lookup(sid, q)
  {
    hide Inv;
    EntryWrittenDir(m, ow, m', sid, p, w);
    InvSpace(m, ow, sid);
    assert SlotOk(m, ow, sid, Slot(q));
    if Slot(q) == Slot(p) && Index(q) == Index(p) { SamePage(p, q); }
  }

  lemma EntryWrittenView(m: Machine, ow: Owners, m': Machine, sid: Sid, p: nat, w: nat)
    requires HasTable(m, ow, sid, p) && EntryWritten(m, m', sid, p, w)
    ensures ViewSet(m, m', sid, p, if Present(w) then Some(w) else None)
  {
    forall q | UserPage(q)
      ensures m'.Lookup(sid, q) == if q == p then (if Present(w) then Some(w) else None) else m.Lookup(sid, q)
    {
      EntryWrittenLookup(m, ow, m', sid, p, w, q);
    }
  }

  /** Only the page's own frame changes hands. */
  ghost predicate OwnersButPage(ow: Owners, m': Machine, ow': Owners, sid: Sid, p: nat) {
    && (forall f :: f in ow && ow[f] != Data(sid, p) ==> Owns(ow', f, ow[f]) && f !in m'.free)
    && (forall f :: f in ow' && ow'[f] != Data(sid, p) ==> Owns(ow, f, ow'[f]))
  }

  lemma EntryWrittenLocal(m: Machine, ow: Owners, m': Machine, ow': Owners, sid: Sid, p: nat, w: nat)
    requires HasTable(m, ow, sid, p) && EntryWritten(m, m', sid, p, w) && OwnersButPage(ow, m', ow', sid, p)
    ensures Local(m, ow, m', ow', sid)
  {
    hide Inv;
    EntryWrittenDir(m, ow, m', sid, p, w);
  }

  /** The directory's slots, and the owners of frames other than the page's, are in order after the write. */
  lemma EntryWrittenRest(m: Machine, ow: Owners, m': Machine, ow': Owners, sid: Sid, p: nat, w: nat)
    requires HasTable(m, ow, sid, p) && EntryWritten(m, m', sid, p, w) && OwnersButPage(ow, m', ow', sid, p)
    ensures Owns(ow', m.spaces[sid].dir, Dir(sid)) && SharedSlotsOk(m', sid)
    ensures forall d :: UserSlot(d) ==> SlotOk(m', ow', sid, d)
  {
    hide Inv;
    InvKernel(m, ow);
    EntryWrittenDir(m, ow, m', sid, p, w);
    InvSpace(m, ow, sid);
    EntryWrittenLocal(m, ow, m', ow', sid, p, w);
    assert !ow[m.kdir].Of(sid);
    forall d | SharedSlot(d) ensures SharedOk(m', sid, d) { assert SharedOk(m, sid, d); }
    forall d | UserSlot(d) ensures SlotOk(m', ow', sid, d) { assert SlotOk(m, ow, sid, d); }
  }

  lemma EntryWrittenOwners(m: Machine, ow: Owners, m': Machine, ow': Owners, sid: Sid, p: nat, w: nat, f: nat)
    requires HasTable(m, ow, sid, p) && EntryWritten(m, m', sid, p, w) && OwnersButPage(ow, m', ow', sid, p)
    requires f in ow' && ow'[f].Of(sid) && ow'[f] != Data(sid, p)
    ensures OwnerOk(m', ow', f)
  {
    hide Inv;
    EntryWrittenDir(m, ow, m', sid, p, w);
    InvOwner(m, ow, f);
    if ow'[f].Data? { EntryWrittenLookup(m, ow, m', sid, p, w, ow'[f].page); }
  }

  // ------------------------------------------------ mapping and unmapping a page

  ghost predicate PageAdded(m: Machine, m': Machine, sid: Sid, p: nat, w: nat)
    requires sid in m.spaces
  {
    var s := m.spaces[sid];
    && EntryWritten(m, m', sid, p, w) && Present(w) && m'.free == m.free
    && m'.spaces[sid].mappings == [Mapping(p * PAGE, FrameOf(w) * PAGE)] + s.mappings
    && m'.spaces[sid].count == s.count + 1
  }

  /** Nodes for other pages still record what the tables hold. */
  lemma NodeKept(m: Machine, m': Machine, sid: Sid, p: nat, e: Option<nat>, n: Mapping)
    requires NodeOk(m, sid, n) && ViewSet(m, m', sid, p, e) && n.va != p * PAGE
    ensures NodeOk(m', sid, n)
  {
    assert n.va / PAGE * PAGE == n.va;
  }

  lemma PageAddedPage(m: Machine, ow: Owners, m': Machine, sid: Sid, p: nat, w: nat, q: nat)
    requires sid in m.spaces && sid in m'.spaces && PageOk(m, ow, sid, q) && ViewSet(m, m', sid, p, Some(w)) && UserPage(q)
    requires m'.spaces[sid].mappings == [Mapping(p * PAGE, FrameOf(w) * PAGE)] + m.spaces[sid].mappings
    requires FrameOf(w) !in ow
    ensures PageOk(m', ow[FrameOf(w) := Data(sid, p)], sid, q)
  {
    ListedCons(Mapping(p * PAGE, FrameOf(w) * PAGE), m.spaces[sid].mappings, q);
  }

  lemma PageAddedSpace(m: Machine, ow: Owners, m': Machine, sid: Sid, p: nat, w: nat)
    requires HasTable(m, ow, sid, p) && m.Lookup(sid, p) == None && PageAdded(m, m', sid, p, w)
    requires FrameOf(w) !in ow && FrameOf(w) !in m.free
    requires OwnersButPage(ow, m', ow[FrameOf(w) := Data(sid, p)], sid, p) && ViewSet(m, m', sid, p, Some(w))
    ensures SpaceOk(m', ow[FrameOf(w) := Data(sid, p)], sid)
  {
    hide Inv, Present, FrameOf;
    var ow' := ow[FrameOf(w) := Data(sid, p)];
    var ms := m.spaces[sid].mappings;
    EntryWrittenRest(m, ow, m', ow', sid, p, w);
    InvSpace(m, ow, sid);
    assert !Listed(ms, p) by { assert PageOk(m, ow, sid, p); }
    DistinctCons(Mapping(p * PAGE, FrameOf(w) * PAGE), ms, p);
    forall n | n in ms ensures NodeOk(m', sid, n) {
      assert NodeOk(m, sid, n);
      NodeKept(m, m', sid, p, Some(w), n);
    }
    forall q | UserPage(q) ensures PageOk(m', ow', sid, q) {
      assert PageOk(m, ow, sid, q);
      PageAddedPage(m, ow, m', sid, p, w, q);
    }
  }

  /** The table entry for p written, with the list and count that go with it. */
  function WithEntry(m: Machine, sid: Sid, p: nat, w: nat, ms: seq<Mapping>, count: nat): Machine
    requires sid in m.spaces
  {
    var s := m.spaces[sid];
    m.SetWord(FrameOf(m.Word(s.dir, Slot(p))), Index(p), w).(spaces := m.spaces[sid := Space(s.dir, ms, count)])
  }

  lemma WithEntryIs(m: Machine, sid: Sid, p: nat, w: nat, ms: seq<Mapping>, count: nat)
    requires sid in m.spaces
    ensures var m' := WithEntry(m, sid, p, w, ms, count);
            EntryWritten(m, m', sid, p, w) && m'.free == m.free && m'.spaces[sid] == Space(m.spaces[sid].dir, ms, count)
  {
  }

  lemma DistinctCons(n: Mapping, ms: seq<Mapping>, p: nat)
    requires Distinct(ms) && !Listed(ms, p) && n.va == p * PAGE
    ensures Distinct([n] + ms) && forall k :: k in ms ==> k.va != p * PAGE
  {
  }

  lemma ListedCons(n: Mapping, ms: seq<Mapping>, q: nat)
    ensures Listed([n] + ms, q) <==> n.va == q * PAGE || Listed(ms, q)
  {
    var r := [n] + ms;
    if Listed(ms, q) {
      var i :| 0 <= i < |ms| && ms[i].va == q * PAGE;
      assert r[i + 1].va == q * PAGE;
    }
    assert r[0] == n;
  }

  /** `address_space_map_page` adds one entry, and nothing else changes. */
  lemma PageAddedKeeps(m: Machine, ow: Owners, m': Machine, sid: Sid, p: nat, w: nat)
    requires HasTable(m, ow, sid, p) && m.Lookup(sid, p) == None && PageAdded(m, m', sid, p, w)
    requires FrameOf(w) !in ow && FrameOf(w) !in m.free && FrameOf(w) >= LOW_FRAMES
    ensures var ow' := ow[FrameOf(w) := Data(sid, p)];
            Inv(m', ow') && Local(m, ow, m', ow', sid) && ViewSet(m, m', sid, p, Some(w))
  {
    hide Inv;
    var ow' := ow[FrameOf(w) := Data(sid, p)];
    forall f | f in ow ensures ow[f] != Data(sid, p) && f !in m'.free { InvOwner(m, ow, f); }
    EntryWrittenView(m, ow, m', sid, p, w);
    PageAddedSpace(m, ow, m', sid, p, w);
    EntryWrittenRest(m, ow, m', ow', sid, p, w);
    EntryWrittenLocal(m, ow, m', ow', sid, p, w);
    forall f | f in ow' && ow'[f].Of(sid) ensures OwnerOk(m', ow', f) {
      if f != FrameOf(w) { EntryWrittenOwners(m, ow, m', ow', sid, p, w, f); }
    }
    LocalKeeps(m, ow, m', ow', sid);
  }

  /** `mapping_remove`: the list without its first node for the address. */
  function Without(ms: seq<Mapping>, va: nat): seq<Mapping> {
    if ms == [] then [] else if ms[0].va == va then ms[1..] else [ms[0]] + Without(ms[1..], va)
  }

  lemma {:induction false} WithoutIs(ms: seq<Mapping>, va: nat)
    requires Distinct(ms)
    ensures Distinct(Without(ms, va)) && (forall n :: n in Without(ms, va) <==> n in ms && n.va != va)
    ensures |Without(ms, va)| == if exists n :: n in ms && n.va == va then |ms| - 1 else |ms|
    decreases |ms|
  {
    if ms != [] {
      var t := ms[1..];
      assert ms == [ms[0]] + t;
      if ms[0].va != va {
        WithoutIs(t, va);
        var r := Without(t, va);
        assert forall n :: n in t ==> n.va != ms[0].va;
        forall i, j | 0 <= i < j < |r| + 1 ensures ([ms[0]] + r)[i].va != ([ms[0]] + r)[j].va {
          assert r[j - 1] in r;
        }
      } else {
        assert forall n :: n in t ==> n.va != va;
      }
    }
  }

  lemma ListedIn(ms: seq<Mapping>, q: nat)
    ensures Listed(ms, q) <==> exists n :: n in ms && n.va == q * PAGE
  {
    if Listed(ms, q) {
      var i :| 0 <= i < |ms| && ms[i].va == q * PAGE;
      assert ms[i] in ms;
    }
  }

  ghost predicate PageRemoved(m: Machine, m': Machine, sid: Sid, p: nat)
    requires sid in m.spaces && m.Lookup(sid, p).Some?
  {
    var s := m.spaces[sid];
    && EntryWritten(m, m', sid, p, 0) && m'.free == m.free + {FrameOf(m.Lookup(sid, p).value)}
    && m'.spaces[sid].mappings == Without(s.mappings, p * PAGE) && m'.spaces[sid].count == s.count - 1
  }

  lemma PageRemovedPage(m: Machine, ow: Owners, m': Machine, ow': Owners, sid: Sid, p: nat, f: nat, q: nat)
    requires sid in m.spaces && sid in m'.spaces && PageOk(m, ow, sid, q) && ViewSet(m, m', sid, p, None) && UserPage(q)
    requires Owns(ow, f, Data(sid, p)) && ow' == ow - {f}
    requires Distinct(m.spaces[sid].mappings) && m'.spaces[sid].mappings == Without(m.spaces[sid].mappings, p * PAGE)
    ensures PageOk(m', ow', sid, q)
  {
    WithoutIs(m.spaces[sid].mappings, p * PAGE);
    ListedIn(m.spaces[sid].mappings, q);
    ListedIn(m'.spaces[sid].mappings, q);
  }

  lemma PageRemovedSpace(m: Machine, ow: Owners, m': Machine, sid: Sid, p: nat, f: nat)
    requires HasTable(m, ow, sid, p) && m.Lookup(sid, p).Some? && PageRemoved(m, m', sid, p)
    requires Owns(ow, f, Data(sid, p)) && OwnersButPage(ow, m', ow - {f}, sid, p) && ViewSet(m, m', sid, p, None)
    ensures SpaceOk(m', ow - {f}, sid)
  {
    hide Inv;
    var ms := m.spaces[sid].mappings;
    EntryWrittenRest(m, ow, m', ow - {f}, sid, p, 0);
    InvSpace(m, ow, sid);
    assert PageOk(m, ow, sid, p);
    ListedIn(ms, p);
    WithoutIs(ms, p * PAGE);
    forall n | n in Without(ms, p * PAGE) ensures NodeOk(m', sid, n) {
      assert NodeOk(m, sid, n);
      NodeKept(m, m', sid, p, None, n);
    }
    forall q | UserPage(q) ensures PageOk(m', ow - {f}, sid, q) {
      assert PageOk(m, ow, sid, q);
      PageRemovedPage(m, ow, m', ow - {f}, sid, p, f, q);
    }
  }

  /** The page's frame is owned by that page alone. */
  lemma PageFrame(m: Machine, ow: Owners, sid: Sid, p: nat)
    requires Inv(m, ow) && sid in m.spaces && UserPage(p) && m.Lookup(sid, p).Some?
    ensures var f := FrameOf(m.Lookup(sid, p).value);
            Owns(ow, f, Data(sid, p)) && f !in m.free && f >= LOW_FRAMES
            && forall g :: g in ow && ow[g] == Data(sid, p) ==> g == f
  {
    hide Inv;
    var f := FrameOf(m.Lookup(sid, p).value);
    InvSpace(m, ow, sid);
    assert PageOk(m, ow, sid, p);
    forall g | g in ow && ow[g] == Data(sid, p) ensures g == f { InvOwner(m, ow, g); }
    InvOwner(m, ow, f);
  }

  /** `address_space_unmap_page` removes one entry and frees its frame, and nothing else changes. */
  lemma PageRemovedKeeps(m: Machine, ow: Owners, m': Machine, sid: Sid, p: nat)
    requires HasTable(m, ow, sid, p) && m.Lookup(sid, p).Some? && PageRemoved(m, m', sid, p)
    ensures var f := FrameOf(m.Lookup(sid, p).value);
            && Inv(m', ow - {f}) && Local(m, ow, m', ow - {f}, sid) && ViewSet(m, m', sid, p, None)
            && Owns(ow, f, Data(sid, p)) && f !in m.free && f >= LOW_FRAMES
  {
    hide Inv;
    var f := FrameOf(m.Lookup(sid, p).value);
    var ow' := ow - {f};
    PageFrame(m, ow, sid, p);
    forall g | g in ow && g != f ensures g !in m'.free { InvOwner(m, ow, g); }
    EntryWrittenView(m, ow, m', sid, p, 0);
    PageRemovedSpace(m, ow, m', sid, p, f);
    EntryWrittenRest(m, ow, m', ow', sid, p, 0);
    EntryWrittenLocal(m, ow, m', ow', sid, p, 0);
    forall g | g in ow' && ow'[g].Of(sid) ensures OwnerOk(m', ow', g) {
      EntryWrittenOwners(m, ow, m', ow', sid, p, 0, g);
    }
    LocalKeeps(m, ow, m', ow', sid);
  }

  // ------------------------------------------------ creating a space, sharing the kernel's slots

  ghost predicate SpaceAdded(m: Machine, m': Machine, sid: Sid, f: nat) {
    && m'.kdir == m.kdir && m'.spaces == m.spaces[sid := Space(f, [], 0)] && m'.free == m.free - {f}
    && m'.Page(f) == EMPTY && (forall g :: g != f ==> m'.Page(g) == m.Page(g))
  }

  lemma SpaceAddedKeeps(m: Machine, ow: Owners, m': Machine, sid: Sid, f: nat)
    requires Inv(m, ow) && sid !in m.spaces && f in m.free && f >= LOW_FRAMES && SpaceAdded(m, m', sid, f)
    ensures Inv(m', ow[f := Dir(sid)]) && Local(m, ow, m', ow[f := Dir(sid)], sid)
    ensures forall p :: UserPage(p) ==> m'.Lookup(sid, p) == None
  {
    hide Inv;
    var ow' := ow[f := Dir(sid)];
    forall g | g in ow ensures g != f && !ow[g].Of(sid) && g !in m'.free { InvOwner(m, ow, g); }
    forall p | UserPage(p) ensures PageOk(m', ow', sid, p) && m'.Lookup(sid, p) == None {}
    forall d | UserSlot(d) ensures SlotOk(m', ow', sid, d) {}
    forall d | SharedSlot(d) ensures SharedOk(m', sid, d) {}
    LocalKeeps(m, ow, m', ow', sid);
  }

  /** A user slot or a shared slot of the directory alone is written. */
  ghost predicate SlotWritten(m: Machine, m': Machine, sid: Sid, d: nat, w: nat)
    requires sid in m.spaces
  {
    Wrote(m, m', m.spaces[sid].dir, d, w) && m'.spaces == m.spaces
  }

  lemma SlotWrittenPages(m: Machine, ow: Owners, m': Machine, sid: Sid, d: nat, w: nat, f: nat)
    requires Inv(m, ow) && sid in m.spaces && SlotWritten(m, m', sid, d, w) && f in ow && ow[f] != Dir(sid)
    ensures m'.Page(f) == m.Page(f)
  {
    hide Inv;
    InvSpace(m, ow, sid);
  }

  /** One shared slot refreshed from the kernel's directory leaves every user translation alone. */
  lemma SlotSyncedKeeps(m: Machine, ow: Owners, m': Machine, sid: Sid, d: nat)
    requires Inv(m, ow) && sid in m.spaces && SharedSlot(d) && m'.free == m.free
    requires SlotWritten(m, m', sid, d, m.Word(m.kdir, d))
    ensures Inv(m', ow) && Local(m, ow, m', ow, sid) && SameView(m, m', sid)
  {
    hide Inv;
    var s := m.spaces[sid];
    InvSpace(m, ow, sid);
    forall f | f in ow ensures f !in m'.free && (ow[f] != Dir(sid) ==> m'.Page(f) == m.Page(f)) {
      InvOwner(m, ow, f);
      if ow[f] != Dir(sid) { SlotWrittenPages(m, ow, m', sid, d, m.Word(m.kdir, d), f); }
    }
    forall p | UserPage(p) ensures m'.Lookup(sid, p) == m.Lookup(sid, p) && PageOk(m', ow, sid, p) {
      assert SlotOk(m, ow, sid, Slot(p)) && PageOk(m, ow, sid, p);
    }
    forall e | UserSlot(e) ensures SlotOk(m', ow, sid, e) { assert SlotOk(m, ow, sid, e); }
    forall e | SharedSlot(e) ensures SharedOk(m', sid, e) { assert SharedOk(m, sid, e); }
    forall n | n in s.mappings ensures NodeOk(m', sid, n) { assert NodeOk(m, sid, n); }
    forall f | f in ow && ow[f].Of(sid) ensures OwnerOk(m', ow, f) { InvOwner(m, ow, f); }
    LocalKeeps(m, ow, m', ow, sid);
  }

  // ------------------------------------------------ taking a space apart

  /** With an empty mapping list no entry of any user table is present. */
  lemma NoPages(m: Machine, ow: Owners, sid: Sid, p: nat)
    requires Inv(m, ow) && sid in m.spaces && m.spaces[sid].mappings == [] && UserPage(p)
    ensures m.Lookup(sid, p) == None
  {
    hide Inv;
    InvSpace(m, ow, sid);
    assert PageOk(m, ow, sid, p);
  }

  lemma TableIsEmpty(m: Machine, ow: Owners, sid: Sid, d: nat, i: nat)
    requires Inv(m, ow) && sid in m.spaces && m.spaces[sid].mappings == [] && UserSlot(d) && i < 1024
    requires Present(m.Word(m.spaces[sid].dir, d))
    ensures !Present(m.Word(FrameOf(m.Word(m.spaces[sid].dir, d)), i))
  {
    hide Inv;
    var p := d * 1024 + i;
    assert UserPage(p) && Slot(p) == d && Index(p) == i by { Quotient(p, 1024, d, i); }
    NoPages(m, ow, sid, p);
  }

  lemma TableFrame(m: Machine, ow: Owners, sid: Sid, d: nat)
    requires Inv(m, ow) && sid in m.spaces && UserSlot(d) && Present(m.Word(m.spaces[sid].dir, d))
    ensures var f := FrameOf(m.Word(m.spaces[sid].dir, d));
            Owns(ow, f, UserTable(sid, d)) && f !in m.free && f >= LOW_FRAMES
            && forall g :: g in ow && ow[g] == UserTable(sid, d) ==> g == f
  {
    hide Inv;
    var f := FrameOf(m.Word(m.spaces[sid].dir, d));
    InvSpace(m, ow, sid);
    assert SlotOk(m, ow, sid, d);
    forall g | g in ow && ow[g] == UserTable(sid, d) ensures g == f { InvOwner(m, ow, g); }
    InvOwner(m, ow, f);
  }

  lemma TableRemovedKeeps(m: Machine, ow: Owners, m': Machine, sid: Sid, d: nat)
    requires Inv(m, ow) && sid in m.spaces && m.spaces[sid].mappings == [] && UserSlot(d)
    requires Present(m.Word(m.spaces[sid].dir, d)) && SlotWritten(m, m', sid, d, 0)
    requires m'.free == m.free + {FrameOf(m.Word(m.spaces[sid].dir, d))}
    ensures var f := FrameOf(m.Word(m.spaces[sid].dir, d));
            Inv(m', ow - {f}) && Local(m, ow, m', ow - {f}, sid) && SameView(m, m', sid) && f !in m.free
  {
    hide Inv;
    var f := FrameOf(m.Word(m.spaces[sid].dir, d));
    var ow' := ow - {f};
    TableFrame(m, ow, sid, d);
    InvSpace(m, ow, sid);
    forall g | g in ow && g != f ensures g !in m'.free && (ow[g] != Dir(sid) ==> m'.Page(g) == m.Page(g)) {
      InvOwner(m, ow, g);
      if ow[g] != Dir(sid) { SlotWrittenPages(m, ow, m', sid, d, 0, g); }
    }
    forall p | UserPage(p) ensures m.Lookup(sid, p) == None == m'.Lookup(sid, p) && PageOk(m', ow', sid, p) {
      NoPages(m, ow, sid, p);
      assert SlotOk(m, ow, sid, Slot(p)) && PageOk(m, ow, sid, p);
    }
    forall e | UserSlot(e) ensures SlotOk(m', ow', sid, e) { assert SlotOk(m, ow, sid, e); }
    forall e | SharedSlot(e) ensures SharedOk(m', sid, e) { assert SharedOk(m, sid, e); }
    forall g | g in ow' && ow'[g].Of(sid) ensures OwnerOk(m', ow', g) { InvOwner(m, ow, g); }
    LocalKeeps(m, ow, m', ow', sid);
  }

  ghost predicate NoTables(m: Machine, sid: Sid)
    requires sid in m.spaces
  {
    forall d :: UserSlot(d) ==> !Present(m.Word(m.spaces[sid].dir, d))
  }

  /** A space without pages and tables owns its directory and nothing else. */
  lemma SpaceRemovedKeeps(m: Machine, ow: Owners, m': Machine, sid: Sid)
    requires Inv(m, ow) && sid in m.spaces && m.spaces[sid].mappings == [] && NoTables(m, sid)
    requires m' == m.(spaces := m.spaces - {sid}, free := m.free + {m.spaces[sid].dir})
    ensures var f := m.spaces[sid].dir;
            && Inv(m', ow - {f}) && Local(m, ow, m', ow - {f}, sid) && f !in m.free && f >= LOW_FRAMES
            && forall g :: g in ow && ow[g].Of(sid) ==> g == f
  {
    hide Inv;
    var f := m.spaces[sid].dir;
    InvSpace(m, ow, sid);
    forall g | g in ow ensures g !in m.free && g >= LOW_FRAMES && (ow[g].Of(sid) ==> g == f) {
      InvOwner(m, ow, g);
    }
    LocalKeeps(m, ow, m', ow - {f}, sid);
  }

  // ------------------------------------------------ the kernel's own tables

  /** A step on kernel frames only: what every space owns stays as it was. */
  ghost predicate KernelStep(m: Machine, ow: Owners, m': Machine, ow': Owners) {
    && m'.kdir == m.kdir && m'.spaces == m.spaces
    && (forall f :: f in ow ==> Owns(ow', f, ow[f]) && f !in m'.free)
    && (forall f :: f in ow && !ow[f].KernelDir? && !ow[f].KernelTable? ==> m'.Page(f) == m.Page(f))
    && (forall f :: f in ow' && f !in ow ==> ow'[f].KernelTable?)
  }

  lemma KernelStepSpace(m: Machine, ow: Owners, m': Machine, ow': Owners, sid: Sid)
    requires Inv(m, ow) && KernelStep(m, ow, m', ow') && sid in m.spaces
    ensures SpaceOk(m', ow', sid) && SameView(m, m', sid)
  {
    assert SpaceOk(m, ow, sid);
    assert SameFor(m, ow, m', ow', sid);
    SameSpace(m, ow, m', ow', sid);
    forall p | UserPage(p) ensures m'.Lookup(sid, p) == m.Lookup(sid, p) { SameLookup(m, ow, m', ow', sid, p); }
  }

  lemma KernelStepOwner(m: Machine, ow: Owners, m': Machine, ow': Owners, f: nat)
    requires Inv(m, ow) && KernelStep(m, ow, m', ow') && f in ow && !ow[f].KernelDir? && !ow[f].KernelTable?
    ensures f in ow' && OwnerOk(m', ow', f)
  {
    assert OwnerOk(m, ow, f) && Owns(ow', f, ow[f]);
    var sid := ow[f].sid;
    assert SpaceOk(m, ow, sid);
    if ow[f].Data? { KernelStepSpace(m, ow, m', ow', sid); }
  }

  /** No kernel mapping changes a user translation in any space. */
  lemma KernelStepKeeps(m: Machine, ow: Owners, m': Machine, ow': Owners)
    requires Inv(m, ow) && KernelStep(m, ow, m', ow')
    requires forall d :: 0 <= d < 1024 ==> KernelSlotOk(m', ow', d)
    requires forall d :: 0 <= d < 1024 && Present(m.Word(m.kdir, d)) ==> m'.Word(m.kdir, d) == m.Word(m.kdir, d)
    requires forall f :: f in ow' && ow'[f].KernelTable? ==> OwnerOk(m', ow', f)
    ensures Inv(m', ow') && forall sid :: sid in m.spaces ==> SameView(m, m', sid)
  {
    forall sid | sid in m.spaces ensures SpaceOk(m', ow', sid) && SharedSlotsOk(m', sid) && SameView(m, m', sid) {
      KernelStepSpace(m, ow, m', ow', sid);
      assert SpaceOk(m, ow, sid) && SharedSlotsOk(m, sid);
      forall d | SharedSlot(d) ensures SharedOk(m', sid, d) { assert SharedOk(m, sid, d); }
    }
    forall f | f in ow' ensures OwnerOk(m', ow', f) {
      if f in ow {
        assert OwnerOk(m, ow, f);
        if !ow[f].KernelDir? && !ow[f].KernelTable? { KernelStepOwner(m, ow, m', ow', f); }
      }
    }
  }

  lemma KernelTableAddedKeeps(m: Machine, ow: Owners, m': Machine, d: nat, f: nat, w: nat)
    requires Inv(m, ow) && d < 1024 && !Present(m.Word(m.kdir, d)) && f in m.free && f >= LOW_FRAMES
    requires Present(w) && FrameOf(w) == f
    requires m'.kdir == m.kdir && m'.spaces == m.spaces && m'.free == m.free - {f}
    requires m'.Page(m.kdir) == m.Page(m.kdir)[d := w] && m'.Page(f) == EMPTY
    requires forall g :: g != f && g != m.kdir ==> m'.Page(g) == m.Page(g)
    ensures Inv(m', ow[f := KernelTable(d)]) && forall sid :: sid in m.spaces ==> SameView(m, m', sid)
    ensures forall p :: 0 <= p < MAX_FRAMES ==> m'.Walk(m.kdir, p) == m.Walk(m.kdir, p)
  {
    var ow' := ow[f := KernelTable(d)];
    forall g | g in ow ensures g != f && g !in m'.free && (g == m.kdir <==> ow[g] == KernelDir) { assert OwnerOk(m, ow, g); }
    forall e: nat | e < 1024 ensures KernelSlotOk(m', ow', e) { assert KernelSlotOk(m, ow, e); }
    forall g | g in ow' && ow'[g].KernelTable? ensures OwnerOk(m', ow', g) { if g != f { assert OwnerOk(m, ow, g); } }
    KernelStepKeeps(m, ow, m', ow');
    forall p: nat | p < MAX_FRAMES ensures m'.Walk(m.kdir, p) == m.Walk(m.kdir, p) {
      assert KernelSlotOk(m, ow, Slot(p));
    }
  }

  /** `vmm_map_page` and `vmm_unmap_page`: one kernel entry is set, no other kernel page and no user page is. */
  lemma KernelEntryKeeps(m: Machine, ow: Owners, m': Machine, p: nat, w: nat)
    requires Inv(m, ow) && p < MAX_FRAMES && Present(m.Word(m.kdir, Slot(p)))
    requires Wrote(m, m', FrameOf(m.Word(m.kdir, Slot(p))), Index(p), w) && m'.spaces == m.spaces && m'.free == m.free
    ensures Inv(m', ow) && forall sid :: sid in m.spaces ==> SameView(m, m', sid)
    ensures forall q :: 0 <= q < MAX_FRAMES ==>
      m'.Walk(m.kdir, q) == if q == p then (if Present(w) then Some(w) else None) else m.Walk(m.kdir, q)
  {
    assert KernelSlotOk(m, ow, Slot(p));
    forall g | g in ow ensures g !in m'.free { assert OwnerOk(m, ow, g); }
    forall e: nat | e < 1024 ensures KernelSlotOk(m', ow, e) { assert KernelSlotOk(m, ow, e); }
    forall g | g in ow && ow[g].KernelTable? ensures OwnerOk(m', ow, g) { assert OwnerOk(m, ow, g); }
    KernelStepKeeps(m, ow, m', ow);
    forall q: nat | q < MAX_FRAMES
      ensures m'.Walk(m.kdir, q) == if q == p then (if Present(w) then Some(w) else None) else m.Walk(m.kdir, q)
    {
      assert KernelSlotOk(m, ow, Slot(q));
      if Slot(q) == Slot(p) && Index(q) == Index(p) { SamePage(p, q); }
    }
  }
}
