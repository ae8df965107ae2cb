/** Two-level page tables in physical memory, who owns which frame, and the partial maps the tables stand for. */
module Paging {
  import opened Base
  import opened Frames

  // ------------------------------------------------ entries

  /** A directory or a table: one frame of 1024 words. */
  type Table = s: seq<nat> | |s| == 1024 witness Zeros(1024)

  function Zeros(n: nat): (s: seq<nat>)
    ensures |s| == n && forall i :: 0 <= i < n ==> s[i] == 0
  {
    if n == 0 then [] else Zeros(n - 1) + [0]
  }

  const EMPTY: Table := Zeros(1024)

  predicate Present(w: nat) { w % 2 == 1 }
  predicate Writable(w: nat) { w / 2 % 2 == 1 }
  predicate User(w: nat) { w / 4 % 2 == 1 }
  function FrameOf(w: nat): nat { w / PAGE }

  function Entry(frame: nat, writable: bool, user: bool): (w: nat)
    ensures Present(w) && Writable(w) == writable && User(w) == user && FrameOf(w) == frame
    ensures w == frame * 4096 + (if user then 5 else 1) + (if writable then 2 else 0)
  {
    var a, b := if writable then 1 else 0, if user then 1 else 0;
    Decode(frame, a, b);
    frame * PAGE + 1 + 2 * a + 4 * b
  }

  lemma Decode(frame: nat, a: nat, b: nat)
    requires a < 2 && b < 2
    ensures var w := frame * PAGE + 1 + 2 * a + 4 * b;
            w % 2 == 1 && w / 2 % 2 == a && w / 4 % 2 == b && w / PAGE == frame
  {
    var w := 4096 * frame + 1 + 2 * a + 4 * b;
    Quotient(w, 2, 2048 * frame + 2 * b + a, 1);
    Quotient(w / 2, 2, 1024 * frame + b, a);
    Quotient(w, 4, 1024 * frame + b, 1 + 2 * a);
    Quotient(w / 4, 2, 512 * frame, b);
    Quotient(w, 4096, frame, 1 + 2 * a + 4 * b);
  }

  // ------------------------------------------------ pages

  predicate UserSlot(d: nat) { 4 <= d < 768 }
  predicate SharedSlot(d: nat) { d < 4 || 768 <= d < 1024 }
  predicate UserPage(p: nat) { 0x1000 <= p < 0xC_0000 }

  /** `directory_index` and `table_index` of a page number. */
  function Slot(p: nat): (d: nat)
    ensures d < 1024 && (UserPage(p) ==> UserSlot(d))
  {
    p / 1024 % 1024
  }

  function Index(p: nat): (i: nat)
    ensures i < 1024
  {
    p % 1024
  }

  lemma SamePage(p: nat, q: nat)
    requires p < MAX_FRAMES && q < MAX_FRAMES && Slot(p) == Slot(q) && Index(p) == Index(q)
    ensures p == q
  {
    assert p == p / 1024 * 1024 + p % 1024 && q == q / 1024 * 1024 + q % 1024;
  }

  // ------------------------------------------------ memory

  type Sid = nat

  /** A page and the physical address mapped there, as a node of a space's mapping list. */
  datatype Mapping = Mapping(va: nat, pa: nat)

  datatype Space = Space(dir: nat, mappings: seq<Mapping>, count: nat)

  /** Physical memory as far as it holds page tables, the free frames, the address spaces, and the kernel's directory. */
  datatype Machine = Machine(ram: map<nat, Table>, free: set<nat>, spaces: map<Sid, Space>, kdir: nat) {
    function Page(f: nat): Table {
      if f in ram then ram[f] else EMPTY
    }

    function Word(f: nat, i: nat): nat
      requires i < 1024
    {
      Page(f)[i]
    }

    function SetWord(f: nat, i: nat, w: nat): Machine
      requires i < 1024
    {
      this.(ram := ram[f := Page(f)[i := w]])
    }

    /** The walk of section 4.3 of the Intel SDM, volume 3A: the present table entry for a page number, if any. */
    function Walk(dir: nat, p: nat): Option<nat> {
      var pde := Word(dir, Slot(p));
      if !Present(pde) then None
      else
        var pte := Word(FrameOf(pde), Index(p));
        if Present(pte) then Some(pte) else None
    }

    function Lookup(sid: Sid, p: nat): Option<nat> {
      if sid in spaces then Walk(spaces[sid].dir, p) else None
    }
  }

  // ------------------------------------------------ ownership

  /** What a frame outside the free set is used for. */
  datatype Owner = KernelDir | KernelTable(slot: nat) | Dir(sid: Sid) | UserTable(sid: Sid, slot: nat) | Data(sid: Sid, page: nat) {
    predicate Of(s: Sid) {
      match this
      case KernelDir => false
      case KernelTable(_) => false
      case _ => sid == s
    }
  }

  type Owners = map<nat, Owner>

  ghost predicate Owns(ow: Owners, f: nat, o: Owner) {
    f in ow && ow[f] == o
  }

  ghost predicate SlotOk(m: Machine, ow: Owners, sid: Sid, d: nat)
    requires sid in m.spaces && d < 1024
  {
    var pde := m.Word(m.spaces[sid].dir, d);
    Present(pde) ==> Owns(ow, FrameOf(pde), UserTable(sid, d))
  }

  ghost predicate Listed(ms: seq<Mapping>, p: nat) {
    exists i :: 0 <= i < |ms| && ms[i].va == p * PAGE
  }

  ghost predicate PageOk(m: Machine, ow: Owners, sid: Sid, p: nat)
    requires sid in m.spaces
  {
    var e := m.Lookup(sid, p);
    && (Listed(m.spaces[sid].mappings, p) <==> e.Some?)
    && (e.Some? ==> Owns(ow, FrameOf(e.value), Data(sid, p)))
  }

  /** A node of the list records what the tables hold. */
  ghost predicate NodeOk(m: Machine, sid: Sid, n: Mapping) {
    && n.va % PAGE == 0 && UserPage(n.va / PAGE)
    && m.Lookup(sid, n.va / PAGE).Some? && FrameOf(m.Lookup(sid, n.va / PAGE).value) * PAGE == n.pa
  }

  ghost predicate Distinct(ms: seq<Mapping>) {
    forall i, j :: 0 <= i < j < |ms| ==> ms[i].va != ms[j].va
  }

  /** The mapping list, the page count and the tables of one space agree, and it owns every frame it uses. */
  ghost predicate SpaceOk(m: Machine, ow: Owners, sid: Sid)
    requires sid in m.spaces
  {
    var s := m.spaces[sid];
    && Owns(ow, s.dir, Dir(sid))
    && (forall d :: UserSlot(d) ==> SlotOk(m, ow, sid, d))
    && (forall p :: UserPage(p) ==> PageOk(m, ow, sid, p))
    && (forall n :: n in s.mappings ==> NodeOk(m, sid, n))
    && Distinct(s.mappings) && s.count == |s.mappings|
  }

  /** A frame's owner does use it, and the frame is not free. */
  ghost predicate OwnerOk(m: Machine, ow: Owners, f: nat)
    requires f in ow
  {
    && f !in m.free && f >= LOW_FRAMES
    && match ow[f]
       case KernelDir => f == m.kdir
       case KernelTable(d) => d < 1024 && Present(m.Word(m.kdir, d)) && FrameOf(m.Word(m.kdir, d)) == f
       case Dir(sid) => sid in m.spaces && m.spaces[sid].dir == f
       case UserTable(sid, d) =>
         sid in m.spaces && UserSlot(d) && Present(m.Word(m.spaces[sid].dir, d)) && FrameOf(m.Word(m.spaces[sid].dir, d)) == f
       case Data(sid, p) =>
         sid in m.spaces && UserPage(p) && m.Lookup(sid, p).Some? && FrameOf(m.Lookup(sid, p).value) == f
  }

  ghost predicate KernelSlotOk(m: Machine, ow: Owners, d: nat)
    requires d < 1024
  {
    var pde := m.Word(m.kdir, d);
    Present(pde) ==> Owns(ow, FrameOf(pde), KernelTable(d))
  }

  /** A shared slot, when present, is the kernel's. */
  ghost predicate SharedOk(m: Machine, sid: Sid, d: nat)
    requires sid in m.spaces && d < 1024
  {
    Present(m.Word(m.spaces[sid].dir, d)) ==> m.Word(m.spaces[sid].dir, d) == m.Word(m.kdir, d)
  }

  ghost predicate SharedSlotsOk(m: Machine, sid: Sid)
    requires sid in m.spaces
  {
    forall d :: SharedSlot(d) ==> SharedOk(m, sid, d)
  }

  ghost predicate Inv(m: Machine, ow: Owners) {
    && (forall sid :: sid in m.spaces ==> SpaceOk(m, ow, sid) && SharedSlotsOk(m, sid))
    && (forall f :: f in ow ==> OwnerOk(m, ow, f))
    && Owns(ow, m.kdir, KernelDir)
    && (forall d :: 0 <= d < 1024 ==> KernelSlotOk(m, ow, d))
  }

  lemma InvSpace(m: Machine, ow: Owners, sid: Sid)
    requires Inv(m, ow) && sid in m.spaces
    ensures SpaceOk(m, ow, sid) && SharedSlotsOk(m, sid) && OwnerOk(m, ow, m.spaces[sid].dir)
  {
    assert Owns(ow, m.spaces[sid].dir, Dir(sid));
  }

  lemma InvOwner(m: Machine, ow: Owners, f: nat)
    requires Inv(m, ow) && f in ow
    ensures OwnerOk(m, ow, f)
  {
  }

  lemma InvKernel(m: Machine, ow: Owners)
    requires Inv(m, ow)
    ensures Owns(ow, m.kdir, KernelDir)
  {
  }

  // ------------------------------------------------ spaces that a step does not touch

  /** The frames a space owns hold the same words in both machines, and it still owns them. */
  ghost predicate SameFor(m: Machine, ow: Owners, m': Machine, ow': Owners, sid: Sid) {
    && sid in m.spaces && sid in m'.spaces && m'.spaces[sid] == m.spaces[sid]
    && (forall f :: f in ow && ow[f].Of(sid) ==> Owns(ow', f, ow[f]))
    && (forall f :: f in ow && ow[f].Of(sid) && !ow[f].Data? ==> m'.Page(f) == m.Page(f))
  }

  lemma SameLookup(m: Machine, ow: Owners, m': Machine, ow': Owners, sid: Sid, p: nat)
    requires SameFor(m, ow, m', ow', sid) && SpaceOk(m, ow, sid) && UserPage(p)
    ensures m'.Lookup(sid, p) == m.Lookup(sid, p)
  {
    var s := m.spaces[sid];
    assert ow[s.dir].Of(sid);
    assert SlotOk(m, ow, sid, Slot(p));
  }

  lemma SameSpace(m: Machine, ow: Owners, m': Machine, ow': Owners, sid: Sid)
    requires SameFor(m, ow, m', ow', sid) && SpaceOk(m, ow, sid)
    ensures SpaceOk(m', ow', sid)
  {
    var s := m.spaces[sid];
    assert ow[s.dir].Of(sid);
    forall d | UserSlot(d) ensures SlotOk(m', ow', sid, d) {
      assert SlotOk(m, ow, sid, d);
      if Present(m.Word(s.dir, d)) { assert ow[FrameOf(m.Word(s.dir, d))].Of(sid); }
    }
    forall p | UserPage(p) ensures PageOk(m', ow', sid, p) {
      assert PageOk(m, ow, sid, p);
      SameLookup(m, ow, m', ow', sid, p);
      if m.Lookup(sid, p).Some? { assert ow[FrameOf(m.Lookup(sid, p).value)].Of(sid); }
    }
    forall n | n in s.mappings ensures NodeOk(m', sid, n) {
      assert NodeOk(m, sid, n);
      SameLookup(m, ow, m', ow', sid, n.va / PAGE);
    }
  }

  /** A step local to one space: everything the kernel and the other spaces own stays as it was. */
  ghost predicate Local(m: Machine, ow: Owners, m': Machine, ow': Owners, sid: Sid) {
    && m'.kdir == m.kdir
    && (forall s :: s != sid && s in m.spaces ==> s in m'.spaces && m'.spaces[s] == m.spaces[s])
    && (forall s :: s != sid && s in m'.spaces ==> s in m.spaces)
    && (forall f :: f in ow && !ow[f].Of(sid) ==> Owns(ow', f, ow[f]) && m'.Page(f) == m.Page(f) && f !in m'.free)
    && (forall f :: f in ow' && !ow'[f].Of(sid) ==> f in ow && !ow[f].Of(sid))
  }

  /** What is left to show of the space the step changed. */
  ghost predicate OwnOk(m: Machine, ow: Owners, sid: Sid) {
    && (sid in m.spaces ==> SpaceOk(m, ow, sid) && SharedSlotsOk(m, sid))
    && (forall f :: f in ow && ow[f].Of(sid) ==> OwnerOk(m, ow, f))
  }

  lemma LocalSame(m: Machine, ow: Owners, m': Machine, ow': Owners, sid: Sid, s: Sid)
    requires Inv(m, ow) && Local(m, ow, m', ow', sid) && s in m.spaces && s != sid
    ensures SameFor(m, ow, m', ow', s) && SpaceOk(m', ow', s) && SharedSlotsOk(m', s)
  {
    assert SpaceOk(m, ow, s) && SharedSlotsOk(m, s);
    assert SameFor(m, ow, m', ow', s);
    SameSpace(m, ow, m', ow', s);
    assert !ow[m.kdir].Of(sid) && !ow[m.spaces[s].dir].Of(sid);
    forall d | SharedSlot(d) ensures SharedOk(m', s, d) { assert SharedOk(m, s, d); }
  }

  lemma LocalOwner(m: Machine, ow: Owners, m': Machine, ow': Owners, sid: Sid, f: nat)
    requires Inv(m, ow) && Local(m, ow, m', ow', sid) && f in ow && !ow[f].Of(sid)
    ensures f in ow' && OwnerOk(m', ow', f)
  {
    assert OwnerOk(m, ow, f);
    assert !ow[m.kdir].Of(sid) && Owns(ow', f, ow[f]);
    if !ow[f].KernelDir? && !ow[f].KernelTable? {
      var s := ow[f].sid;
      LocalSame(m, ow, m', ow', sid, s);
      assert SpaceOk(m, ow, s);
      assert ow[m.spaces[s].dir].Of(s);
      if ow[f].Data? { SameLookup(m, ow, m', ow', s, ow[f].page); }
    }
  }

  /** A local step keeps the whole invariant once its own space is in order, */
  lemma LocalKeeps(m: Machine, ow: Owners, m': Machine, ow': Owners, sid: Sid)
    requires Inv(m, ow) && Local(m, ow, m', ow', sid) && OwnOk(m', ow', sid)
    ensures Inv(m', ow')
  {
    forall s | s in m'.spaces && s != sid ensures SpaceOk(m', ow', s) && SharedSlotsOk(m', s) {
      LocalSame(m, ow, m', ow', sid, s);
    }
    forall f | f in ow' && !ow'[f].Of(sid) ensures OwnerOk(m', ow', f) { LocalOwner(m, ow, m', ow', sid, f); }
    assert !ow[m.kdir].Of(sid);
    forall d: nat | d < 1024 ensures KernelSlotOk(m', ow', d) {
      assert KernelSlotOk(m, ow, d);
    }
  }

  /** and never changes a user translation in another space. */
  lemma Isolation(m: Machine, ow: Owners, m': Machine, ow': Owners, sid: Sid, s: Sid, p: nat)
    requires Inv(m, ow) && Local(m, ow, m', ow', sid) && s != sid && UserPage(p)
    ensures m'.Lookup(s, p) == m.Lookup(s, p)
  {
    if s in m.spaces {
      LocalSame(m, ow, m', ow', sid, s);
      assert SpaceOk(m, ow, s);
      SameLookup(m, ow, m', ow', s, p);
    }
  }
}
