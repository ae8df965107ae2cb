/** The page tables paging is turned on with: the first 16 MiB mapped to themselves. */
module Boot {
  import opened Base
  import opened Frames
  import opened Paging
  import opened Access
  import opened AddressSpaces

  const TABLES: nat := 4

  function IdentityEntry(t: nat, e: nat): nat {
    Entry(t * 1024 + e, true, false)
  }

  ghost predicate Slots(m: Machine, tables: seq<nat>, n: nat)
    requires |tables| == TABLES && n <= TABLES
  {
    forall d: nat :: d < 1024 ==> m.Word(m.kdir, d) == if d < n then Entry(tables[d], true, false) else 0
  }

  ghost predicate Filled(m: Machine, f: nat, t: nat, n: nat)
    requires n <= 1024
  {
    forall e: nat :: e < n ==> m.Word(f, e) == IdentityEntry(t, e)
  }

  ghost predicate AllFilled(m: Machine, tables: seq<nat>, n: nat)
    requires n <= |tables|
  {
    forall t: nat :: t < n ==> Filled(m, tables[t], t, 1024)
  }

  /** The directory and the four tables lie in five different frames that are not handed out. */
  ghost predicate Placed(dir: nat, tables: seq<nat>, free: set<nat>) {
    && |tables| == TABLES && dir !in tables && dir >= LOW_FRAMES && dir !in free
    && (forall i, j :: 0 <= i < j < TABLES ==> tables[i] != tables[j])
    && (forall f :: f in tables ==> f >= LOW_FRAMES && f !in free)
  }

  ghost predicate IdentityMapped(m: Machine, tables: seq<nat>) {
    Placed(m.kdir, tables, m.free) && m.spaces == map[] && Slots(m, tables, TABLES) && AllFilled(m, tables, TABLES)
  }

  /** `build_identity_tables`, after the directory is cleared. */
  method BuildIdentityTables(dir: nat, tables: seq<nat>, free: set<nat>) returns (m: Machine)
    requires Placed(dir, tables, free)
    ensures IdentityMapped(m, tables) && m.kdir == dir && m.free == free
  {
    m := Machine(map[dir := EMPTY], free, map[], dir);
    for t := 0 to TABLES
      invariant m.kdir == dir && m.free == free && m.spaces == map[]
      invariant Slots(m, tables, t) && AllFilled(m, tables, t)
    {
      ghost var was := m;
      for e := 0 to 1024
        invariant m.kdir == dir && m.free == free && m.spaces == map[] && Filled(m, tables[t], t, e)
        invariant forall f :: f != tables[t] ==> m.Page(f) == was.Page(f)
      {
        m := m.SetWord(tables[t], e, IdentityEntry(t, e));
      }
      forall u: nat | u < t ensures Filled(m, tables[u], u, 1024) { assert Filled(was, tables[u], u, 1024); }
      assert m.Page(dir) == was.Page(dir) by { assert tables[t] in tables; }
      ghost var filled := m;
      m := m.SetWord(dir, t, Entry(tables[t], true, false));
      forall u: nat | u < t + 1 ensures Filled(m, tables[u], u, 1024) {
        assert tables[u] in tables && Filled(filled, tables[u], u, 1024);
      }
      forall d: nat | d < 1024 ensures m.Word(dir, d) == if d < t + 1 then Entry(tables[d], true, false) else 0 {
        assert m.Word(dir, d) == if d == t then Entry(tables[t], true, false) else was.Word(dir, d);
      }
    }
  }

  lemma EntryWord(p: nat)
    ensures Entry(p, true, false) == p * 4096 + 3
  {
  }

  /** These tables translate every page below 16 MiB to itself and no other page, */
  lemma Identity(m: Machine, tables: seq<nat>, p: nat)
    requires IdentityMapped(m, tables) && p < MAX_FRAMES
    ensures m.Walk(m.kdir, p) == if p < 0x1000 then Some(p * 4096 + 3) else None
  {
    hide Entry;
    if p < 0x1000 {
      assert Slot(p) == p / 1024 < TABLES && p == Slot(p) * 1024 + Index(p);
      assert Filled(m, tables[Slot(p)], Slot(p), 1024);
      assert m.Word(tables[Slot(p)], Index(p)) == IdentityEntry(Slot(p), Index(p)) == Entry(p, true, false);
      EntryWord(p);
    } else {
      assert Slot(p) == p / 1024 >= TABLES;
      assert m.Word(m.kdir, Slot(p)) == 0;
    }
  }

  function BootOwners(dir: nat, tables: seq<nat>): Owners
    requires |tables| == TABLES
  {
    map[dir := KernelDir, tables[0] := KernelTable(0), tables[1] := KernelTable(1),
        tables[2] := KernelTable(2), tables[3] := KernelTable(3)]
  }

  /** and every frame they use has one owner: the machine address spaces start from. */
  lemma BootInv(m: Machine, tables: seq<nat>)
    requires IdentityMapped(m, tables)
    ensures Inv(m, BootOwners(m.kdir, tables))
  {
    var ow := BootOwners(m.kdir, tables);
    assert tables[0] in tables && tables[1] in tables && tables[2] in tables && tables[3] in tables;
    forall f | f in ow ensures OwnerOk(m, ow, f) { }
    forall d: nat | d < 1024 ensures KernelSlotOk(m, ow, d) { }
  }

  /** `paging_init` and `address_space_init` */
  method Start(dir: nat, tables: seq<nat>, free: set<nat>) returns (spaces: AddressSpaceTable)
    requires Placed(dir, tables, free)
    ensures fresh(spaces) && spaces.Valid() && spaces.current == None && DirsOpen(spaces.m)
    ensures IdentityMapped(spaces.m, tables) && spaces.m.kdir == dir && spaces.m.free == free
  {
    hide Inv, IdentityMapped;
    var m := BuildIdentityTables(dir, tables, free);
    BootInv(m, tables);
    assert m.spaces == map[] by { NoSpaces(m, tables); }
    spaces := new AddressSpaceTable(m, BootOwners(dir, tables));
  }

  lemma NoSpaces(m: Machine, tables: seq<nat>)
    requires IdentityMapped(m, tables)
    ensures m.spaces == map[]
  {
  }
}
