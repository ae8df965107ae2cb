/** What user code may do with a page, as the processor decides it: by the directory entry and the table entry together. */
module Access {
  import opened Base
  import opened Frames
  import opened Paging
  import opened PagingSteps

  /** Section 4.6 of the Intel SDM, volume 3A: user code may read a page if both entries carry the user flag, and write it if
      both carry the writable flag too. */
  predicate UserMay(m: Machine, sid: Sid, p: nat, write: bool) {
    && sid in m.spaces && m.Lookup(sid, p).Some?
    && var pde, pte := m.Word(m.spaces[sid].dir, Slot(p)), m.Lookup(sid, p).value;
       User(pde) && User(pte) && (write ==> Writable(pde) && Writable(pte))
  }

  /** A present directory entry that restricts nothing. */
  predicate OpenSlot(w: nat) {
    Present(w) ==> User(w) && Writable(w)
  }

  ghost predicate DirOpen(m: Machine, sid: Sid)
    requires sid in m.spaces
  {
    forall d :: UserSlot(d) ==> OpenSlot(m.Word(m.spaces[sid].dir, d))
  }

  /** Every table of user pages, in every space, is entered in its directory for the user to read and write. */
  ghost predicate DirsOpen(m: Machine) {
    forall sid :: sid in m.spaces ==> DirOpen(m, sid)
  }

  /** Then the table entry alone decides. */
  lemma TableEntryDecides(m: Machine, sid: Sid, p: nat, write: bool)
    requires DirsOpen(m) && UserPage(p)
    ensures UserMay(m, sid, p, write) <==>
              m.Lookup(sid, p).Some? && User(m.Lookup(sid, p).value) && (write ==> Writable(m.Lookup(sid, p).value))
  {
    if sid in m.spaces {
      assert DirOpen(m, sid) && UserSlot(Slot(p));
      assert OpenSlot(m.Word(m.spaces[sid].dir, Slot(p)));
    }
  }

  /** The user slots of a directory are as before. */
  ghost predicate SameDir(m: Machine, m': Machine, sid: Sid) {
    && sid in m.spaces && sid in m'.spaces
    && forall d :: UserSlot(d) ==> m'.Word(m'.spaces[sid].dir, d) == m.Word(m.spaces[sid].dir, d)
  }

  lemma SameDirOpen(m: Machine, m': Machine, sid: Sid)
    requires SameDir(m, m', sid) && DirOpen(m, sid)
    ensures DirOpen(m', sid)
  {
    forall d | UserSlot(d) ensures OpenSlot(m'.Word(m'.spaces[sid].dir, d)) {
      assert OpenSlot(m.Word(m.spaces[sid].dir, d));
    }
  }

  /** A step local to one space changes no other space's directory. */
  lemma LocalSameDir(m: Machine, ow: Owners, m': Machine, ow': Owners, sid: Sid, s: Sid)
    requires Inv(m, ow) && Local(m, ow, m', ow', sid) && s in m.spaces && s != sid
    ensures SameDir(m, m', s)
  {
    hide Inv;
    InvSpace(m, ow, s);
    assert !ow[m.spaces[s].dir].Of(sid);
  }

  lemma LocalDirsOpen(m: Machine, ow: Owners, m': Machine, ow': Owners, sid: Sid)
    requires Inv(m, ow) && Local(m, ow, m', ow', sid) && DirsOpen(m) && (sid in m'.spaces ==> DirOpen(m', sid))
    ensures DirsOpen(m')
  {
    hide Inv, DirOpen;
    forall s | s in m'.spaces ensures DirOpen(m', s) {
      if s != sid {
        assert DirOpen(m, s);
        LocalSameDir(m, ow, m', ow', sid, s);
        SameDirOpen(m, m', s);
      }
    }
  }

  lemma AllSameDirsOpen(m: Machine, m': Machine)
    requires DirsOpen(m) && m'.spaces.Keys == m.spaces.Keys && forall s :: s in m.spaces ==> SameDir(m, m', s)
    ensures DirsOpen(m')
  {
    hide DirOpen, SameDir;
    forall s | s in m'.spaces ensures DirOpen(m', s) {
      assert DirOpen(m, s) && SameDir(m, m', s);
      SameDirOpen(m, m', s);
    }
  }

  /** Writing a table entry writes no directory. */
  lemma EntryWrittenSameDir(m: Machine, ow: Owners, m': Machine, sid: Sid, p: nat, w: nat)
    requires HasTable(m, ow, sid, p) && EntryWritten(m, m', sid, p, w)
    ensures SameDir(m, m', sid)
  {
    hide Inv;
    EntryWrittenDir(m, ow, m', sid, p, w);
  }

  /** What making a table for slot d does to the directory: an absent entry becomes present and writable, for the user or
      not as asked; all else stays. */
  ghost predicate SlotSet(m: Machine, m': Machine, sid: Sid, d: nat, user: bool) {
    && sid in m.spaces && sid in m'.spaces
    && forall e :: UserSlot(e) ==>
         var w, w' := m.Word(m.spaces[sid].dir, e), m'.Word(m'.spaces[sid].dir, e);
         if e == d && !Present(w) then Present(w') && Writable(w') && User(w') == user else w' == w
  }

  lemma SlotSetOpen(m: Machine, m': Machine, sid: Sid, d: nat)
    requires SlotSet(m, m', sid, d, true) && DirOpen(m, sid)
    ensures DirOpen(m', sid)
  {
    forall e | UserSlot(e) ensures OpenSlot(m'.Word(m'.spaces[sid].dir, e)) {
      assert OpenSlot(m.Word(m.spaces[sid].dir, e));
    }
  }

  lemma SlotSetThen(m: Machine, m1: Machine, m2: Machine, sid: Sid, d: nat, user: bool)
    requires SlotSet(m, m1, sid, d, user) && SameDir(m1, m2, sid)
    ensures SlotSet(m, m2, sid, d, user)
  {
  }

  /** A kernel step writes no space's directory. */
  lemma KernelSameDir(m: Machine, ow: Owners, m': Machine, sid: Sid)
    requires Inv(m, ow) && sid in m.spaces && m'.spaces == m.spaces
    requires forall f :: f in ow && !ow[f].KernelDir? && !ow[f].KernelTable? ==> m'.Page(f) == m.Page(f)
    ensures SameDir(m, m', sid)
  {
    hide Inv;
    InvSpace(m, ow, sid);
  }
}
