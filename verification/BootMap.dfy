/** The boot loader's memory map as it lies in memory, and what the frame allocator makes of it. */
module BootMap {
  import opened Base
  import opened Frames

  /** An entry of six words: its size less the first word, then base and length, low word first, and the type. */
  function EntryAt(word: nat -> nat, a: nat): MapEntry {
    MapEntry(word(a), word(a + 4) + U32 * word(a + 8), word(a + 12) + U32 * word(a + 16), word(a + 20))
  }

  function Entries(word: nat -> nat): nat -> MapEntry {
    (a: nat) => EntryAt(word, a)
  }

  /** The six words of an entry stand at the address. */
  ghost predicate Stands(word: nat -> nat, a: nat, e: MapEntry) {
    && word(a) == e.size
    && word(a + 4) == e.base % 0x1_0000_0000 && word(a + 8) == e.base / 0x1_0000_0000
    && word(a + 12) == e.length % 0x1_0000_0000 && word(a + 16) == e.length / 0x1_0000_0000
    && word(a + 20) == e.kind
  }

  function MapBytes(es: seq<MapEntry>): nat {
    if es == [] then 0 else es[0].size + 4 + MapBytes(es[1..])
  }

  /** The entries stand one after another from the address on, each as long as it says. */
  ghost predicate LaidOut(word: nat -> nat, a: nat, es: seq<MapEntry>)
    decreases |es|
  {
    es == [] || (Stands(word, a, es[0]) && WellTyped(es[0]) && LaidOut(word, a + es[0].size + 4, es[1..]))
  }

  lemma EntryReadsBack(word: nat -> nat, a: nat, e: MapEntry)
    requires Stands(word, a, e)
    ensures Entries(word)(a) == e
  {
  }

  lemma WalkOne(entryAt: nat -> MapEntry, cursor: nat, end: nat, e: MapEntry, rest: seq<MapEntry>)
    requires entryAt(cursor) == e && WellTyped(e) && cursor < U32 && cursor < end
    requires NoWrap(entryAt, cursor + e.size + 4, end) && Walk(entryAt, cursor + e.size + 4, end) == rest
    ensures NoWrap(entryAt, cursor, end) && Walk(entryAt, cursor, end) == [e] + rest
  {
  }

  /** The walk over a map laid out in memory visits exactly its entries, in order. */
  lemma {:induction false} MapReadsBack(word: nat -> nat, a: nat, es: seq<MapEntry>)
    requires LaidOut(word, a, es) && a + MapBytes(es) < U32
    ensures NoWrap(Entries(word), a, a + MapBytes(es)) && Walk(Entries(word), a, a + MapBytes(es)) == es
    decreases |es|
  {
    hide Stands, Entries, WellTyped;
    if es != [] {
      EntryReadsBack(word, a, es[0]);
      MapReadsBack(word, a + es[0].size + 4, es[1..]);
      WalkOne(Entries(word), a, a + MapBytes(es), es[0], es[1..]);
      assert es == [es[0]] + es[1..];
    }
  }

  /** After boot with a map of representable entries in memory, a frame is free exactly when it lies wholly inside an
      available entry and touches neither the first MiB, nor the kernel, nor the boot information, nor the map. */
  lemma BootFrees(b: BootInfo, word: nat -> nat, es: seq<MapEntry>, f: nat)
    requires LaidOut(word, b.mapAddr, es) && b.mapLength == MapBytes(es) && b.kernelStart < U32
    requires b.mapAddr + b.mapLength <= 0xFFFF_F000 && b.kernelEnd <= 0xFFFF_F000 && b.info + 52 <= 0xFFFF_F000
    requires forall e :: e in es ==> WellTyped(e) && Representable(e)
    ensures BootOk(b, Entries(word))
    ensures f in FreeAtBoot(b, Entries(word)) <==>
              && f < 0x10_0000 && (exists e :: e in es && LiesIn(f, e))
              && !Touches(f, 0, 0x10_0000) && !Touches(f, b.kernelStart, b.kernelEnd)
              && !Touches(f, b.info, b.info + 52) && !Touches(f, b.mapAddr, b.mapAddr + b.mapLength)
  {
    hide Entries, LaidOut;
    MapReadsBack(word, b.mapAddr, es);
    FreeAtBootExact(b, Entries(word), f);
  }
}
