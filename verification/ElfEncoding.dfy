/** ELF headers as the tools that make executables write them, field after field: what the loader reads back from them. */
module ElfEncoding {
  import opened Base
  import opened Elf
  import opened ElfLoader
  import opened Arguments

  function Bytes16(h: nat): (b: seq<nat>)
    requires h < 0x1_0000
    ensures |b| == 2 && b[0] < 256 && b[1] < 256 && b[0] + 0x100 * b[1] == h
  {
    [h % 0x100, h / 0x100]
  }

  function HalfBytes(hs: seq<nat>): (b: seq<nat>)
    requires Halves(hs)
    ensures |b| == 2 * |hs|
  {
    if hs == [] then [] else Bytes16(hs[0]) + HalfBytes(hs[1..])
  }

  predicate Halves(hs: seq<nat>) {
    forall k :: 0 <= k < |hs| ==> hs[k] < 0x1_0000
  }

  /** The image holds these bytes at the offset. */
  ghost predicate Holds(img: Image, o: nat, data: seq<nat>) {
    o + |data| <= |img| && img[o..o + |data|] == data
  }

  lemma HoldsPart(img: Image, o: nat, a: seq<nat>, b: seq<nat>)
    requires Holds(img, o, a + b)
    ensures Holds(img, o, a) && Holds(img, o + |a|, b)
  {
    assert img[o..o + |a|] == (a + b)[..|a|] == a;
    assert img[o + |a|..o + |a| + |b|] == (a + b)[|a|..] == b;
  }

  lemma {:induction false} WordRead(img: Image, o: nat, ws: seq<int>, k: nat)
    requires Words(ws) && k < |ws| && Holds(img, o, WordBytes(ws))
    ensures o + 4 * k + 4 <= |img| && Le32(img, o + 4 * k) == ws[k]
  {
    var d := WordBytes(ws);
    WordBytesAt(ws, k);
    assert forall j :: 0 <= j < 4 ==> Bytes32(ws[k])[j] == d[4 * k + j] == img[o + 4 * k + j] by {
      forall j | 0 <= j < 4 ensures Bytes32(ws[k])[j] == d[4 * k + j] == img[o + 4 * k + j] {
        assert d[4 * k..4 * k + 4][j] == d[4 * k + j] && img[o..o + |d|][4 * k + j] == img[o + 4 * k + j];
      }
    }
  }

  lemma {:induction false} HalfRead(img: Image, o: nat, hs: seq<nat>, k: nat)
    requires Halves(hs) && k < |hs| && Holds(img, o, HalfBytes(hs))
    ensures o + 2 * k + 2 <= |img| && Le16(img, o + 2 * k) == hs[k]
    decreases k
  {
    HoldsPart(img, o, Bytes16(hs[0]), HalfBytes(hs[1..]));
    if k == 0 {
      assert img[o..o + 2][0] == img[o] && img[o..o + 2][1] == img[o + 1];
    } else {
      HalfRead(img, o + 2, hs[1..], k - 1);
    }
  }

  // ------------------------------------------------ program headers

  /** `elf32_phdr`: eight words in this order. */
  datatype ProgramHeader = ProgramHeader(
    kind: nat, offset: nat, vaddr: nat, paddr: nat, filesz: nat, memsz: nat, flags: nat, align: nat)
  {
    function Fields(): seq<int> { [kind, offset, vaddr, paddr, filesz, memsz, flags, align] }
  }

  /** For every image that holds a program header in its place in the table, that header is what the loader reads. */
  lemma PhdrReadsBack(img: Image, i: nat, h: ProgramHeader)
    requires |img| >= 52 && Words(h.Fields()) && Holds(img, PhOff(img) + 32 * i, WordBytes(h.Fields()))
    ensures PhOff(img) + 32 * (i + 1) <= |img|
    ensures PhdrAt(img, i) == Phdr(h.kind, h.offset, h.vaddr, h.filesz, h.memsz)
  {
    hide WordBytes, Holds;
    var o := PhOff(img) + 32 * i;
    WordRead(img, o, h.Fields(), 0);
    WordRead(img, o, h.Fields(), 1);
    WordRead(img, o, h.Fields(), 2);
    WordRead(img, o, h.Fields(), 4);
    WordRead(img, o, h.Fields(), 5);
    WordRead(img, o, h.Fields(), 7);
  }

  // ------------------------------------------------ the file header

  /** `elf32_ehdr`: sixteen bytes of identification, then halves and words in this order. */
  datatype FileHeader = FileHeader(
    ident: seq<nat>, kind: nat, machine: nat, version: nat, entry: nat, phoff: nat, shoff: nat, flags: nat,
    ehsize: nat, phentsize: nat, phnum: nat, shentsize: nat, shnum: nat, shstrndx: nat)
  {
    function Start(): seq<nat> { [kind, machine] }
    function Middle(): seq<int> { [version, entry, phoff, shoff, flags] }
    function End(): seq<nat> { [ehsize, phentsize, phnum, shentsize, shnum, shstrndx] }
    predicate Typed() { |ident| == 16 && Halves(Start()) && Words(Middle()) && Halves(End()) }
  }

  function HeaderBytes(h: FileHeader): (b: seq<nat>)
    requires h.Typed()
    ensures |b| == 52
  {
    h.ident + (HalfBytes(h.Start()) + (WordBytes(h.Middle()) + HalfBytes(h.End())))
  }

  /** For every image that starts with a file header, that header is what the loader reads. */
  lemma HeaderReadsBack(img: Image, h: FileHeader)
    requires h.Typed() && Holds(img, 0, HeaderBytes(h))
    ensures |img| >= 52 && img[..16] == h.ident
    ensures Entry32(img) == h.entry && PhOff(img) == h.phoff && PhNum(img) == h.phnum
    ensures Le16(img, 16) == h.kind && Le16(img, 18) == h.machine && Le32(img, 20) == h.version
    ensures Le16(img, 40) == h.ehsize && Le16(img, 42) == h.phentsize
  {
    hide WordBytes, HalfBytes, Holds;
    assert |img| >= 52 by { HoldsInside(img, 0, HeaderBytes(h)); }
    HoldsPart(img, 0, h.ident, HalfBytes(h.Start()) + (WordBytes(h.Middle()) + HalfBytes(h.End())));
    HoldsInside(img, 0, h.ident);
    HoldsPart(img, 16, HalfBytes(h.Start()), WordBytes(h.Middle()) + HalfBytes(h.End()));
    HoldsPart(img, 20, WordBytes(h.Middle()), HalfBytes(h.End()));
    HalfRead(img, 16, h.Start(), 0);
    HalfRead(img, 16, h.Start(), 1);
    WordRead(img, 20, h.Middle(), 0);
    WordRead(img, 20, h.Middle(), 1);
    WordRead(img, 20, h.Middle(), 2);
    HalfRead(img, 40, h.End(), 0);
    HalfRead(img, 40, h.End(), 1);
    HalfRead(img, 40, h.End(), 2);
  }

  lemma HoldsInside(img: Image, o: nat, data: seq<nat>)
    requires Holds(img, o, data)
    ensures o + |data| <= |img| && img[o..o + |data|] == data
  {
  }

  // ------------------------------------------------ which executables are accepted

  /** An image that starts with the file header and has these program headers where it says. */
  ghost predicate Encodes(img: Image, h: FileHeader, phs: seq<ProgramHeader>) {
    && h.Typed() && Holds(img, 0, HeaderBytes(h)) && |phs| == h.phnum
    && forall i: nat :: i < |phs| ==> Words(phs[i].Fields()) && Holds(img, h.phoff + 32 * i, WordBytes(phs[i].Fields()))
  }

  /** A 32-bit little-endian executable for the 80386 with program headers of the right size. */
  predicate Executable(h: FileHeader)
    requires |h.ident| == 16
  {
    && h.ident[..7] == [0x7F, 'E' as nat, 'L' as nat, 'F' as nat, 1, 1, 1]
    && h.kind == 2 && h.machine == 3 && h.version == 1 && h.ehsize == 52 && h.phentsize == 32
    && h.phoff > 0 && h.phnum > 0
  }

  /** A loadable segment inside the file, inside user memory and at most a megabyte, that starts on a page. */
  predicate Loadable(h: ProgramHeader, size: nat) {
    && 0 < h.memsz <= 0x10_0000 && h.filesz <= h.memsz && h.offset + h.filesz <= size
    && 0x0100_0000 <= h.vaddr && h.vaddr + h.memsz <= 0xC000_0000 && h.vaddr % 4096 == 0
  }

  lemma TableInside(img: Image, h: FileHeader, phs: seq<ProgramHeader>)
    requires Encodes(img, h, phs) && h.phnum > 0
    ensures h.phoff + 32 * h.phnum <= |img|
  {
    var i := |phs| - 1;
    HoldsInside(img, h.phoff + 32 * i, WordBytes(phs[i].Fields()));
  }

  lemma AcceptsHeader(img: Image, h: FileHeader, phs: seq<ProgramHeader>)
    requires Encodes(img, h, phs)
    ensures HeaderOk(img) <==> Executable(h)
  {
    HeaderReadsBack(img, h);
    if h.phnum > 0 { TableInside(img, h, phs); }
    assert img[..4] == img[..16][..4] == h.ident[..4] && img[4..7] == img[..16][4..7] == h.ident[4..7];
    assert h.ident[..7] == h.ident[..4] + h.ident[4..7];
  }

  /** The loader takes exactly the executables with a segment to load all of whose segments can be: stated on the
      headers as they were written, for every image that holds them. */
  lemma AcceptsIff(img: Image, h: FileHeader, phs: seq<ProgramHeader>)
    requires Encodes(img, h, phs)
    ensures ImageOk(img) <==>
              && Executable(h) && (exists k :: 0 <= k < |phs| && phs[k].kind == 1)
              && forall k :: 0 <= k < |phs| && phs[k].kind == 1 ==> Loadable(phs[k], |img|)
  {
    hide HeaderBytes, WordBytes, Holds, HeaderOk, Executable;
    AcceptsHeader(img, h, phs);
    HeaderReadsBack(img, h);
    if Executable(h) {
      forall k: nat | k < |phs|
        ensures PhOff(img) + 32 * (k + 1) <= |img|
        ensures PhdrAt(img, k) == Phdr(phs[k].kind, phs[k].offset, phs[k].vaddr, phs[k].filesz, phs[k].memsz)
      {
        PhdrReadsBack(img, k, phs[k]);
      }
      if exists k :: 0 <= k < |phs| && phs[k].kind == 1 {
        var k :| 0 <= k < |phs| && phs[k].kind == 1;
        assert PhdrAt(img, k).kind == PT_LOAD;
      }
    }
  }
}
