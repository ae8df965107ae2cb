/** 32-bit ELF executables: which images are accepted, and what loading one leaves in a process's memory. */
module Elf {
  import opened Base
  import opened Frames
  import opened Paging
  import opened AddressSpaces
  import opened UserMemory

  const ERR_INVALID: int := -1
  const ERR_UNSUPPORTED: int := -2
  const ERR_TOO_LARGE: int := -3
  const ERR_LOAD_FAILED: int := -4

  const EHDR_BYTES: nat := 52
  const PHDR_BYTES: nat := 32
  const MAX_IMAGE: nat := 0x10_0000
  const USER_BASE: nat := 0x0100_0000
  const USER_TOP: nat := 0xC000_0000
  const STACK_TOP: nat := 0x7000_0000
  const STACK_BYTES: nat := 4096

  const PT_LOAD: nat := 1

  type Image = seq<nat>

  ghost predicate IsImage(img: Image) {
    |img| < U32 && forall b :: b in img ==> b < 256
  }

  // ------------------------------------------------ fields, little-endian

  function Le16(img: Image, o: nat): nat
    requires o + 2 <= |img|
  {
    img[o] + 0x100 * img[o + 1]
  }

  function Le32(img: Image, o: nat): nat
    requires o + 4 <= |img|
  {
    img[o] + 0x100 * img[o + 1] + 0x1_0000 * img[o + 2] + 0x100_0000 * img[o + 3]
  }

  lemma FieldBounds(img: Image, o: nat)
    requires IsImage(img)
    ensures o + 2 <= |img| ==> Le16(img, o) < 0x1_0000
    ensures o + 4 <= |img| ==> Le32(img, o) < U32
  {
    assert forall i :: 0 <= i < |img| ==> img[i] in img;
  }

  datatype Phdr = Phdr(kind: nat, offset: nat, vaddr: nat, filesz: nat, memsz: nat)

  function PhOff(img: Image): nat requires |img| >= EHDR_BYTES { Le32(img, 28) }
  function PhNum(img: Image): nat requires |img| >= EHDR_BYTES { Le16(img, 44) }
  function Entry32(img: Image): nat requires |img| >= EHDR_BYTES { Le32(img, 24) }

  /** The i-th program header. */
  function PhdrAt(img: Image, i: nat): Phdr
    requires |img| >= EHDR_BYTES && PhOff(img) + PHDR_BYTES * (i + 1) <= |img|
  {
    var o := PhOff(img) + PHDR_BYTES * i;
    Phdr(Le32(img, o), Le32(img, o + 4), Le32(img, o + 8), Le32(img, o + 16), Le32(img, o + 20))
  }

  // ------------------------------------------------ validation

  /** `range_overflows`, on 32-bit values. */
  predicate RangeOverflows(start: nat, size: nat) {
    (start + size) % U32 < start
  }

  lemma RangeOverflowsIff(start: nat, size: nat)
    requires start < U32 && size < U32
    ensures RangeOverflows(start, size) <==> start + size >= U32
  {
  }

  /** `validate_elf_header` */
  function ValidateHeader(img: Image): int {
    if |img| < EHDR_BYTES then ERR_INVALID
    else if img[0] != 0x7F || img[1] != 0x45 || img[2] != 0x4C || img[3] != 0x46 then ERR_INVALID
    else if img[4] != 1 then ERR_UNSUPPORTED
    else if img[5] != 1 then ERR_UNSUPPORTED
    else if img[6] != 1 then ERR_UNSUPPORTED
    else if Le16(img, 16) != 2 then ERR_UNSUPPORTED
    else if Le16(img, 18) != 3 then ERR_UNSUPPORTED
    else if Le32(img, 20) != 1 then ERR_UNSUPPORTED
    else if Le16(img, 40) != EHDR_BYTES then ERR_INVALID
    else if PhOff(img) == 0 || PhNum(img) == 0 then ERR_INVALID
    else if Le16(img, 42) != PHDR_BYTES then ERR_INVALID
    else if RangeOverflows(PhOff(img), PhNum(img) * PHDR_BYTES) then ERR_INVALID
    else if (PhOff(img) + PhNum(img) * PHDR_BYTES) % U32 > |img| then ERR_INVALID
    else OK
  }

  ghost predicate IsElf(img: Image) {
    |img| >= 52 && img[..4] == [0x7F, 0x45, 0x4C, 0x46]
  }

  ghost predicate IsExecutable386(img: Image)
    requires |img| >= 52
  {
    img[4..7] == [1, 1, 1] && Le16(img, 16) == 2 && Le16(img, 18) == 3 && Le32(img, 20) == 1
  }

  /** A little-endian 32-bit executable for the 80386 whose program headers all lie inside the image. */
  ghost predicate HeaderOk(img: Image) {
    && IsElf(img) && IsExecutable386(img)
    && Le16(img, 40) == 52 && Le16(img, 42) == 32
    && PhOff(img) > 0 && PhNum(img) > 0 && PhOff(img) + 32 * PhNum(img) <= |img|
  }

  /** The header check accepts exactly the well-formed headers; none passes by wrapping around in 32 bits. */
  lemma HeaderOkIff(img: Image)
    requires IsImage(img)
    ensures ValidateHeader(img) == OK <==> HeaderOk(img)
    ensures ValidateHeader(img) == ERR_UNSUPPORTED <==> IsElf(img) && !IsExecutable386(img)
    ensures ValidateHeader(img) in {OK, ERR_INVALID, ERR_UNSUPPORTED}
  {
    if |img| >= EHDR_BYTES {
      FieldBounds(img, 28);
      FieldBounds(img, 44);
      RangeOverflowsIff(PhOff(img), PhNum(img) * PHDR_BYTES);
      assert img[..4] == [img[0], img[1], img[2], img[3]] && img[4..7] == [img[4], img[5], img[6]];
    }
  }

  /** `validate_load_segment` */
  function ValidateSegment(ph: Phdr, size: nat): int {
    if ph.kind != PT_LOAD then OK
    else if ph.memsz == 0 then ERR_INVALID
    else if ph.filesz > ph.memsz then ERR_INVALID
    else if RangeOverflows(ph.offset, ph.filesz) then ERR_INVALID
    else if (ph.offset + ph.filesz) % U32 > size then ERR_INVALID
    else if RangeOverflows(ph.vaddr, ph.memsz) then ERR_INVALID
    else if ph.memsz > MAX_IMAGE then ERR_TOO_LARGE
    else if ph.vaddr < USER_BASE || ph.vaddr >= USER_TOP then ERR_INVALID
    else if (ph.vaddr + ph.memsz) % U32 > USER_TOP then ERR_INVALID
    else if ph.vaddr % PAGE != 0 then ERR_UNSUPPORTED
    else OK
  }

  /** A segment that fits in the image, in user memory and in one megabyte, and starts on a page. */
  predicate LoadOk(ph: Phdr, size: nat) {
    && 0 < ph.memsz <= 0x10_0000 && ph.filesz <= ph.memsz && ph.offset + ph.filesz <= size
    && 0x0100_0000 <= ph.vaddr && ph.vaddr + ph.memsz <= 0xC000_0000 && ph.vaddr % 4096 == 0
  }

  lemma SegmentOkIff(ph: Phdr, size: nat)
    requires ph.offset < U32 && ph.vaddr < U32 && ph.filesz < U32 && ph.memsz < U32 && size < U32
    ensures ValidateSegment(ph, size) == OK <==> ph.kind != 1 || LoadOk(ph, size)
    ensures ValidateSegment(ph, size) == ERR_UNSUPPORTED <==>
              ph.kind == 1 && ph.vaddr % 4096 != 0 && LoadOk(ph.(vaddr := ph.vaddr / 4096 * 4096), size)
              && ph.vaddr + ph.memsz <= 0xC000_0000
    ensures ValidateSegment(ph, size) == ERR_TOO_LARGE <==>
              ph.kind == 1 && ph.memsz > 0x10_0000 && ph.filesz <= ph.memsz && ph.offset + ph.filesz <= size
              && ph.vaddr + ph.memsz < U32
    ensures ValidateSegment(ph, size) in {OK, ERR_INVALID, ERR_UNSUPPORTED, ERR_TOO_LARGE}
  {
    RangeOverflowsIff(ph.offset, ph.filesz);
    RangeOverflowsIff(ph.vaddr, ph.memsz);
  }
}
