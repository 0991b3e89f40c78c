/**
 * The bootloader's reading of the kernel's ELF header: where the header
 * sits, the load address taken from a program header, the image size taken
 * from the section-header table, and the entry point. Field names and
 * widths are those of the ELF64 file header and program header of the
 * System V gABI; pointer sums wrap at 2^64.
 */
module ElfLoader {

  const TWO_64: nat := 0x1_0000_0000_0000_0000

  type U64 = x: nat | x < TWO_64
  type U16 = x: nat | x < 0x1_0000

  /** a + b as a 64-bit unsigned sum. */
  function Add64(a: U64, b: nat): U64 {
    (a + b) % TWO_64
  }

  /** The ELF64 file-header fields the bootloader reads. */
  datatype ElfHeader = ElfHeader(entry: U64, phoff: U64, shoff: U64,
                                 phentsize: U16, shentsize: U16, shnum: U16)

  /** Memory seen through the two structures the bootloader reads: the ELF
      file header a pointer to address a would see, and the p_vaddr field
      of the program header at address a. */
  datatype Memory = Memory(headerAt: U64 -> ElfHeader, vaddrAt: U64 -> U64)

  /** Which kernel image the bootloader is after. */
  datatype KernelKind = NORMAL | RECOVERY

  /** Where the recovery kernel's image sits in memory. */
  const RECOVERY_BASE: U64 := 0x8450_0000

  /** Where find_kernel_load_addr reads the header: RAMDISK for the normal
      kernel, RECOVERY_BASE for any other. */
  function HeaderBase(ktype: KernelKind, ramdisk: U64): (a: U64)
    ensures ktype == NORMAL ==> a == ramdisk
    ensures ktype != NORMAL ==> a == RECOVERY_BASE
  {
    if ktype == NORMAL then ramdisk else RECOVERY_BASE
  }

  /** The j-th entry of the program-header table of the image at base:
      e_phoff bytes in, then e_phentsize bytes per entry. */
  function ProgramHeaderAddr(m: Memory, base: U64, j: nat): U64 {
    var h := m.headerAt(base);
    Add64(base, h.phoff + j * h.phentsize)
  }

  /** find_kernel_size's value for a header: the end of the section-header
      table, e_shoff + e_shentsize * e_shnum, as a 64-bit unsigned sum. */
  function ImageSize(h: ElfHeader): U64 {
    Add64(h.shoff, h.shentsize * h.shnum)
  }

  // ------------------------------------------------------------- lemmas

  lemma AddTwice(a: U64, b: nat, c: nat)
    ensures Add64(Add64(a, b), c) == Add64(a, b + c)
  {
    var q := (a + b) / TWO_64;
    assert a + b == q * TWO_64 + Add64(a, b);
    assert Add64(a, b) + c == (a + b + c) - q * TWO_64;
  }

  /** The load address comes from the second program header: its entry sits
      e_phentsize bytes after the first, which is a different place whenever
      entries have a size. */
  lemma SecondNotFirst(m: Memory, base: U64)
    requires m.headerAt(base).phentsize > 0
    ensures ProgramHeaderAddr(m, base, 1) == Add64(ProgramHeaderAddr(m, base, 0), m.headerAt(base).phentsize)
    ensures ProgramHeaderAddr(m, base, 1) != ProgramHeaderAddr(m, base, 0)
  {
    var h := m.headerAt(base);
    AddTwice(base, h.phoff, h.phentsize);
  }

  /** The section-header table ends exactly at the image size: when the sum
      does not wrap, each of the e_shnum entries lies below the size and the
      last one ends at it. */
  lemma SizeCoversSections(h: ElfHeader, j: nat)
    requires h.shoff + h.shentsize * h.shnum < TWO_64
    requires j < h.shnum
    ensures ImageSize(h) == h.shoff + h.shnum * h.shentsize
    ensures h.shoff + (j + 1) * h.shentsize <= ImageSize(h)
  {
    TableEnd(h.shoff, h.shentsize, h.shnum, j);
  }

  lemma TableEnd(o: nat, e: nat, k: nat, j: nat)
    requires o + e * k < TWO_64 && j < k
    ensures (o + e * k) % TWO_64 == o + k * e
    ensures o + (j + 1) * e <= (o + e * k) % TWO_64
  {
    MulLe(j + 1, k, e);
  }

  lemma {:induction false} MulLe(a: nat, b: nat, e: nat)
    requires a <= b
    ensures a * e <= b * e && e * b == b * e
  {
    if a < b {
      MulLe(a, b - 1, e);
    }
  }

  // ------------------------------------------------------------- loader

  /** The bootloader's globals: kernel_elfhdr and kernel_phdr, NULL until
      find_kernel_load_addr sets them; ramdisk stands for RAMDISK. */
  class Loader {
    var elfhdr: U64
    var phdr: U64
    const ramdisk: U64

    constructor (ramdisk: U64)
      ensures elfhdr == 0 && phdr == 0 && this.ramdisk == ramdisk
    {
      elfhdr := 0;
      phdr := 0;
      this.ramdisk := ramdisk;
    }

    /** find_kernel_load_addr: select the header of the kernel kind and
        return p_vaddr of its second program header. */
    method FindKernelLoadAddr(m: Memory, ktype: KernelKind) returns (r: U64)
      modifies this
      ensures elfhdr == HeaderBase(ktype, ramdisk)
      ensures phdr == ProgramHeaderAddr(m, elfhdr, 1)
      ensures r == m.vaddrAt(phdr)
    {
      var addrDisk: U64;
      if ktype == NORMAL {
        addrDisk := ramdisk;
      } else {
        addrDisk := RECOVERY_BASE;
      }
      elfhdr := addrDisk;
      var h := m.headerAt(elfhdr);
      phdr := Add64(addrDisk, h.phoff);
      phdr := Add64(phdr, h.phentsize);
      AddTwice(addrDisk, h.phoff, h.phentsize);
      r := m.vaddrAt(phdr);
    }

    /** find_kernel_size: read from whichever header was selected last;
        ktype plays no part. */
    function FindKernelSize(m: Memory, ktype: KernelKind): (size: U64)
      reads this
    {
      ImageSize(m.headerAt(elfhdr))
    }

    /** find_kernel_entry_addr: e_entry of the selected header; ktype plays
        no part. */
    function FindKernelEntryAddr(m: Memory, ktype: KernelKind): (entry: U64)
      reads this
    {
      m.headerAt(elfhdr).entry
    }
  }

  /** Size and entry come from the header the last load-address lookup
      chose, whatever kind they are asked about: after looking up the
      recovery kernel they describe the image at RECOVERY_BASE even when
      asked about the normal one. */
  method SizeFollowsLastLookup(l: Loader, m: Memory, first: KernelKind, asked: KernelKind)
    returns (size: U64, entry: U64)
    modifies l
    ensures size == ImageSize(m.headerAt(HeaderBase(first, l.ramdisk)))
    ensures entry == m.headerAt(HeaderBase(first, l.ramdisk)).entry
  {
    var _ := l.FindKernelLoadAddr(m, first);
    size := l.FindKernelSize(m, asked);
    entry := l.FindKernelEntryAddr(m, asked);
  }
}
