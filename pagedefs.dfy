/**
 * The i386 page geometry of `asm-i386/page.h`: 4 KB pages and the kernel's
 * direct map of physical memory at `PAGE_OFFSET`.
 */
module PageDefs {
  import opened Words

  const PAGE_SHIFT: nat := 12
  const PAGE_SIZE: nat := 4096
  const PAGE_OFFSET: nat := 0xC000_0000
  /** The physical memory the direct map reaches: `2^32 - PAGE_OFFSET`. */
  const DIRECT_MAP_SIZE: nat := 0x4000_0000

  /** `__va`: the kernel virtual address of a physical address. */
  function Va(pa: nat): nat {
    U32(pa + PAGE_OFFSET)
  }

  /** `__pa`: the physical address of a kernel virtual address. */
  function Pa(v: nat): nat {
    U32(v - PAGE_OFFSET)
  }

  /** Below `DIRECT_MAP_SIZE`, `__pa` undoes `__va`. */
  lemma PaVa(pa: nat)
    requires pa < DIRECT_MAP_SIZE
    ensures Va(pa) == pa + PAGE_OFFSET && Pa(Va(pa)) == pa
  {
  }
}
