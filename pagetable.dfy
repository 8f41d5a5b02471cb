/**
 * Construction of the kernel's page tables in `arch/i386/mm/init.c`, with
 * two-level i386 paging: the page directory `swapper_pg_dir` is also the
 * page middle directory, each directory slot covers 4 MB and points at a page
 * table of 1024 entries, one per 4 KB page.
 *
 * `pagetable_init` maps the kernel's direct-mapped region, slot by slot from
 * `PAGE_OFFSET` up to `end`, and `fixrange_init` gives the fixed-mapping
 * area an (empty) page table. Page tables come from the boot allocator's low
 * pages: here a pool of pages handed out in order, each a row of `tables`.
 * Entries are 32-bit words held as `nat`s.
 */
module PageTable {
  import opened Words
  import opened PageDefs

  const PGDIR_SHIFT: nat := 22
  const PGDIR_SIZE: nat := 0x40_0000
  /** Two-level paging: the middle directory folds into the directory. */
  const PMD_SIZE: nat := 0x40_0000
  const PTRS_PER_PGD: nat := 1024
  const PTRS_PER_PMD: nat := 1
  const PTRS_PER_PTE: nat := 1024
  /** `__pgd_offset(PAGE_OFFSET)`, the first kernel slot. */
  const KERNEL_SLOT: nat := 768
  /** `_KERNPG_TABLE`: present, writable, accessed, dirty. */
  const KERNPG_TABLE: nat := 0x063
  /** `PAGE_KERNEL`: the same bits for a kernel page. */
  const PAGE_KERNEL: nat := 0x063
  const FIXADDR_TOP: nat := 0xffff_e000
  /** `__end_of_fixed_addresses`: no fixed mapping is configured. */
  const END_OF_FIXED_ADDRESSES: int := 0

  /** `__pgd_offset`: the directory slot of an address. */
  function PgdOffset(v: nat): nat {
    v / PGDIR_SIZE
  }

  /** `v & PMD_MASK`: the start of the 4 MB region holding `v`. */
  function PmdAlign(v: nat): nat {
    v / PMD_SIZE * PMD_SIZE
  }

  /** `__fix_to_virt`, in `unsigned long` arithmetic. */
  function FixToVirt(x: int): nat {
    U32(FIXADDR_TOP - x * PAGE_SIZE)
  }

  /**
   * `__mk_pte`: the frame number shifted into place, or-ed with the
   * protection bits; with `prot` below a page the low twelve bits of the
   * shifted frame are clear, so the `|` is a sum.
   */
  function MkPte(pageNr: nat, prot: nat): nat {
    U32(pageNr * PAGE_SIZE) + prot
  }

  /** The physical frame address an entry points at. */
  function EntryFrame(e: nat): nat {
    e / PAGE_SIZE * PAGE_SIZE
  }

  /** The protection bits of an entry. */
  function EntryFlags(e: nat): nat {
    e % PAGE_SIZE
  }

  /** `pmd_none`: the slot holds no table. */
  predicate PmdNone(e: nat) {
    e == 0
  }

  /** `pte_offset(pmd, 0)`: the kernel address of the table a slot points at. */
  function PteOffset(e: nat): nat {
    Va(EntryFrame(e))
  }

  /** `mk_pte_phys(__pa(v), PAGE_KERNEL)`: the entry the direct map gives `v`. */
  function KernelPte(v: nat): nat {
    MkPte(Pa(v) / PAGE_SIZE, PAGE_KERNEL)
  }

  /** `end` bounds the walk unless it is 0. */
  predicate Mapped(end: nat, v: nat) {
    end == 0 || v < end
  }

  /** The address of entry `k` of the table in slot `s`. */
  function PteAddr(s: nat, k: nat): nat {
    s * PGDIR_SIZE + k * PAGE_SIZE
  }

  /** The end of the direct map for `max_low_pfn`, as `pagetable_init` computes it. */
  function End(maxLowPfn: nat): nat {
    Va(U32(maxLowPfn * PAGE_SIZE))
  }

  /** What `pagetable_init` leaves in entry `k` of the table of slot `s`. */
  function LinearPte(end: nat, s: nat, k: nat): nat {
    if Mapped(end, PteAddr(s, k)) then KernelPte(PteAddr(s, k)) else 0
  }

  /** The number of directory slots the direct map up to `end` takes. */
  function KernelTables(end: nat): (r: nat)
    ensures r <= PTRS_PER_PGD - KERNEL_SLOT
  {
    if end == 0 then PTRS_PER_PGD - KERNEL_SLOT
    else if end <= PAGE_OFFSET then 0
    else if CeilDiv(end - PAGE_OFFSET, PGDIR_SIZE) >= PTRS_PER_PGD - KERNEL_SLOT then PTRS_PER_PGD - KERNEL_SLOT
    else CeilDiv(end - PAGE_OFFSET, PGDIR_SIZE)
  }

  /**
   * A kernel page entry maps the page-aligned kernel address `v` to the
   * physical address `v - PAGE_OFFSET`, with the `PAGE_KERNEL` bits.
   */
  lemma KernelPteMaps(v: nat)
    requires PAGE_OFFSET <= v < TWO32 && v % PAGE_SIZE == 0
    ensures EntryFrame(KernelPte(v)) == v - PAGE_OFFSET
    ensures EntryFlags(KernelPte(v)) == PAGE_KERNEL
  {
    var pa := v - PAGE_OFFSET;
    var nr := pa / PAGE_SIZE;
    DivModUnique(v, PAGE_SIZE, v / PAGE_SIZE, 0);
    DivModUnique(pa, PAGE_SIZE, v / PAGE_SIZE - PAGE_OFFSET / PAGE_SIZE, 0);
    assert nr * PAGE_SIZE == pa;
    DivModUnique(pa + PAGE_KERNEL, PAGE_SIZE, nr, PAGE_KERNEL);
  }

  /**
   * The `BUG()` after installing a table cannot fire: `pte_offset` finds the
   * table back from the directory entry `_KERNPG_TABLE + __pa(pte)`.
   */
  lemma TableFoundBack(pa: nat)
    requires pa % PAGE_SIZE == 0 && pa < DIRECT_MAP_SIZE
    ensures Pa(Va(pa)) == pa
    ensures PteOffset(KERNPG_TABLE + Pa(Va(pa))) == Va(pa)
    ensures EntryFlags(KERNPG_TABLE + pa) == KERNPG_TABLE && !PmdNone(KERNPG_TABLE + pa)
  {
    DivModUnique(pa, PAGE_SIZE, pa / PAGE_SIZE, 0);
    DivModUnique(pa + KERNPG_TABLE, PAGE_SIZE, pa / PAGE_SIZE, KERNPG_TABLE);
  }

  /**
   * Within the kernel's slots the walk's bound is a prefix: slot `s` is
   * mapped exactly when it is one of the first `KernelTables(end)`.
   */
  lemma MappedSlots(end: nat, s: nat)
    requires KERNEL_SLOT <= s < PTRS_PER_PGD
    ensures Mapped(end, s * PGDIR_SIZE) <==> s < KERNEL_SLOT + KernelTables(end)
  {
    if end != 0 && end > PAGE_OFFSET {
      var c := CeilDiv(end - PAGE_OFFSET, PGDIR_SIZE);
      assert s * PGDIR_SIZE == PAGE_OFFSET + (s - KERNEL_SLOT) * PGDIR_SIZE;
      if s - KERNEL_SLOT < c {
        assert (s - KERNEL_SLOT) * PGDIR_SIZE <= (c - 1) * PGDIR_SIZE;
      } else {
        assert (s - KERNEL_SLOT) * PGDIR_SIZE >= c * PGDIR_SIZE;
      }
    }
  }

  /**
   * With at most 1 GB of low memory, an address of kernel space is mapped
   * exactly when its physical address lies below `max_low_pfn` frames; at
   * 1 GB `end` wraps to 0 and all of kernel space is mapped.
   */
  lemma MappedIffLowMemory(maxLowPfn: nat, v: nat)
    requires maxLowPfn * PAGE_SIZE <= DIRECT_MAP_SIZE
    requires PAGE_OFFSET <= v < TWO32
    ensures Mapped(End(maxLowPfn), v) <==> v - PAGE_OFFSET < maxLowPfn * PAGE_SIZE
  {
  }

  /** The directory slot of the fixed-mapping area: the last one. */
  lemma FixmapSlot()
    ensures PmdAlign(FixToVirt(END_OF_FIXED_ADDRESSES - 1)) == 0xffc0_0000
    ensures PgdOffset(0xffc0_0000) == PTRS_PER_PGD - 1
  {
  }

  /** Entries of `e` in `[lo, hi)` that hold no table. */
  function Empties(e: seq<nat>, lo: nat, hi: nat): nat
    requires hi <= |e|
    decreases hi
  {
    if hi <= lo then 0 else Empties(e, lo, hi - 1) + (if PmdNone(e[hi - 1]) then 1 else 0)
  }

  /**
   * The slot where `fixrange_init`'s walk stops: the first slot, from `i`
   * on, reached with `vaddr == end`, or the end of the directory.
   */
  function FixStop(i: nat, vaddr: nat, end: nat): (r: nat)
    ensures i <= PTRS_PER_PGD ==> i <= r <= PTRS_PER_PGD
    ensures i >= PTRS_PER_PGD ==> r == i
    decreases PTRS_PER_PGD - i
  {
    if i >= PTRS_PER_PGD || vaddr == end then i else FixStop(i + 1, U32(vaddr + PMD_SIZE), end)
  }

  /** The fixed-mapping walk visits the last slot, then `vaddr` wraps to 0. */
  lemma FixmapWalk()
    ensures FixStop(PTRS_PER_PGD - 1, 0xffc0_0000, 0) == PTRS_PER_PGD
  {
    assert FixStop(PTRS_PER_PGD, 0, 0) == PTRS_PER_PGD;
  }

  /** The directory and the boot allocator's pool of low pages. */
  class PageTables {
    /** `swapper_pg_dir`. */
    const pgd: array<nat>
    /** The low pages handed out as page tables, row `p` being page `p`. */
    const tables: array2<nat>
    /** Physical address of pool page 0. */
    const poolPa: nat
    /** Pool pages already handed out. */
    var nextPage: nat

    ghost predicate Valid()
      reads this
    {
      pgd.Length == PTRS_PER_PGD && tables.Length1 == PTRS_PER_PTE &&
      poolPa % PAGE_SIZE == 0 && poolPa + tables.Length0 * PAGE_SIZE <= DIRECT_MAP_SIZE &&
      nextPage <= tables.Length0
    }

    constructor (pgd: array<nat>, tables: array2<nat>, poolPa: nat)
      requires pgd.Length == PTRS_PER_PGD && tables.Length1 == PTRS_PER_PTE
      requires poolPa % PAGE_SIZE == 0 && poolPa + tables.Length0 * PAGE_SIZE <= DIRECT_MAP_SIZE
      ensures Valid() && this.pgd == pgd && this.tables == tables && this.poolPa == poolPa
      ensures nextPage == 0
    {
      this.pgd := pgd;
      this.tables := tables;
      this.poolPa := poolPa;
      nextPage := 0;
    }

    /** The physical address of pool page `p`. */
    function PagePa(p: nat): nat {
      poolPa + p * PAGE_SIZE
    }

    /** The directory entry for the table on pool page `p`. */
    function TableEntry(p: nat): nat {
      KERNPG_TABLE + PagePa(p)
    }

    /**
     * `alloc_bootmem_low_pages(PAGE_SIZE)`: the next pool page, zero-filled;
     * returns its kernel address and its pool index.
     */
    method AllocLowPage() returns (pte: nat, p: nat)
      requires Valid() && nextPage < tables.Length0
      modifies tables, this`nextPage
      ensures Valid() && p == old(nextPage) && nextPage == p + 1
      ensures pte == Va(PagePa(p)) && KERNPG_TABLE + Pa(pte) == TableEntry(p)
      ensures PteOffset(TableEntry(p)) == pte && !PmdNone(TableEntry(p))
      ensures forall k :: 0 <= k < PTRS_PER_PTE ==> tables[p, k] == 0
      ensures forall q, k :: 0 <= q < tables.Length0 && q != p && 0 <= k < PTRS_PER_PTE ==>
        tables[q, k] == old(tables[q, k])
    {
      p := nextPage;
      nextPage := nextPage + 1;
      var k := 0;
      while k < PTRS_PER_PTE
        invariant k <= PTRS_PER_PTE && nextPage == p + 1
        invariant forall k' :: 0 <= k' < k ==> tables[p, k'] == 0
        invariant forall q, k' :: 0 <= q < tables.Length0 && q != p && 0 <= k' < PTRS_PER_PTE ==>
          tables[q, k'] == old(tables[q, k'])
      {
        tables[p, k] := 0;
        k := k + 1;
      }
      assert PagePa(p) % PAGE_SIZE == 0 by {
        DivModUnique(PagePa(p), PAGE_SIZE, poolPa / PAGE_SIZE + p, 0);
      }
      TableFoundBack(PagePa(p));
      pte := Va(PagePa(p));
    }

    /**
     * What `fixrange_init` from slot `i0` leaves in slot `s` of the directory
     * `e`, having handed out tables from pool page `p0` on.
     */
    function FixedEntry(e: seq<nat>, i0: nat, p0: nat, s: nat): nat
      requires i0 <= s < |e|
    {
      if PmdNone(e[s]) then TableEntry(p0 + Empties(e, i0, s)) else e[s]
    }

    /**
     * The step both walks share: allocate a page table, point slot `i` at
     * it with `set_pmd(pmd, __pmd(_KERNPG_TABLE + __pa(pte)))`, and check
     * that `pte_offset` finds it back, which it always does.
     */
    method InstallTable(i: nat) returns (p: nat)
      requires Valid() && i < PTRS_PER_PGD && nextPage < tables.Length0
      modifies pgd, tables, this`nextPage
      ensures Valid() && p == old(nextPage) && nextPage == p + 1
      ensures pgd[..] == old(pgd[..])[i := TableEntry(p)] && !PmdNone(TableEntry(p))
      ensures forall k :: 0 <= k < PTRS_PER_PTE ==> tables[p, k] == 0
      ensures forall q, k :: 0 <= q < tables.Length0 && q != p && 0 <= k < PTRS_PER_PTE ==>
        tables[q, k] == old(tables[q, k])
    {
      var pte;
      pte, p := AllocLowPage();
      pgd[i] := KERNPG_TABLE + Pa(pte);
      assert pte == PteOffset(pgd[i]);
    }

    /**
     * The innermost loop of `pagetable_init`: fill the table on page `p`,
     * the one of slot `i`, with direct-map entries up to `end`.
     */
    method FillTable(p: nat, i: nat, end: nat)
      requires Valid() && p < tables.Length0 && KERNEL_SLOT <= i < PTRS_PER_PGD
      modifies tables
      ensures forall k :: 0 <= k < PTRS_PER_PTE ==>
        tables[p, k] == if Mapped(end, PteAddr(i, k)) then KernelPte(PteAddr(i, k)) else old(tables[p, k])
      ensures forall q, k :: 0 <= q < tables.Length0 && q != p && 0 <= k < PTRS_PER_PTE ==>
        tables[q, k] == old(tables[q, k])
    {
      var k := 0;
      while k < PTRS_PER_PTE
        invariant k <= PTRS_PER_PTE
        invariant forall k' :: 0 <= k' < k ==>
          Mapped(end, PteAddr(i, k')) && tables[p, k'] == KernelPte(PteAddr(i, k'))
        invariant forall k' :: k <= k' < PTRS_PER_PTE ==> tables[p, k'] == old(tables[p, k'])
        invariant forall q, k' :: 0 <= q < tables.Length0 && q != p && 0 <= k' < PTRS_PER_PTE ==>
          tables[q, k'] == old(tables[q, k'])
      {
        var vaddr := i * PGDIR_SIZE + k * PAGE_SIZE;
        if end != 0 && vaddr >= end {
          break;
        }
        tables[p, k] := MkPte(Pa(vaddr) / PAGE_SIZE, PAGE_KERNEL);
        k := k + 1;
      }
    }

    /**
     * `fixrange_init(start, end, swapper_pg_dir)`: from the slot of `start`,
     * give every slot that holds no table a fresh zero-filled one, 4 MB at a
     * time, until `vaddr` reaches `end` or the directory ends. No page entry
     * is written and slots holding a table are left alone.
     */
    method FixrangeInit(start: nat, end: nat)
      requires Valid() && start < TWO32
      requires nextPage + Empties(pgd[..], PgdOffset(start), FixStop(PgdOffset(start), start, end)) <= tables.Length0
      modifies pgd, tables, this`nextPage
      ensures Valid()
      ensures nextPage == old(nextPage) + Empties(old(pgd[..]), PgdOffset(start), FixStop(PgdOffset(start), start, end))
      ensures forall s :: 0 <= s < PTRS_PER_PGD && !(PgdOffset(start) <= s < FixStop(PgdOffset(start), start, end)) ==>
        pgd[s] == old(pgd[s])
      ensures forall s :: PgdOffset(start) <= s < FixStop(PgdOffset(start), start, end) ==>
        pgd[s] == FixedEntry(old(pgd[..]), PgdOffset(start), old(nextPage), s)
      ensures forall q, k :: 0 <= q < tables.Length0 && 0 <= k < PTRS_PER_PTE ==>
        tables[q, k] == if old(nextPage) <= q < nextPage then 0 else old(tables[q, k])
    {
      var i0 := PgdOffset(start);
      ghost var e := pgd[..];
      ghost var stop := FixStop(i0, start, end);
      var vaddr: nat := start;
      var i := i0;
      while i < PTRS_PER_PGD && vaddr != end
        invariant i0 <= i <= stop && FixStop(i, vaddr, end) == stop
        invariant vaddr < TWO32
        invariant Valid() && nextPage == old(nextPage) + Empties(e, i0, i)
        invariant forall s :: 0 <= s < PTRS_PER_PGD && !(i0 <= s < i) ==> pgd[s] == e[s]
        invariant forall s :: i0 <= s < i ==> pgd[s] == FixedEntry(e, i0, old(nextPage), s)
        invariant forall q, k :: 0 <= q < tables.Length0 && 0 <= k < PTRS_PER_PTE ==>
          tables[q, k] == if old(nextPage) <= q < nextPage then 0 else old(tables[q, k])
      {
        // PTRS_PER_PMD is 1: the middle loop makes one pass over the slot itself.
        if PmdNone(pgd[i]) {
          assert Empties(e, i0, i + 1) == Empties(e, i0, i) + 1;
          EmptiesMonotone(e, i0, i + 1, stop);
          var p := InstallTable(i);
        } else {
          assert Empties(e, i0, i + 1) == Empties(e, i0, i);
        }
        vaddr := U32(vaddr + PMD_SIZE);
        i := i + 1;
      }
    }

    /**
     * The walk of `pagetable_init` over the kernel's slots: from the slot of
     * `PAGE_OFFSET`, for every slot below `end` install a fresh table,
     * whether or not the slot held one, whose entries map each address
     * below `end` to its physical address. Returns the first slot left
     * alone.
     */
    method MapDirect(end: nat) returns (i: nat)
      requires Valid() && nextPage + (PTRS_PER_PGD - KERNEL_SLOT) <= tables.Length0
      modifies pgd, tables, this`nextPage
      ensures Valid() && i == KERNEL_SLOT + KernelTables(end) && nextPage == old(nextPage) + KernelTables(end)
      ensures forall s :: KERNEL_SLOT <= s < PTRS_PER_PGD ==> (Mapped(end, s * PGDIR_SIZE) <==> s < i)
      ensures forall s :: 0 <= s < PTRS_PER_PGD && !(KERNEL_SLOT <= s < i) ==> pgd[s] == old(pgd[s])
      ensures forall s :: KERNEL_SLOT <= s < i ==> pgd[s] == TableEntry(old(nextPage) + s - KERNEL_SLOT)
      ensures forall q, k :: old(nextPage) <= q < nextPage && 0 <= k < PTRS_PER_PTE ==>
        tables[q, k] == LinearPte(end, q - old(nextPage) + KERNEL_SLOT, k)
      ensures forall q, k :: 0 <= q < tables.Length0 && !(old(nextPage) <= q < nextPage) && 0 <= k < PTRS_PER_PTE ==>
        tables[q, k] == old(tables[q, k])
    {
      ghost var p0 := nextPage;
      i := PgdOffset(PAGE_OFFSET);
      while i < PTRS_PER_PGD
        invariant KERNEL_SLOT <= i <= PTRS_PER_PGD
        invariant Valid() && nextPage == p0 + (i - KERNEL_SLOT)
        invariant forall s :: KERNEL_SLOT <= s < i ==> Mapped(end, s * PGDIR_SIZE)
        invariant forall s :: 0 <= s < PTRS_PER_PGD && !(KERNEL_SLOT <= s < i) ==> pgd[s] == old(pgd[s])
        invariant forall s :: KERNEL_SLOT <= s < i ==> pgd[s] == TableEntry(p0 + s - KERNEL_SLOT)
        invariant forall q, k :: p0 <= q < nextPage && 0 <= k < PTRS_PER_PTE ==>
          tables[q, k] == LinearPte(end, q - p0 + KERNEL_SLOT, k)
        invariant forall q, k :: 0 <= q < tables.Length0 && !(p0 <= q < nextPage) && 0 <= k < PTRS_PER_PTE ==>
          tables[q, k] == old(tables[q, k])
      {
        var vaddr := i * PGDIR_SIZE;
        if end != 0 && vaddr >= end {
          break;
        }
        // The middle directory is the directory slot itself (`pmd_offset`),
        // and PTRS_PER_PMD is 1: one table per slot.
        var p := InstallTable(i);
        FillTable(p, i, end);
        i := i + 1;
      }
      WalkStops(end, i);
    }

    /**
     * `pagetable_init`: map the kernel's slots up to `end`, computed from
     * `max_low_pfn`, then give the fixed-mapping slot, the last one, a
     * table if it has none.
     */
    method PagetableInit(maxLowPfn: nat)
      requires Valid() && nextPage + (PTRS_PER_PGD - KERNEL_SLOT) + 1 <= tables.Length0
      modifies pgd, tables, this`nextPage
      ensures Valid()
      ensures forall s :: 0 <= s < KERNEL_SLOT ==> pgd[s] == old(pgd[s])
      ensures forall s :: KERNEL_SLOT <= s < KERNEL_SLOT + KernelTables(End(maxLowPfn)) ==>
        pgd[s] == TableEntry(old(nextPage) + s - KERNEL_SLOT)
      ensures forall q, k :: old(nextPage) <= q < old(nextPage) + KernelTables(End(maxLowPfn)) && 0 <= k < PTRS_PER_PTE ==>
        tables[q, k] == LinearPte(End(maxLowPfn), q - old(nextPage) + KERNEL_SLOT, k)
      ensures forall s :: KERNEL_SLOT + KernelTables(End(maxLowPfn)) <= s < PTRS_PER_PGD - 1 ==> pgd[s] == old(pgd[s])
      ensures KernelTables(End(maxLowPfn)) < PTRS_PER_PGD - KERNEL_SLOT ==>
        pgd[PTRS_PER_PGD - 1] == if PmdNone(old(pgd[PTRS_PER_PGD - 1])) then TableEntry(old(nextPage) + KernelTables(End(maxLowPfn)))
                                 else old(pgd[PTRS_PER_PGD - 1])
      ensures nextPage == old(nextPage) + KernelTables(End(maxLowPfn)) +
        (if KernelTables(End(maxLowPfn)) < PTRS_PER_PGD - KERNEL_SLOT && PmdNone(old(pgd[PTRS_PER_PGD - 1])) then 1 else 0)
      ensures forall q, k :: old(nextPage) + KernelTables(End(maxLowPfn)) <= q < nextPage && 0 <= k < PTRS_PER_PTE ==>
        tables[q, k] == 0
      ensures forall q, k :: 0 <= q < old(nextPage) && 0 <= k < PTRS_PER_PTE ==> tables[q, k] == old(tables[q, k])
    {
      var end := Va(U32(maxLowPfn * PAGE_SIZE));
      var i := MapDirect(end);
      ghost var mid := pgd[..];
      var fixStart := PmdAlign(FixToVirt(END_OF_FIXED_ADDRESSES - 1));
      FixmapSlot();
      FixmapWalk();
      assert Empties(mid, PTRS_PER_PGD - 1, PTRS_PER_PGD) == if PmdNone(mid[PTRS_PER_PGD - 1]) then 1 else 0;
      assert Empties(mid, PTRS_PER_PGD - 1, PTRS_PER_PGD - 1) == 0;
      FixrangeInit(fixStart, 0);
    }
  }

  /**
   * Where the walk over the kernel's slots stops: after every mapped slot
   * and at the first one that is not, which is the end of the prefix
   * `KernelTables` counts.
   */
  lemma WalkStops(end: nat, i: nat)
    requires KERNEL_SLOT <= i <= PTRS_PER_PGD
    requires forall s :: KERNEL_SLOT <= s < i ==> Mapped(end, s * PGDIR_SIZE)
    requires i < PTRS_PER_PGD ==> !Mapped(end, i * PGDIR_SIZE)
    ensures i == KERNEL_SLOT + KernelTables(end)
    ensures forall s :: KERNEL_SLOT <= s < PTRS_PER_PGD ==> (Mapped(end, s * PGDIR_SIZE) <==> s < i)
  {
    forall s | KERNEL_SLOT <= s < PTRS_PER_PGD
      ensures Mapped(end, s * PGDIR_SIZE) <==> s < KERNEL_SLOT + KernelTables(end)
    {
      MappedSlots(end, s);
    }
    if i > KERNEL_SLOT {
      assert Mapped(end, (i - 1) * PGDIR_SIZE);
    }
  }

  lemma {:induction false} EmptiesMonotone(e: seq<nat>, lo: nat, a: nat, b: nat)
    requires a <= b <= |e|
    ensures Empties(e, lo, a) <= Empties(e, lo, b)
    decreases b
  {
    if a < b {
      EmptiesMonotone(e, lo, a, b - 1);
    }
  }
}
