/**
 * The physical memory map of `arch/i386/kernel/setup.c`: the boot loader's
 * memory map (section 3.3 of the Multiboot Specification 0.6.96) is copied
 * into the `e820` table, with usable RAM clipped out of the legacy hole
 * `[0xA0000, 0x100000)`; when the map is refused the table is rebuilt from
 * the boot loader's lower and upper memory sizes.
 *
 * Type codes are the E820 address-range types (section 15.1 of the ACPI
 * specification): only `E820_RAM` is treated specially.
 */
module E820 {
  import opened Words

  const E820MAX: nat := 32
  const E820_RAM: nat := 1
  const HIGH_MEMORY: nat := 0x100000
  /** The start of the hole below 1 MB that usable RAM is clipped out of. */
  const HOLE_START: nat := 0xA0000
  /** `LOWMEMSIZE()`, the usable low memory of the fallback map. */
  const LOWMEMSIZE: nat := 0x9f000
  /** `sizeof(struct multiboot_t)`: 24 packed 32-bit fields. */
  const MULTIBOOT_T_SIZE: nat := 96
  /** `sizeof(struct mmap_entry_t)`: 6 packed 32-bit fields. */
  const MMAP_ENTRY_SIZE: nat := 24

  type u32 = x: nat | x < TWO32

  /** `struct e820entry`. */
  datatype E820Entry = E820Entry(addr: nat, size: nat, kind: nat)

  /** `struct mmap_entry_t`; its own `size` field is not read by the walk. */
  datatype MmapEntry = MmapEntry(entrySize: u32, baseLow: u32, baseHigh: u32,
                                 lengthLow: u32, lengthHigh: u32, kind: u32)

  /** The 64-bit start and length assembled from their 32-bit halves. */
  function Start(e: MmapEntry): (r: nat)
    ensures r < TWO64
  {
    e.baseLow + e.baseHigh * TWO32
  }

  function Length(e: MmapEntry): (r: nat)
    ensures r < TWO64
  {
    e.lengthLow + e.lengthHigh * TWO32
  }

  /** The `unsigned long long` sum of two 64-bit values, wrapping past 2^64. */
  function AddU64(x: nat, y: nat): (r: nat)
    requires x < TWO64 && y < TWO64
    ensures r < TWO64 && r == U64(x + y)
  {
    var s := x + y;
    DivModUnique(s, TWO64, s / TWO64, s % TWO64);
    if s < TWO64 then s else s - TWO64
  }

  /** The entry's 64-bit end `start + size` wraps, and so lies below its start. */
  predicate Wraps(e: MmapEntry) {
    Start(e) > AddU64(Start(e), Length(e))
  }

  /** The walk refuses an entry exactly when its end is past 64 bits. */
  lemma WrapsIff(e: MmapEntry)
    ensures Wraps(e) <==> Start(e) + Length(e) >= TWO64
  {
  }

  /** An address lies in a region. */
  predicate Covers(r: E820Entry, x: int) {
    r.addr <= x < r.addr + r.size
  }

  /** The part of the legacy hole usable RAM must not claim. */
  predicate InHole(x: int) {
    HOLE_START <= x < HIGH_MEMORY
  }

  /**
   * The regions `copy_multiboot_mmap` adds for one entry that does not
   * wrap: a RAM entry reaching into the hole loses that part, keeping its
   * piece below 0xA0000 and its piece from 1 MB on; every other entry is
   * copied as it is.
   */
  function EntryRegions(e: MmapEntry): seq<E820Entry> {
    var start, size := Start(e), Length(e);
    var end := start + size;
    if e.kind == E820_RAM && start < HIGH_MEMORY && end > HOLE_START then
      (if start < HOLE_START then [E820Entry(start, HOLE_START - start, e.kind)] else []) +
      (if end <= HIGH_MEMORY then [] else [E820Entry(HIGH_MEMORY, end - HIGH_MEMORY, e.kind)])
    else
      [E820Entry(start, size, e.kind)]
  }

  /**
   * The regions of an entry carry its type and together cover exactly its
   * addresses, less the hole when it is RAM.
   */
  lemma EntryCoverage(e: MmapEntry, x: int)
    ensures forall r :: r in EntryRegions(e) ==> r.kind == e.kind
    ensures (exists r :: r in EntryRegions(e) && Covers(r, x)) <==>
      Start(e) <= x < Start(e) + Length(e) && !(e.kind == E820_RAM && InHole(x))
  {
    var rs := EntryRegions(e);
    var start, end := Start(e), Start(e) + Length(e);
    if start <= x < end && !(e.kind == E820_RAM && InHole(x)) {
      if e.kind == E820_RAM && start < HIGH_MEMORY && end > HOLE_START {
        if x < HOLE_START {
          assert Covers(rs[0], x);
        } else {
          assert Covers(rs[|rs| - 1], x);
        }
      } else {
        assert Covers(rs[0], x);
      }
    }
  }

  /** A table of at most `E820MAX` entries after `add_memory_region(r)`. */
  function Push(m: seq<E820Entry>, r: E820Entry): seq<E820Entry> {
    if |m| == E820MAX then m else m + [r]
  }

  /** The table after adding the regions `rs` one by one. */
  function Capped(m: seq<E820Entry>, rs: seq<E820Entry>): seq<E820Entry>
    decreases |rs|
  {
    if rs == [] then m else Push(Capped(m, rs[..|rs| - 1]), rs[|rs| - 1])
  }

  /** Adding one more region is pushing it onto the table. */
  lemma CappedStep(m: seq<E820Entry>, rs: seq<E820Entry>, r: E820Entry)
    ensures Capped(m, rs + [r]) == Push(Capped(m, rs), r)
  {
    assert (rs + [r])[..|rs|] == rs;
  }

  /** Adding a batch of regions then another is adding them all. */
  lemma {:induction false} CappedAppend(m: seq<E820Entry>, a: seq<E820Entry>, b: seq<E820Entry>)
    ensures Capped(m, a + b) == Capped(Capped(m, a), b)
    decreases |b|
  {
    if b == [] {
      assert a + b == a;
    } else {
      var b' := b[..|b| - 1];
      assert (a + b)[..|a + b| - 1] == a + b';
      CappedAppend(m, a, b');
    }
  }

  /**
   * A table that is not over-full keeps the added regions in order up to
   * `E820MAX` entries and silently drops the rest.
   */
  lemma {:induction false} CappedTruncates(m: seq<E820Entry>, rs: seq<E820Entry>)
    requires |m| <= E820MAX
    ensures var n := if |m| + |rs| <= E820MAX then |m| + |rs| else E820MAX;
      Capped(m, rs) == (m + rs)[..n]
    decreases |rs|
  {
    if rs != [] {
      var rs' := rs[..|rs| - 1];
      CappedTruncates(m, rs');
      assert (m + rs)[..|m + rs| - 1] == m + rs';
    }
  }

  /** The index of the first entry whose end wraps, or `|s|` when none does. */
  function FirstWrap(s: seq<MmapEntry>): (k: nat)
    ensures k <= |s| && (forall j :: 0 <= j < k ==> !Wraps(s[j])) && (k < |s| ==> Wraps(s[k]))
  {
    if s == [] then 0 else if Wraps(s[0]) then 0 else 1 + FirstWrap(s[1..])
  }

  /** The regions added for a run of entries none of which wraps. */
  function Expand(s: seq<MmapEntry>): seq<E820Entry>
    decreases |s|
  {
    if s == [] then [] else Expand(s[..|s| - 1]) + EntryRegions(s[|s| - 1])
  }

  /**
   * What `copy_multiboot_mmap(mmap, nr)` leaves in a table `m`: the regions
   * of every entry before the first that wraps.
   */
  function Copied(m: seq<E820Entry>, mmap: seq<MmapEntry>, nr: nat): seq<E820Entry>
    requires nr <= |mmap|
  {
    Capped(m, Expand(mmap[..FirstWrap(mmap[..nr])]))
  }

  /** The walk over one more entry adds that entry's regions. */
  lemma ExpandStep(s: seq<MmapEntry>, i: nat)
    requires i < |s|
    ensures Expand(s[..i + 1]) == Expand(s[..i]) + EntryRegions(s[i])
  {
    assert s[..i + 1][..i] == s[..i];
  }

  /** A walk that meets a wrapping entry at `i` has copied the entries before it. */
  lemma CopiedUpTo(m: seq<E820Entry>, mmap: seq<MmapEntry>, nr: nat, i: nat)
    requires i <= nr <= |mmap| && FirstWrap(mmap[..nr]) == i
    ensures Copied(m, mmap, nr) == Capped(m, Expand(mmap[..i]))
  {
    assert mmap[..nr][..i] == mmap[..i];
  }

  /** The size `(mem_size << 10) - HIGH_MEMORY` of the fallback high region, in 32 bits. */
  function FallbackSize(memSize: u32): nat {
    U32(U32(memSize * 1024) - HIGH_MEMORY)
  }

  /**
   * The fallback high region ends where the reported memory does, for any
   * size from 1 MB up to 4 GB.
   */
  lemma FallbackEnd(memSize: u32)
    requires HIGH_MEMORY <= memSize * 1024 < TWO32
    ensures HIGH_MEMORY + FallbackSize(memSize) == memSize * 1024
  {
  }

  /** The entry count as `setup_memory_region` computes it, dividing by the wrong size. */
  function MmapCountAsWritten(mmapLength: u32): nat {
    mmapLength / MULTIBOOT_T_SIZE
  }

  /**
   * A six-entry map, the usual size of a PC's map, is counted as one entry,
   * which `copy_multiboot_mmap` refuses as too short.
   */
  lemma MmapCountAsWrittenShort()
    ensures MmapCountAsWritten(6 * MMAP_ENTRY_SIZE) < 2
  {
  }

  /** The entry count: the map's byte length over the entry size. */
  function MmapCount(mmapLength: u32): nat {
    mmapLength / MMAP_ENTRY_SIZE
  }

  /** A map of `k` whole entries is counted as `k` entries. */
  lemma MmapCountExact(k: nat)
    requires k * MMAP_ENTRY_SIZE < TWO32
    ensures MmapCount(k * MMAP_ENTRY_SIZE) == k
  {
    DivModUnique(k * MMAP_ENTRY_SIZE, MMAP_ENTRY_SIZE, k, 0);
  }

  /** The global `e820` table. */
  class E820Map {
    var table: array<E820Entry>
    var nrMap: nat

    ghost predicate Valid()
      reads this
    {
      table.Length == E820MAX && nrMap <= E820MAX
    }

    /** The entries in use. */
    ghost function Entries(): seq<E820Entry>
      reads this, table
      requires Valid()
    {
      table[..nrMap]
    }

    /** The zero-initialised static table. */
    constructor ()
      ensures Valid() && Entries() == [] && fresh(table)
    {
      table := new E820Entry[E820MAX](_ => E820Entry(0, 0, 0));
      nrMap := 0;
    }

    /** `add_memory_region`: append a region unless the table is full. */
    method AddMemoryRegion(start: nat, size: nat, kind: nat)
      requires Valid()
      modifies table, this`nrMap
      ensures Valid() && Entries() == Push(old(Entries()), E820Entry(start, size, kind))
    {
      var x := nrMap;
      if x == E820MAX {
        return;
      }
      table[x] := E820Entry(start, size, kind);
      nrMap := nrMap + 1;
      assert Entries() == old(Entries()) + [E820Entry(start, size, kind)];
    }

    /**
     * One pass of the walk in `copy_multiboot_mmap`, for an entry whose end
     * does not wrap: add its regions, clipping RAM out of the hole.
     */
    method CopyEntry(e: MmapEntry)
      requires Valid() && !Wraps(e)
      modifies table, this`nrMap
      ensures Valid() && Entries() == Capped(old(Entries()), EntryRegions(e))
    {
      var start := Start(e);
      var size := Length(e);
      WrapsIff(e);
      var end := start + size;
      var kind := e.kind;
      ghost var m := Entries();
      assert Capped(m, []) == m;
      ghost var low: seq<E820Entry> := [];
      if kind == E820_RAM {
        if start < HIGH_MEMORY && end > HOLE_START {
          if start < HOLE_START {
            AddMemoryRegion(start, HOLE_START - start, kind);
            low := [E820Entry(start, HOLE_START - start, kind)];
            CappedStep(m, [], low[0]);
          }
          if end <= HIGH_MEMORY {
            assert EntryRegions(e) == low + [];
            return;
          }
          start := HIGH_MEMORY;
          size := end - start;
        }
      }
      assert EntryRegions(e) == low + [E820Entry(start, size, kind)];
      AddMemoryRegion(start, size, kind);
      CappedStep(m, low, E820Entry(start, size, kind));
    }

    /**
     * `copy_multiboot_mmap`: -1 for a map of fewer than two entries, or
     * after copying the entries before the first one whose end wraps;
     * otherwise 0 after copying all `nr` entries.
     */
    method CopyMultibootMmap(mmap: seq<MmapEntry>, nr: int) returns (r: int)
      requires Valid() && nr <= |mmap|
      modifies table, this`nrMap
      ensures Valid()
      ensures nr < 2 ==> r == -1 && Entries() == old(Entries())
      ensures nr >= 2 ==>
        Entries() == Copied(old(Entries()), mmap, nr) &&
        r == (if FirstWrap(mmap[..nr]) < nr then -1 else 0)
    {
      if nr < 2 {
        return -1;
      }
      ghost var m := Entries();
      var i := 0;
      while i < nr
        invariant 0 <= i <= nr && Valid()
        invariant i <= FirstWrap(mmap[..nr])
        invariant Entries() == Capped(m, Expand(mmap[..i]))
      {
        var e := mmap[i];
        var start := Start(e);
        var size := Length(e);
        var end := AddU64(start, size);
        if start > end {
          assert mmap[..nr][i] == e;
          CopiedUpTo(m, mmap, nr, i);
          return -1;
        }
        assert mmap[..nr][i] == e;
        ghost var done := Expand(mmap[..i]);
        ExpandStep(mmap, i);
        CopyEntry(e);
        CappedAppend(m, done, EntryRegions(e));
        i := i + 1;
      }
      CopiedUpTo(m, mmap, nr, nr);
      return 0;
    }

    /**
     * `setup_memory_region`: copy the boot loader's map; when it is refused,
     * empty the table and enter low memory below `LOWMEMSIZE` and the memory
     * from 1 MB on, sized by the larger of `mem_lower` and `mem_upper`.
     * The map's entry count is `MmapCount`.
     */
    method SetupMemoryRegion(mmap: seq<MmapEntry>, mmapLength: u32, memLower: u32, memUpper: u32)
      requires Valid() && MmapCount(mmapLength) <= |mmap|
      modifies table, this`nrMap
      ensures Valid()
      ensures var nr := MmapCount(mmapLength);
        if nr >= 2 && FirstWrap(mmap[..nr]) == nr then
          Entries() == Copied(old(Entries()), mmap, nr)
        else
          var memSize := if memLower < memUpper then memUpper else memLower;
          Entries() == [E820Entry(0, LOWMEMSIZE, E820_RAM),
                        E820Entry(HIGH_MEMORY, FallbackSize(memSize), E820_RAM)]
    {
      var rc := CopyMultibootMmap(mmap, MmapCount(mmapLength));
      if rc < 0 {
        var memSize;
        if memLower < memUpper {
          memSize := memUpper;
        } else {
          memSize := memLower;
        }
        nrMap := 0;
        AddMemoryRegion(0, LOWMEMSIZE, E820_RAM);
        AddMemoryRegion(HIGH_MEMORY, FallbackSize(memSize), E820_RAM);
      }
    }
  }
}
