/**
 * Boot-memory set-up in `mm/bootmem.c`: a node's bitmap, one bit per page
 * frame, is sized, placed at a given frame and filled with ones so that
 * every frame starts out reserved, and the node is linked onto the front of
 * `pgdat_list`.
 *
 * Physical memory is the byte array `mem`, indexed by physical address; a
 * kernel virtual address is the physical one plus `PAGE_OFFSET` (`__va`).
 */
module Bootmem {
  import opened Words
  import opened PageDefs
  import opened MmZone
  import KString

  /** `sizeof(long)` on i386. */
  const LONG_SIZE: nat := 4

  /**
   * The bitmap bytes `init_bootmem_core` computes in `unsigned long`
   * arithmetic: one bit per frame of `[start, end)`, rounded up to a whole
   * byte and then to a whole `long`.
   */
  function MapSize(start: nat, end: nat): nat {
    var bytes := U32(U32(end - start) + 7) / 8;
    U32(bytes + (LONG_SIZE - 1)) / LONG_SIZE * LONG_SIZE
  }

  /**
   * Without wrap-around the bitmap is `ceil((end - start) / 8)` bytes
   * rounded up to a multiple of `sizeof(long)`: enough for one bit per
   * frame, and less than one `long` more than that.
   */
  lemma MapSizeExact(start: nat, end: nat)
    requires start <= end && end - start + 7 < TWO32
    ensures MapSize(start, end) == RoundUp(CeilDiv(end - start, 8), LONG_SIZE)
    ensures MapSize(start, end) * 8 >= end - start && MapSize(start, end) % LONG_SIZE == 0
  {
    var bytes := (end - start + 7) / 8;
    assert bytes == CeilDiv(end - start, 8);
    DivLessEq(end - start + 7, 8);
    assert bytes + 3 < TWO32;
    assert (bytes + 3) / 4 * 4 == RoundUp(bytes, 4);
  }

  lemma DivLessEq(n: nat, b: nat)
    requires b > 0
    ensures n / b <= n
  {
    DivModBasics(n, b);
    MulNonneg(n / b, b - 1);
    assert (n / b) * b == (n / b) * (b - 1) + n / b;
  }

  /** Bit `idx` of the bitmap that starts at `base` in `mem`. */
  predicate Reserved(mem: seq<bv8>, base: nat, idx: nat)
    requires base + idx / 8 < |mem|
  {
    mem[base + idx / 8] & ((1 as bv8) << (idx % 8) as bv3) != 0
  }

  /** The globals of the boot-memory allocator and the memory it sets up. */
  class BootMemory {
    var pgdatList: Node?
    var maxLowPfn: nat
    var minLowPfn: nat
    /** `contig_page_data`, the single node, with `contig_bootmem_data`. */
    const contigPageData: Node
    const mem: array<bv8>

    ghost predicate Valid()
      reads this
    {
      mem.Length <= DIRECT_MAP_SIZE
    }

    constructor (mem: array<bv8>)
      requires mem.Length <= DIRECT_MAP_SIZE
      ensures Valid() && this.mem == mem && pgdatList == null
      ensures maxLowPfn == 0 && minLowPfn == 0
      ensures fresh(contigPageData) && fresh(contigPageData.bdata)
    {
      this.mem := mem;
      var bdata := new BootmemData();
      contigPageData := new Node(bdata);
      pgdatList := null;
      maxLowPfn, minLowPfn := 0, 0;
    }

    /**
     * `init_bootmem_core`: link `pgdat` in front of `pgdat_list`, record the
     * node's first address and last frame, place its bitmap at frame
     * `mapstart` with every bit set, and return the bitmap's size in bytes.
     */
    method InitBootmemCore(pgdat: Node, mapstart: nat, start: nat, end: nat) returns (mapsize: nat)
      requires Valid() && start <= end && end - start + 7 < TWO32
      requires mapstart * PAGE_SIZE + MapSize(start, end) <= mem.Length
      modifies this`pgdatList, pgdat`nodeNext, pgdat.bdata, mem
      ensures mapsize == MapSize(start, end)
      ensures pgdatList == pgdat && pgdat.nodeNext == old(pgdatList)
      ensures pgdat.bdata.nodeBootmemMap == Va(mapstart * PAGE_SIZE)
      ensures pgdat.bdata.nodeBootStart == U32(start * PAGE_SIZE) && pgdat.bdata.nodeLowPfn == end
      ensures pgdat.bdata.lastOffset == old(pgdat.bdata.lastOffset)
      ensures pgdat.bdata.lastPos == old(pgdat.bdata.lastPos)
      ensures forall i :: mapstart * PAGE_SIZE <= i < mapstart * PAGE_SIZE + mapsize ==> mem[i] == 0xff
      ensures forall i :: 0 <= i < mem.Length && !(mapstart * PAGE_SIZE <= i < mapstart * PAGE_SIZE + mapsize) ==>
        mem[i] == old(mem[i])
      ensures forall idx :: 0 <= idx < end - start ==> Reserved(mem[..], mapstart * PAGE_SIZE, idx)
    {
      var bdata := pgdat.bdata;
      mapsize := U32(U32(end - start) + 7) / 8;
      pgdat.nodeNext := pgdatList;
      pgdatList := pgdat;
      mapsize := U32(mapsize + (LONG_SIZE - 1)) / LONG_SIZE * LONG_SIZE;
      var base := mapstart * PAGE_SIZE;
      bdata.nodeBootmemMap := Va(base);
      bdata.nodeBootStart := U32(start * PAGE_SIZE);
      bdata.nodeLowPfn := end;
      MapSizeExact(start, end);
      var _ := KString.Memset(mem, base, 0xff, mapsize);
      forall idx | 0 <= idx < end - start
        ensures Reserved(mem[..], base, idx)
      {
        assert idx / 8 < mapsize by {
          DivModBasics(idx, 8);
          MulLtCancel(idx / 8, mapsize, 8);
        }
        assert mem[base + idx / 8] == 0xff;
      }
    }

    /**
     * `init_bootmem`: the allocator manages frames `[0, pages)` of
     * `contig_page_data`, with its bitmap at frame `start`.
     */
    method InitBootmem(start: nat, pages: nat) returns (mapsize: nat)
      requires Valid() && pages + 7 < TWO32
      requires start * PAGE_SIZE + MapSize(0, pages) <= mem.Length
      modifies this`pgdatList, this`maxLowPfn, this`minLowPfn, contigPageData`nodeNext, contigPageData.bdata, mem
      ensures maxLowPfn == pages && minLowPfn == start && mapsize == MapSize(0, pages)
      ensures pgdatList == contigPageData && contigPageData.nodeNext == old(pgdatList)
      ensures contigPageData.bdata.nodeBootmemMap == Va(start * PAGE_SIZE)
      ensures contigPageData.bdata.nodeBootStart == 0 && contigPageData.bdata.nodeLowPfn == pages
      ensures forall f :: 0 <= f < pages ==> Reserved(mem[..], start * PAGE_SIZE, f)
    {
      maxLowPfn := pages;
      minLowPfn := start;
      mapsize := InitBootmemCore(contigPageData, start, 0, pages);
    }
  }
}
