/**
 * The memory-management records shared by the boot allocator and the zone
 * allocator (`linux/mmzone.h`, `linux/mm.h`, `linux/bootmem.h`): the page
 * descriptor, the zone with its per-order free areas, the fallback zone
 * lists, and the node descriptor `pg_data_t`.
 *
 * A zone is a plain record stored by value in its node's `node_zones`
 * array, as the C struct is; a pointer to a zone is its index in that
 * array, and a pointer to a page descriptor is its index in `mem_map`.
 */
module MmZone {
  import opened Wrappers

  const ZONE_DMA: nat := 0
  const ZONE_NORMAL: nat := 1
  const ZONE_HIGHMEM: nat := 2
  const MAX_NR_ZONES: nat := 3
  /** Orders of the buddy system: blocks of 1 to 512 pages. */
  const MAX_ORDER: nat := 10
  /** The number of zone lists per node, one per allocation-flag value (the Linux 2.4 value). */
  const NR_GFPINDEX: nat := 0x100

  /**
   * `struct page`. The state bits of `flags` that the free path tests are
   * separate booleans; `buffers` and `mapping` say whether those pointers
   * are set; `zone` is the zone's index in the node, `None` for `NULL`.
   */
  datatype Page = Page(
    count: int,
    reserved: bool, referenced: bool, dirty: bool, locked: bool, active: bool,
    inactiveDirty: bool, inactiveClean: bool, swapCache: bool, decrAfter: bool,
    buffers: bool, mapping: bool,
    age: nat, virtual: nat, zone: Option<nat>)

  /**
   * `free_area_t`: the blocks free at one order, as the `mem_map` indices
   * of their first pages with the list head first, and the order's buddy
   * bitmap, one bit per pair of blocks.
   */
  datatype FreeArea = FreeArea(freeList: seq<nat>, bitmap: seq<bool>)

  /** `zone_t`, without its lock, its node pointer and its inactive-clean list. */
  datatype Zone = Zone(
    size: nat, offset: nat, name: string,
    freePages: nat, inactiveCleanPages: nat, inactiveDirtyPages: nat,
    pagesMin: nat, pagesLow: nat, pagesHigh: nat,
    zoneStartMapnr: nat, zoneStartPaddr: nat,
    freeArea: seq<FreeArea>)

  /** A zone as the zero-filled static node holds it. */
  const EMPTY_ZONE := Zone(0, 0, "", 0, 0, 0, 0, 0, 0, 0, 0, [])

  /**
   * `zonelist_t`: the zones to try, by index, in order; the `NULL` that
   * ends the C array is the end of the sequence.
   */
  datatype Zonelist = Zonelist(gfpMask: nat, zones: seq<nat>)

  /** `bootmem_data_t`. */
  class BootmemData {
    var nodeBootStart: nat
    var nodeLowPfn: nat
    /** `node_bootmem_map`, a kernel virtual address. */
    var nodeBootmemMap: nat
    var lastOffset: nat
    var lastPos: nat

    constructor ()
      ensures nodeBootStart == 0 && nodeLowPfn == 0 && nodeBootmemMap == 0
      ensures lastOffset == 0 && lastPos == 0
    {
      nodeBootStart, nodeLowPfn, nodeBootmemMap := 0, 0, 0;
      lastOffset, lastPos := 0, 0;
    }
  }

  /** `pg_data_t`. Its page map is the global `mem_map`, from index `nodeStartMapnr`. */
  class Node {
    const bdata: BootmemData
    var nodeNext: Node?
    const nodeZones: array<Zone>
    const nodeZonelists: array<Zonelist>
    var nodeSize: nat
    var nodeStartPaddr: nat
    var nodeStartMapnr: nat

    /** The zero-filled static node with its boot-memory data. */
    constructor (bdata: BootmemData)
      ensures this.bdata == bdata && nodeNext == null
      ensures nodeZones.Length == MAX_NR_ZONES && nodeZonelists.Length == NR_GFPINDEX
      ensures forall j :: 0 <= j < MAX_NR_ZONES ==> nodeZones[j] == EMPTY_ZONE
      ensures fresh(nodeZones) && fresh(nodeZonelists)
      ensures nodeSize == 0 && nodeStartPaddr == 0 && nodeStartMapnr == 0
    {
      this.bdata := bdata;
      nodeNext := null;
      nodeZones := new Zone[MAX_NR_ZONES](_ => EMPTY_ZONE);
      nodeZonelists := new Zonelist[NR_GFPINDEX](_ => Zonelist(0, []));
      nodeSize, nodeStartPaddr, nodeStartMapnr := 0, 0, 0;
    }
  }
}
