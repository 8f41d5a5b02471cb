/**
 * The zone and buddy page allocator of `mm/page_alloc.c`: setting up a
 * node's zones (watermarks, offsets, page descriptors and per-order buddy
 * bitmaps), the fallback zone lists, freeing a block with buddy
 * coalescing, and counting free pages.
 */
module PageAlloc {
  import opened Words
  import opened Wrappers
  import opened PageDefs
  import opened MmZone

  const ZONE_BALANCE_RATIO: seq<nat> := [32, 128, 128]
  const ZONE_BALANCE_MIN: seq<nat> := [10, 10, 10]
  const ZONE_BALANCE_MAX: seq<nat> := [255, 255, 255]
  const ZONE_NAMES: seq<string> := ["DMA", "Normal", "HighMem"]
  /** `sizeof(long)` on i386. */
  const LONG_SIZE: nat := 4
  const GFP_DMA: bv32 := 0x08
  /** Without high memory support the high-memory request bit is 0. */
  const GFP_HIGHMEM: bv32 := 0x0
  const PAGE_AGE_START: nat := 2

  // ---------------------------------------------------------------------
  // Watermarks

  /**
   * The watermark unit of zone `j`: `realsize / zone_balance_ratio[j]`
   * clamped into `[zone_balance_min[j], zone_balance_max[j]]`.
   */
  function Mask(realsize: nat, j: nat): nat
    requires j < MAX_NR_ZONES
  {
    var m := realsize / ZONE_BALANCE_RATIO[j];
    if m < ZONE_BALANCE_MIN[j] then ZONE_BALANCE_MIN[j]
    else if m > ZONE_BALANCE_MAX[j] then ZONE_BALANCE_MAX[j]
    else m
  }

  /**
   * The watermark unit by zone size: the minimum below `min * ratio`
   * frames, the maximum from `(max + 1) * ratio` frames on, and in between
   * the one `m` with `m * ratio <= realsize < (m + 1) * ratio`.
   */
  lemma MaskRanges(realsize: nat, j: nat)
    requires j < MAX_NR_ZONES
    ensures ZONE_BALANCE_MIN[j] <= Mask(realsize, j) <= ZONE_BALANCE_MAX[j]
    ensures realsize < ZONE_BALANCE_MIN[j] * ZONE_BALANCE_RATIO[j] ==> Mask(realsize, j) == ZONE_BALANCE_MIN[j]
    ensures realsize >= (ZONE_BALANCE_MAX[j] + 1) * ZONE_BALANCE_RATIO[j] ==> Mask(realsize, j) == ZONE_BALANCE_MAX[j]
    ensures ZONE_BALANCE_MIN[j] * ZONE_BALANCE_RATIO[j] <= realsize < (ZONE_BALANCE_MAX[j] + 1) * ZONE_BALANCE_RATIO[j] ==>
      Mask(realsize, j) * ZONE_BALANCE_RATIO[j] <= realsize < (Mask(realsize, j) + 1) * ZONE_BALANCE_RATIO[j]
  {
    var ratio := ZONE_BALANCE_RATIO[j];
    var lo, hi := ZONE_BALANCE_MIN[j], ZONE_BALANCE_MAX[j];
    var m := realsize / ratio;
    DivModBasics(realsize, ratio);
    assert (m + 1) * ratio == m * ratio + ratio;
    MulLeIff(lo, m, ratio);
    MulLeIff(m + 1, hi + 1, ratio);
    MulLeIff(m + 1, lo, ratio);
    MulLeIff(hi + 1, m, ratio);
  }

  lemma MulLeIff(a: nat, b: nat, c: nat)
    requires c > 0
    ensures a <= b <==> a * c <= b * c
  {
    if a <= b {
      MulNonneg(b - a, c);
      assert b * c == a * c + (b - a) * c;
    } else {
      MulNonneg(a - b - 1, c);
      assert a * c == b * c + c + (a - b - 1) * c;
    }
  }

  // ---------------------------------------------------------------------
  // Zone layout

  /** The frames of the zones before zone `j`: where zone `j` starts in `mem_map`. */
  function ZoneOffset(sizes: seq<nat>, j: nat): nat
    requires j <= |sizes|
  {
    if j == 0 then 0 else ZoneOffset(sizes, j - 1) + sizes[j - 1]
  }

  /** The node's frames, `totalpages`. */
  function TotalPages(sizes: seq<nat>): nat {
    ZoneOffset(sizes, |sizes|)
  }

  /** The zone the frame `p` of the node falls in. */
  function ZoneOf(sizes: seq<nat>, p: nat): nat
    requires |sizes| == MAX_NR_ZONES
  {
    if p < sizes[ZONE_DMA] then ZONE_DMA
    else if p < sizes[ZONE_DMA] + sizes[ZONE_NORMAL] then ZONE_NORMAL
    else ZONE_HIGHMEM
  }

  /** Every frame of the node lies in the range of a non-empty zone, the one `ZoneOf` names. */
  lemma ZoneOfInRange(sizes: seq<nat>, p: nat)
    requires |sizes| == MAX_NR_ZONES && p < TotalPages(sizes)
    ensures sizes[ZoneOf(sizes, p)] > 0
    ensures ZoneOffset(sizes, ZoneOf(sizes, p)) <= p < ZoneOffset(sizes, ZoneOf(sizes, p)) + sizes[ZoneOf(sizes, p)]
  {
    assert ZoneOffset(sizes, 1) == sizes[0];
    assert ZoneOffset(sizes, 2) == sizes[0] + sizes[1];
    assert TotalPages(sizes) == sizes[0] + sizes[1] + sizes[2];
  }

  /** The size `realsize` is taken from: the zone's size less its holes, in `unsigned long`. */
  function RealSize(sizes: seq<nat>, holes: Option<seq<nat>>, j: nat): nat
    requires j < |sizes| && (holes.Some? ==> j < |holes.value|)
  {
    if holes.None? then sizes[j] else U32(sizes[j] as int - holes.value[j])
  }

  /** The watermark units of the non-empty zones among the first `j`, summed. */
  function MaskSum(sizes: seq<nat>, holes: Option<seq<nat>>, j: nat): nat
    requires j <= |sizes| <= MAX_NR_ZONES && (holes.Some? ==> |holes.value| == |sizes|)
  {
    if j == 0 then 0
    else MaskSum(sizes, holes, j - 1) + (if sizes[j - 1] == 0 then 0 else Mask(RealSize(sizes, holes, j - 1), j - 1))
  }

  // ---------------------------------------------------------------------
  // Buddy bitmap sizes

  /** `LONG_ALIGN`. */
  function LongAlign(x: nat): nat {
    RoundUp(x, LONG_SIZE)
  }

  /**
   * The zone size as `free_area_init_core` has rounded it by order `i`:
   * cumulatively, order by order, up to a multiple of `2^(i+1)`.
   */
  function RoundedSize(size: nat, i: nat): nat {
    if i == 0 then RoundUp(size, 2) else RoundUp(RoundedSize(size, i - 1), Pow2(i + 1))
  }

  /** The bytes of the order-`i` buddy bitmap of a zone of `size` frames. */
  function BitmapBytes(size: nat, i: nat): nat {
    LongAlign((Shr(RoundedSize(size, i), i) + 7) / 8)
  }

  /** `x >> i`. */
  function Shr(x: nat, i: nat): nat {
    if i == 0 then x else Shr(x / 2, i - 1)
  }

  /** Shifting right by `i` is dividing by `2^i`. */
  lemma {:induction false} ShrDiv(x: nat, i: nat)
    ensures Shr(x, i) == x / Pow2(i)
  {
    if i > 0 {
      ShrDiv(x / 2, i - 1);
      DivDiv(x, 2, Pow2(i - 1));
    }
  }

  /** The free areas of a zone of `size` frames: empty lists and zeroed bitmaps. */
  function InitFreeArea(size: nat): seq<FreeArea> {
    seq(MAX_ORDER, (i: nat) => FreeArea([], seq(BitmapBytes(size, i) * 8, _ => false)))
  }

  /** `r` is `ceil(x / m)` when it is the least multiplier reaching `x`. */
  lemma CeilDivUnique(x: nat, m: nat, r: nat)
    requires m > 0 && r * m >= x && (r == 0 || (r - 1) * m < x)
    ensures CeilDiv(x, m) == r
  {
    var c := CeilDiv(x, m);
    if c > 0 {
      MulLtCancel(c - 1, r, m);
    }
    if r > 0 {
      MulLtCancel(r - 1, c, m);
    }
  }

  /** Rounding up to `a` and then to `2a` is rounding up to `2a`. */
  lemma RoundUpTwice(x: nat, a: nat)
    requires a > 0
    ensures RoundUp(RoundUp(x, a), 2 * a) == RoundUp(x, 2 * a)
  {
    var y := RoundUp(x, a);
    var c := CeilDiv(x, 2 * a);
    var ca := CeilDiv(x, a);
    assert y == ca * a;
    assert c * (2 * a) == (2 * c) * a;
    if ca > 0 {
      MulLtCancel(ca - 1, 2 * c, a);
    }
    MulLeIff(ca, 2 * c, a);
    CeilDivUnique(y, 2 * a, c);
  }

  /** The cumulative rounding equals rounding the true size straight to `2^(i+1)`. */
  lemma {:induction false} CumulativeRounding(size: nat, i: nat)
    ensures RoundedSize(size, i) == RoundUp(size, Pow2(i + 1))
  {
    if i > 0 {
      CumulativeRounding(size, i - 1);
      assert Pow2(i + 1) == 2 * Pow2(i);
      RoundUpTwice(size, Pow2(i));
    }
  }

  /**
   * The order-`i` bitmap has two bits for each pair of order-`i` blocks a
   * zone of `size` frames spans, rounded up to whole bytes and then to
   * whole `long`s.
   */
  lemma BitmapBytesExact(size: nat, i: nat)
    ensures BitmapBytes(size, i) == RoundUp(CeilDiv(2 * CeilDiv(size, Pow2(i + 1)), 8), LONG_SIZE)
    ensures BitmapBytes(size, i) * 8 >= 2 * CeilDiv(size, Pow2(i + 1))
  {
    CumulativeRounding(size, i);
    var c := CeilDiv(size, Pow2(i + 1));
    assert RoundedSize(size, i) == c * Pow2(i + 1);
    ShrDouble(c, i);
    var bytes := CeilDiv(2 * c, 8);
    assert bytes * 8 >= 2 * c;
  }

  /** `(c << (i + 1)) >> i == 2c`. */
  lemma ShrDouble(c: nat, i: nat)
    ensures Shr(c * Pow2(i + 1), i) == 2 * c
  {
    var p := Pow2(i);
    assert Pow2(i + 1) == 2 * p;
    assert c * (2 * p) == (2 * c) * p;
    ShrDiv(c * Pow2(i + 1), i);
    DivModUnique((2 * c) * p, p, 2 * c, 0);
  }

  // ---------------------------------------------------------------------
  // Zone lists

  /** Whether request flags `i` carry `flag`. */
  predicate HasFlag(i: nat, flag: bv32)
    requires i < TWO32
  {
    (i as bv32) & flag != 0
  }

  /** The zone a request with flags `i` prefers. */
  function ZoneClass(i: nat): (k: nat)
    requires i < TWO32
    ensures k < MAX_NR_ZONES
  {
    if HasFlag(i, GFP_DMA) then ZONE_DMA else if HasFlag(i, GFP_HIGHMEM) then ZONE_HIGHMEM else ZONE_NORMAL
  }

  /** The non-empty zones from `k` down to DMA, in that order. */
  function FallbackZones(k: nat, zs: seq<Zone>): seq<nat>
    requires k < |zs|
  {
    (if zs[k].size != 0 then [k] else []) + (if k == 0 then [] else FallbackZones(k - 1, zs))
  }

  /** A fallback list holds exactly the non-empty zones at or below `k`, strictly descending. */
  lemma FallbackOrdered(k: nat, zs: seq<Zone>)
    requires k < |zs|
    ensures forall z: nat :: z in FallbackZones(k, zs) <==> z <= k && zs[z].size != 0
    ensures forall n, m :: 0 <= n < m < |FallbackZones(k, zs)| ==> FallbackZones(k, zs)[n] > FallbackZones(k, zs)[m]
  {
    FallbackMembers(k, zs);
    FallbackDescending(k, zs);
  }

  lemma FallbackMembers(k: nat, zs: seq<Zone>)
    requires k < |zs|
    ensures forall z: nat :: z in FallbackZones(k, zs) <==> z <= k && zs[z].size != 0
  {
    forall z: nat
      ensures z in FallbackZones(k, zs) <==> z <= k && zs[z].size != 0
    {
      FallbackHas(k, zs, z);
    }
  }

  /** Zone `z` is on the fallback list from `k` exactly when it is at or below `k` and not empty. */
  lemma {:induction false} FallbackHas(k: nat, zs: seq<Zone>, z: nat)
    requires k < |zs|
    ensures z in FallbackZones(k, zs) <==> z <= k && zs[z].size != 0
  {
    var h: seq<nat> := if zs[k].size != 0 then [k] else [];
    if k > 0 {
      FallbackHas(k - 1, zs, z);
      HeadOrTail(h, FallbackZones(k - 1, zs), k, z, zs[k].size != 0, z <= k - 1 && zs[z].size != 0);
      assert FallbackZones(k, zs) == h + FallbackZones(k - 1, zs);
    } else {
      HeadOrTail(h, [], k, z, zs[k].size != 0, false);
      assert FallbackZones(k, zs) == h + [];
    }
  }

  /** `z` is in `k` (when present) followed by `t` exactly when it is `k` or in `t`. */
  lemma HeadOrTail(h: seq<nat>, t: seq<nat>, k: nat, z: nat, here: bool, below: bool)
    requires h == if here then [k] else []
    requires z in t <==> below
    requires below ==> z < k
    ensures z in h + t <==> (z == k && here) || below
  {
    assert z in h + t <==> z in h || z in t;
  }

  lemma {:induction false} FallbackDescending(k: nat, zs: seq<Zone>)
    requires k < |zs|
    ensures forall z :: z in FallbackZones(k, zs) ==> z <= k
    ensures forall n, m :: 0 <= n < m < |FallbackZones(k, zs)| ==> FallbackZones(k, zs)[n] > FallbackZones(k, zs)[m]
  {
    var l := FallbackZones(k, zs);
    var h: seq<nat> := if zs[k].size != 0 then [k] else [];
    if k == 0 {
      assert l == h + [];
    } else {
      FallbackDescending(k - 1, zs);
      var t := FallbackZones(k - 1, zs);
      assert l == h + t;
      DescendingCons(h, t, k);
    }
  }

  /** Putting `k` (or nothing) before a strictly descending list of numbers below `k` keeps it strictly descending. */
  lemma DescendingCons(h: seq<nat>, t: seq<nat>, k: nat)
    requires h == [] || h == [k]
    requires forall z :: z in t ==> z < k
    requires forall n, m :: 0 <= n < m < |t| ==> t[n] > t[m]
    ensures forall z :: z in h + t ==> z <= k
    ensures forall n, m :: 0 <= n < m < |h + t| ==> (h + t)[n] > (h + t)[m]
  {
    var l := h + t;
    forall z | z in l
      ensures z <= k
    {
      assert z in h || z in t;
    }
    forall n, m | 0 <= n < m < |l|
      ensures l[n] > l[m]
    {
      assert l[m] == t[m - |h|];
      if n < |h| {
        assert t[m - |h|] in t;
      } else {
        assert l[n] == t[n - |h|];
      }
    }
  }

  /**
   * With the high-memory bit 0, a DMA request falls back on nothing but
   * DMA, and every other request tries Normal and then DMA; empty zones are
   * left out.
   */
  lemma ZonelistShape(i: nat, zs: seq<Zone>)
    requires i < TWO32 && |zs| == MAX_NR_ZONES
    ensures HasFlag(i, GFP_DMA) ==>
      FallbackZones(ZoneClass(i), zs) == (if zs[ZONE_DMA].size != 0 then [ZONE_DMA] else [])
    ensures !HasFlag(i, GFP_DMA) ==>
      FallbackZones(ZoneClass(i), zs) ==
        (if zs[ZONE_NORMAL].size != 0 then [ZONE_NORMAL] else []) + (if zs[ZONE_DMA].size != 0 then [ZONE_DMA] else [])
  {
    assert !HasFlag(i, GFP_HIGHMEM);
    if !HasFlag(i, GFP_DMA) {
      assert FallbackZones(ZONE_DMA, zs) == (if zs[ZONE_DMA].size != 0 then [ZONE_DMA] else []) + [];
    }
  }

  // ---------------------------------------------------------------------
  // Buddy coalescing

  /** The page-flag state that forbids freeing a page: it is still owned. */
  predicate Busy(p: Page) {
    p.buffers || p.mapping || p.swapCache || p.locked || p.decrAfter ||
    p.active || p.inactiveDirty || p.inactiveClean
  }

  /** A page as `__free_pages_ok` leaves it: referenced and dirty cleared, age reset. */
  function Released(p: Page): Page {
    p.(referenced := false, dirty := false, age := PAGE_AGE_START)
  }

  /** `page_idx ^ (1 << o)`, the buddy of the order-`o` block at `idx`, for `idx` a multiple of `2^o`. */
  function Buddy(idx: nat, o: nat): nat {
    if Shr(idx, o) % 2 == 0 then idx + Pow2(o)
    else
      ShrPositive(idx, o);
      idx - Pow2(o)
  }

  lemma ShrPositive(x: nat, i: nat)
    requires Shr(x, i) > 0
    ensures x >= Pow2(i)
  {
    ShrDiv(x, i);
    DivModBasics(x, Pow2(i));
    MulAtLeast(Shr(x, i), Pow2(i));
  }

  /**
   * `BAD_RANGE(zone, mem_map + x)`: the descriptor `x` is outside the zone
   * or names another zone. The range is tested first, so that only
   * descriptors of the zone are read; one past the end of `mem_map`, which
   * a zone set up inside the map never reaches, counts as out of range.
   */
  predicate BadRange(z: Zone, mm: seq<Page>, zi: nat, x: nat) {
    x < z.offset || x >= z.offset + z.size || x >= |mm| || mm[x].zone != Some(zi)
  }

  /** Drop `x` from a free list (`list_del` of its entry). */
  function Remove(s: seq<nat>, x: nat): seq<nat> {
    if |s| == 0 then [] else (if s[0] == x then [] else [s[0]]) + Remove(s[1..], x)
  }

  /** Flip bit `n` of the order-`o` bitmap. */
  function Toggle(z: Zone, o: nat, n: nat): Zone
    requires o < |z.freeArea| && n < |z.freeArea[o].bitmap|
  {
    z.(freeArea := z.freeArea[o := z.freeArea[o].(bitmap := z.freeArea[o].bitmap[n := !z.freeArea[o].bitmap[n]])])
  }

  /** Take the block at `page` off the order-`o` free list. */
  function Unlink(z: Zone, o: nat, page: nat): Zone
    requires o < |z.freeArea|
  {
    z.(freeArea := z.freeArea[o := z.freeArea[o].(freeList := Remove(z.freeArea[o].freeList, page))])
  }

  /** Put the block at `page` at the head of the order-`o` free list. */
  function AddHead(z: Zone, o: nat, page: nat): Zone
    requires o < |z.freeArea|
  {
    z.(freeArea := z.freeArea[o := z.freeArea[o].(freeList := [page] + z.freeArea[o].freeList)])
  }

  /** A zone with a free area per order whose bitmap has a bit for each pair of blocks. */
  ghost predicate ZoneReady(z: Zone) {
    |z.freeArea| == MAX_ORDER &&
    forall o, x :: 0 <= o < MAX_ORDER && 0 <= x < z.size ==> PairIndex(x, o) < |z.freeArea[o].bitmap|
  }

  /** The bit of the order-`o` bitmap for the block at zone index `idx`: `page_idx >> (1 + order)`. */
  function PairIndex(idx: nat, o: nat): nat {
    Shr(idx, o + 1)
  }

  /** `z'` has the size, position, free count and bitmap sizes of `z`. */
  predicate SameShape(z: Zone, z': Zone) {
    z'.size == z.size && z'.offset == z.offset && z'.freePages == z.freePages &&
    |z'.freeArea| == |z.freeArea| &&
    forall k :: 0 <= k < |z.freeArea| ==> |z'.freeArea[k].bitmap| == |z.freeArea[k].bitmap|
  }

  lemma SameShapeTrans(z: Zone, z': Zone, z'': Zone)
    requires SameShape(z, z') && SameShape(z', z'')
    ensures SameShape(z, z'')
  {
  }

  /** Flipping a bit and editing a free list change neither the zone's shape nor its readiness. */
  lemma EditsKeepShape(z: Zone, o: nat, n: nat, page: nat)
    requires o < |z.freeArea|
    ensures SameShape(z, Unlink(z, o, page)) && SameShape(z, AddHead(z, o, page))
    ensures n < |z.freeArea[o].bitmap| ==> SameShape(z, Toggle(z, o, n))
  {
  }

  /** Bitmap edits and list edits keep a zone ready. */
  lemma ReadyKept(z: Zone, z': Zone)
    requires ZoneReady(z) && SameShape(z, z')
    ensures ZoneReady(z')
  {
  }

  /** Every frame of a zone of `size` frames has its pair's bit in a bitmap sized as `free_area_init_core` sizes it. */
  lemma PairIndexInMap(size: nat, idx: nat, o: nat)
    requires idx < size
    ensures PairIndex(idx, o) < BitmapBytes(size, o) * 8
  {
    var p := Pow2(o + 1);
    var c := CeilDiv(size, p);
    ShrDiv(idx, o + 1);
    DivModBasics(idx, p);
    assert (idx / p) * p <= idx < size <= c * p;
    MulLtCancel(idx / p, c, p);
    BitmapBytesExact(size, o);
  }

  /** A zone whose free areas are freshly set up is ready for the buddy allocator. */
  lemma InitReady(z: Zone)
    requires z.freeArea == InitFreeArea(z.size)
    ensures ZoneReady(z)
  {
    forall o, x | 0 <= o < MAX_ORDER && 0 <= x < z.size
      ensures PairIndex(x, o) < |z.freeArea[o].bitmap|
    {
      PairIndexInMap(z.size, x, o);
    }
  }

  /** `x` rounded down to a multiple of `2^i`, `x & ~((1 << i) - 1)`. */
  function Align(x: nat, i: nat): nat {
    Shr(x, i) * Pow2(i)
  }

  lemma AlignFacts(x: nat, i: nat)
    ensures Align(x, i) <= x && Align(x, i) % Pow2(i) == 0 && x - Align(x, i) < Pow2(i)
    ensures x % Pow2(i) == 0 ==> Align(x, i) == x
  {
    ShrDiv(x, i);
    DivModBasics(x, Pow2(i));
    DivModUnique(Align(x, i), Pow2(i), Shr(x, i), 0);
  }

  /** Dividing by `a` and then by `b` is dividing by `a * b`. */
  lemma DivDiv(x: nat, a: nat, b: nat)
    requires a > 0 && b > 0
    ensures x / (a * b) == (x / a) / b
  {
    var q, r1 := x / a, x % a;
    DivModBasics(x, a);
    var q2, r2 := q / b, q % b;
    DivModBasics(q, b);
    MulNonneg(b - 1 - r2, a);
    assert (b - 1 - r2) * a == b * a - a - r2 * a;
    MulNonneg(r2, a);
    assert x == q2 * (a * b) + (r2 * a + r1) by {
      assert q * a == (q2 * b + r2) * a;
    }
    DivModUnique(x, a * b, q2, r2 * a + r1);
  }

  /** Rounding down to `2^i` and then shifting by `k >= i` is shifting by `k`. */
  lemma AlignAlign(x: nat, i: nat, k: nat)
    requires i <= k
    ensures Shr(Align(x, i), k) == Shr(x, k)
    ensures Align(Align(x, i), k) == Align(x, k)
  {
    var a, b := Pow2(i), Pow2(k - i);
    Pow2Add(i, k - i);
    var q := Shr(x, i);
    var y: nat := Align(x, i);
    ShrDiv(x, i);
    ShrDiv(x, k);
    ShrDiv(y, k);
    assert y == q * a;
    DivDiv(x, a, b);
    DivDiv(y, a, b);
    DivModUnique(y, a, q, 0);
  }

  /**
   * The outcome of freeing a block: fatal, or the zone afterwards with the
   * order and zone-relative index of the block finally put on a free list.
   */
  datatype Outcome = Fatal | Freed(zone: Zone, order: nat, idx: nat)

  /**
   * One pass of the coalescing loop: the block is put on a list (`Stop`),
   * the buddy is out of range (`Fail`), or the block merges with its buddy
   * into the block at `next` one order up (`Merge`).
   */
  datatype Step = Stop(zone: Zone) | Fail | Merge(zone: Zone, next: nat)

  /**
   * One pass from the order-`o` block at zone index `idx`: below the top
   * order, flip the pair's bit; if it was clear the buddy is not free and
   * the block goes on this order's list; if it was set, take the buddy off
   * its list, fatal if the buddy or the block lies outside the zone. At
   * order `MAX_ORDER - 1` the block goes on the list unmerged.
   */
  function StepAt(z: Zone, mm: seq<Page>, zi: nat, idx: nat, o: nat): Step
    requires ZoneReady(z) && idx < z.size && o < MAX_ORDER
  {
    if o == MAX_ORDER - 1 then Stop(AddHead(z, o, z.offset + idx))
    else
      var n := PairIndex(idx, o);
      var z1 := Toggle(z, o, n);
      if !z.freeArea[o].bitmap[n] then Stop(AddHead(z1, o, z.offset + idx))
      else
        var buddy := z.offset + Buddy(idx, o);
        if BadRange(z1, mm, zi, buddy) || BadRange(z1, mm, zi, z.offset + idx) then Fail
        else Merge(Unlink(z1, o, buddy), Align(idx, o + 1))
  }

  /** The order-`k` list after a merge at order `o` has taken `buddy` off the order-`o` list. */
  function MergedList(l: seq<nat>, buddy: nat, o: nat, k: nat): seq<nat> {
    if k == o then Remove(l, buddy) else l
  }

  /** What each edit does to the bitmaps and the free lists, order by order. */
  lemma ListEdits(z: Zone, o: nat, page: nat)
    requires o < |z.freeArea|
    ensures forall k :: 0 <= k < |z.freeArea| ==>
      Unlink(z, o, page).freeArea[k].bitmap == z.freeArea[k].bitmap &&
      AddHead(z, o, page).freeArea[k].bitmap == z.freeArea[k].bitmap &&
      Unlink(z, o, page).freeArea[k].freeList ==
        (if k == o then Remove(z.freeArea[k].freeList, page) else z.freeArea[k].freeList) &&
      AddHead(z, o, page).freeArea[k].freeList ==
        (if k == o then [page] + z.freeArea[k].freeList else z.freeArea[k].freeList)
  {
  }

  lemma ToggleEdits(z: Zone, o: nat, n: nat)
    requires o < |z.freeArea| && n < |z.freeArea[o].bitmap|
    ensures forall k :: 0 <= k < |z.freeArea| ==> Toggle(z, o, n).freeArea[k].freeList == z.freeArea[k].freeList
    ensures forall k, m :: 0 <= k < |z.freeArea| && 0 <= m < |z.freeArea[k].bitmap| ==>
      Toggle(z, o, n).freeArea[k].bitmap[m] == (z.freeArea[k].bitmap[m] != (k == o && m == n))
  {
  }

  /**
   * A pass keeps the zone's shape, flips at most the bit of the block's
   * pair at order `o`, and either puts the block at the head of the
   * order-`o` list or takes its buddy off that list and moves on to the
   * enclosing block of order `o + 1`.
   */
  lemma StepEffect(z: Zone, mm: seq<Page>, zi: nat, idx: nat, o: nat)
    requires ZoneReady(z) && idx < z.size && o < MAX_ORDER && idx % Pow2(o) == 0
    ensures var s := StepAt(z, mm, zi, idx, o);
      (s.Stop? || s.Merge?) ==>
        SameShape(z, s.zone) && ZoneReady(s.zone) &&
        (forall k, m :: 0 <= k < MAX_ORDER && 0 <= m < |z.freeArea[k].bitmap| ==>
          s.zone.freeArea[k].bitmap[m] ==
            (z.freeArea[k].bitmap[m] != (k == o && o < MAX_ORDER - 1 && m == PairIndex(idx, o))))
    ensures var s := StepAt(z, mm, zi, idx, o);
      s.Stop? ==> forall k :: 0 <= k < MAX_ORDER ==>
        s.zone.freeArea[k].freeList ==
          (if k == o then [z.offset + idx] + z.freeArea[k].freeList else z.freeArea[k].freeList)
    ensures var s := StepAt(z, mm, zi, idx, o);
      s.Merge? ==>
        o < MAX_ORDER - 1 && s.next == Align(idx, o + 1) && s.next < z.size && s.next % Pow2(o + 1) == 0 &&
        forall k :: 0 <= k < MAX_ORDER ==>
          s.zone.freeArea[k].freeList == MergedList(z.freeArea[k].freeList, z.offset + Buddy(idx, o), o, k)
  {
    var s := StepAt(z, mm, zi, idx, o);
    if o == MAX_ORDER - 1 {
      TopEffect(z, idx, o);
    } else if !z.freeArea[o].bitmap[PairIndex(idx, o)] {
      StopEffect(z, idx, o);
    } else if s.Merge? {
      MergeEffect(z, idx, o);
    }
  }

  /** A merging pass leaves a zone ready for the pass at the next order. */
  lemma StepReady(z: Zone, mm: seq<Page>, zi: nat, idx: nat, o: nat)
    requires ZoneReady(z) && idx < z.size && o < MAX_ORDER && idx % Pow2(o) == 0
    ensures var s := StepAt(z, mm, zi, idx, o);
      s.Merge? ==> ZoneReady(s.zone) && s.next < s.zone.size && s.next % Pow2(o + 1) == 0
  {
    StepEffect(z, mm, zi, idx, o);
  }

  /** At the top order the block goes on the list and no bit changes. */
  lemma TopEffect(z: Zone, idx: nat, o: nat)
    requires ZoneReady(z) && o == MAX_ORDER - 1
    ensures var z' := AddHead(z, o, z.offset + idx);
      SameShape(z, z') && ZoneReady(z') &&
      (forall k, m :: 0 <= k < MAX_ORDER && 0 <= m < |z.freeArea[k].bitmap| ==>
        z'.freeArea[k].bitmap[m] == z.freeArea[k].bitmap[m]) &&
      forall k :: 0 <= k < MAX_ORDER ==>
        z'.freeArea[k].freeList == (if k == o then [z.offset + idx] + z.freeArea[k].freeList else z.freeArea[k].freeList)
  {
    var z' := AddHead(z, o, z.offset + idx);
    ListEdits(z, o, z.offset + idx);
    EditsKeepShape(z, o, 0, z.offset + idx);
    ReadyKept(z, z');
  }

  /** A block whose buddy is busy flips its pair's bit and goes on the list. */
  lemma StopEffect(z: Zone, idx: nat, o: nat)
    requires ZoneReady(z) && idx < z.size && o < MAX_ORDER - 1
    ensures var n := PairIndex(idx, o);
      var z' := AddHead(Toggle(z, o, n), o, z.offset + idx);
      SameShape(z, z') && ZoneReady(z') &&
      (forall k, m :: 0 <= k < MAX_ORDER && 0 <= m < |z.freeArea[k].bitmap| ==>
        z'.freeArea[k].bitmap[m] == (z.freeArea[k].bitmap[m] != (k == o && m == n))) &&
      forall k :: 0 <= k < MAX_ORDER ==>
        z'.freeArea[k].freeList == (if k == o then [z.offset + idx] + z.freeArea[k].freeList else z.freeArea[k].freeList)
  {
    var n := PairIndex(idx, o);
    var z1 := Toggle(z, o, n);
    var z' := AddHead(z1, o, z.offset + idx);
    ToggleEdits(z, o, n);
    EditsKeepShape(z, o, n, z.offset + idx);
    ListEdits(z1, o, z.offset + idx);
    EditsKeepShape(z1, o, n, z.offset + idx);
    SameShapeTrans(z, z1, z');
    ReadyKept(z, z');
  }

  /** A block whose buddy is free flips its pair's bit, unlinks the buddy and moves on to the enclosing block. */
  lemma MergeEffect(z: Zone, idx: nat, o: nat)
    requires ZoneReady(z) && idx < z.size && o < MAX_ORDER - 1 && idx % Pow2(o) == 0
    ensures var n := PairIndex(idx, o);
      var buddy := z.offset + Buddy(idx, o);
      var z' := Unlink(Toggle(z, o, n), o, buddy);
      SameShape(z, z') && ZoneReady(z') &&
      (forall k, m :: 0 <= k < MAX_ORDER && 0 <= m < |z.freeArea[k].bitmap| ==>
        z'.freeArea[k].bitmap[m] == (z.freeArea[k].bitmap[m] != (k == o && m == n))) &&
      Align(idx, o + 1) < z.size && Align(idx, o + 1) % Pow2(o + 1) == 0 &&
      forall k :: 0 <= k < MAX_ORDER ==> z'.freeArea[k].freeList == MergedList(z.freeArea[k].freeList, buddy, o, k)
  {
    var n := PairIndex(idx, o);
    var buddy := z.offset + Buddy(idx, o);
    var z1 := Toggle(z, o, n);
    var z' := Unlink(z1, o, buddy);
    ToggleEdits(z, o, n);
    EditsKeepShape(z, o, n, buddy);
    ListEdits(z1, o, buddy);
    EditsKeepShape(z1, o, n, buddy);
    SameShapeTrans(z, z1, z');
    ReadyKept(z, z');
    AlignFacts(idx, o + 1);
  }

  /**
   * One pass of the coalescing loop of `__free_pages_ok` below the top
   * order: flip the pair's bit at `index`, and either stop with the block
   * on the order-`o` list, fail a range check, or take the buddy off its
   * list and move up one order.
   */
  method MergePass(z: Zone, mm: seq<Page>, zi: nat, base: nat, idx: nat, o: nat, index: nat, ghost r: Outcome)
    returns (s: Step)
    requires Walk(z, mm, zi, base, idx, o, index, r) && o < MAX_ORDER - 1
    ensures s == StepAt(z, mm, zi, idx, o)
    ensures s.Stop? ==> r == Freed(s.zone, o, idx)
    ensures s.Fail? ==> r == Fatal
    ensures s.Merge? ==> Walk(s.zone, mm, zi, base, s.next, o + 1, index / 2, r)
  {
    var bit := z.freeArea[o].bitmap[index];
    var z1 := Toggle(z, o, index);
    if !bit {
      s := Stop(AddHead(z1, o, base + idx));
    } else {
      var buddy1 := base + Buddy(idx, o);
      var buddy2 := base + idx;
      if BadRange(z1, mm, zi, buddy1) || BadRange(z1, mm, zi, buddy2) {
        s := Fail;
      } else {
        s := Merge(Unlink(z1, o, buddy1), Align(idx, o + 1));
      }
    }
    PassWalk(z, mm, zi, base, idx, o, index, r, s);
  }

  /** Where one pass of the walk leaves the outcome `r` and the loop state. */
  lemma PassWalk(z: Zone, mm: seq<Page>, zi: nat, base: nat, idx: nat, o: nat, index: nat, r: Outcome, s: Step)
    requires Walk(z, mm, zi, base, idx, o, index, r) && o < MAX_ORDER - 1 && s == StepAt(z, mm, zi, idx, o)
    ensures s.Stop? ==> r == Freed(s.zone, o, idx)
    ensures s.Fail? ==> r == Fatal
    ensures s.Merge? ==> Walk(s.zone, mm, zi, base, s.next, o + 1, index / 2, r)
  {
    CoalesceStep(z, mm, zi, idx, o);
    PairIndexUp(idx, o);
  }

  /**
   * The coalescing loop of `__free_pages_ok` from the order-`o` block at
   * zone index `idx`, pass after pass; an order past the free areas is
   * fatal.
   */
  function Coalesce(z: Zone, mm: seq<Page>, zi: nat, idx: nat, o: nat): Outcome
    requires ZoneReady(z) && idx < z.size && idx % Pow2(o) == 0
    decreases MAX_ORDER - o
  {
    if o >= MAX_ORDER then Fatal
    else
      StepReady(z, mm, zi, idx, o);
      match StepAt(z, mm, zi, idx, o)
      case Stop(z1) => Freed(z1, o, idx)
      case Fail => Fatal
      case Merge(z2, next) => Coalesce(z2, mm, zi, next, o + 1)
  }

  /** One pass of the coalescing loop decides the outcome or hands over to the next order. */
  lemma CoalesceStep(z: Zone, mm: seq<Page>, zi: nat, idx: nat, o: nat)
    requires ZoneReady(z) && idx < z.size && idx % Pow2(o) == 0 && o < MAX_ORDER
    ensures var s := StepAt(z, mm, zi, idx, o);
      (s.Stop? ==> Coalesce(z, mm, zi, idx, o) == Freed(s.zone, o, idx)) &&
      (s.Fail? ==> Coalesce(z, mm, zi, idx, o) == Fatal) &&
      (s.Merge? ==>
        ZoneReady(s.zone) && s.next < s.zone.size && s.next % Pow2(o + 1) == 0 &&
        Coalesce(z, mm, zi, idx, o) == Coalesce(s.zone, mm, zi, s.next, o + 1))
  {
    StepEffect(z, mm, zi, idx, o);
  }

  /** The pass at order `MAX_ORDER - 1` puts the block on the top free list without merging. */
  lemma CoalesceAtTop(z: Zone, mm: seq<Page>, zi: nat, idx: nat, o: nat)
    requires ZoneReady(z) && idx < z.size && idx % Pow2(o) == 0 && o == MAX_ORDER - 1
    ensures Coalesce(z, mm, zi, idx, o) == Freed(AddHead(z, o, z.offset + idx), o, idx)
  {
  }

  /**
   * The state of the coalescing loop of `__free_pages_ok` at order `o`:
   * the block at zone index `idx` with pair bit `index`, on a zone whose
   * walk from here ends in `r`.
   */
  ghost predicate Walk(z: Zone, mm: seq<Page>, zi: nat, base: nat, idx: nat, o: nat, index: nat, r: Outcome) {
    o < MAX_ORDER && ZoneReady(z) && z.offset == base && idx < z.size && idx % Pow2(o) == 0 &&
    index == PairIndex(idx, o) && Coalesce(z, mm, zi, idx, o) == r
  }

  /** At the top order the walk puts the block on the top free list. */
  lemma TopOutcome(z: Zone, mm: seq<Page>, zi: nat, idx: nat, o: nat, r: Outcome)
    requires Walk(z, mm, zi, z.offset, idx, o, PairIndex(idx, o), r) && o == MAX_ORDER - 1
    ensures r.Freed? && r.zone == AddHead(z, o, z.offset + idx)
  {
    CoalesceAtTop(z, mm, zi, idx, o);
  }

  /** A pass that finds the buddy busy stops with the block on the free list of order `o`. */
  lemma CoalesceStops(z: Zone, mm: seq<Page>, zi: nat, idx: nat, o: nat)
    requires ZoneReady(z) && idx < z.size && idx % Pow2(o) == 0 && o < MAX_ORDER - 1
    requires !z.freeArea[o].bitmap[PairIndex(idx, o)]
    ensures Coalesce(z, mm, zi, idx, o) == Freed(AddHead(Toggle(z, o, PairIndex(idx, o)), o, z.offset + idx), o, idx)
  {
  }

  /** A pass whose buddy or block lies outside the zone ends in `BUG()`. */
  lemma CoalesceBadRange(z: Zone, mm: seq<Page>, zi: nat, idx: nat, o: nat)
    requires ZoneReady(z) && idx < z.size && idx % Pow2(o) == 0 && o < MAX_ORDER - 1
    requires z.freeArea[o].bitmap[PairIndex(idx, o)]
    requires var z1 := Toggle(z, o, PairIndex(idx, o));
      BadRange(z1, mm, zi, z.offset + Buddy(idx, o)) || BadRange(z1, mm, zi, z.offset + idx)
    ensures Coalesce(z, mm, zi, idx, o) == Fatal
  {
  }

  /** A pass that merges with a free buddy goes on one order up with the buddy unlinked. */
  lemma CoalesceMerges(z: Zone, mm: seq<Page>, zi: nat, idx: nat, o: nat)
    requires ZoneReady(z) && idx < z.size && idx % Pow2(o) == 0 && o < MAX_ORDER - 1
    requires z.freeArea[o].bitmap[PairIndex(idx, o)]
    requires var z1 := Toggle(z, o, PairIndex(idx, o));
      !BadRange(z1, mm, zi, z.offset + Buddy(idx, o)) && !BadRange(z1, mm, zi, z.offset + idx)
    ensures var z2 := Unlink(Toggle(z, o, PairIndex(idx, o)), o, z.offset + Buddy(idx, o));
      ZoneReady(z2) && z2.size == z.size && z2.offset == z.offset &&
      Align(idx, o + 1) < z.size && Align(idx, o + 1) % Pow2(o + 1) == 0 &&
      Coalesce(z, mm, zi, idx, o) == Coalesce(z2, mm, zi, Align(idx, o + 1), o + 1)
  {
    StepEffect(z, mm, zi, idx, o);
  }

  /**
   * Coalescing ends with a block of an order from `o` up to `MAX_ORDER - 1`,
   * the one of that order containing the freed block, and leaves the zone's
   * size, position, free count and bitmap sizes alone.
   */
  lemma {:induction false} CoalesceShape(z: Zone, mm: seq<Page>, zi: nat, idx: nat, o: nat)
    requires ZoneReady(z) && idx < z.size && idx % Pow2(o) == 0
    ensures var r := Coalesce(z, mm, zi, idx, o);
      r.Freed? ==>
        o <= r.order < MAX_ORDER && r.idx == Align(idx, r.order) && r.idx < z.size &&
        SameShape(z, r.zone) && ZoneReady(r.zone)
    decreases MAX_ORDER - o
  {
    if o < MAX_ORDER {
      var r := Coalesce(z, mm, zi, idx, o);
      StepEffect(z, mm, zi, idx, o);
      CoalesceStep(z, mm, zi, idx, o);
      AlignFacts(idx, o);
      var s := StepAt(z, mm, zi, idx, o);
      if s.Merge? {
        CoalesceShape(s.zone, mm, zi, s.next, o + 1);
        if r.Freed? {
          AlignAlign(idx, o + 1, r.order);
          SameShapeTrans(z, s.zone, r.zone);
        }
      }
    }
  }

  /** Whether coalescing from order `o` up to order `top` flips bit `n` of the order-`k` bitmap. */
  predicate Flipped(o: nat, top: nat, idx: nat, k: nat, n: nat) {
    o <= k <= top && k < MAX_ORDER - 1 && n == PairIndex(idx, k)
  }

  /** The order-`k` free list after coalescing from order `o` up to order `top`. */
  function ListAfter(l: seq<nat>, offset: nat, o: nat, top: nat, idx: nat, k: nat): seq<nat> {
    if o <= k < top then Remove(l, offset + Buddy(Align(idx, k), k))
    else if k == top then [offset + Align(idx, top)] + l
    else l
  }

  /** Flips from order `o` are the flip at `o` and the flips from `o + 1` of the enclosing block. */
  lemma FlippedStep(o: nat, top: nat, idx: nat, k: nat, n: nat)
    requires o < top && o < MAX_ORDER - 1
    ensures Flipped(o, top, idx, k, n) == ((k == o && n == PairIndex(idx, o)) || Flipped(o + 1, top, Align(idx, o + 1), k, n))
  {
    if k >= o + 1 {
      AlignAlign(idx, o + 1, k + 1);
    }
  }

  /** The lists from order `o` are the buddy's removal at `o` and the lists from `o + 1` of the enclosing block. */
  lemma ListAfterStep(l: seq<nat>, ls: seq<nat>, offset: nat, o: nat, top: nat, idx: nat, k: nat)
    requires o < top && idx % Pow2(o) == 0
    requires ls == MergedList(l, offset + Buddy(idx, o), o, k)
    ensures ListAfter(ls, offset, o + 1, top, Align(idx, o + 1), k) == ListAfter(l, offset, o, top, idx, k)
  {
    if k == o {
      AlignFacts(idx, o);
      assert Align(idx, o) == idx;
    } else if k > o {
      AlignAlign(idx, o + 1, k);
      assert ls == l;
    }
  }

  /** Composing the flip at order `o` with the flips from order `o + 1` gives the flips from order `o`. */
  lemma BitsCompose(za: seq<FreeArea>, sa: seq<FreeArea>, ra: seq<FreeArea>, o: nat, top: nat, idx: nat)
    requires |za| == |sa| == |ra| == MAX_ORDER && o < top && o < MAX_ORDER - 1
    requires forall k :: 0 <= k < MAX_ORDER ==> |sa[k].bitmap| == |za[k].bitmap| && |ra[k].bitmap| == |za[k].bitmap|
    requires forall k, m :: 0 <= k < MAX_ORDER && 0 <= m < |za[k].bitmap| ==>
      sa[k].bitmap[m] == (za[k].bitmap[m] != (k == o && m == PairIndex(idx, o)))
    requires forall k, m :: 0 <= k < MAX_ORDER && 0 <= m < |sa[k].bitmap| ==>
      ra[k].bitmap[m] == (sa[k].bitmap[m] != Flipped(o + 1, top, Align(idx, o + 1), k, m))
    ensures forall k, m :: 0 <= k < MAX_ORDER && 0 <= m < |za[k].bitmap| ==>
      ra[k].bitmap[m] == (za[k].bitmap[m] != Flipped(o, top, idx, k, m))
  {
    forall k, m | 0 <= k < MAX_ORDER && 0 <= m < |za[k].bitmap|
      ensures ra[k].bitmap[m] == (za[k].bitmap[m] != Flipped(o, top, idx, k, m))
    {
      FlippedStep(o, top, idx, k, m);
    }
  }

  /**
   * Freeing a block flips, at each order it passes through below
   * `MAX_ORDER - 1`, the bit of the pair holding the block, and no other
   * bit.
   */
  lemma {:induction false} CoalesceBits(z: Zone, mm: seq<Page>, zi: nat, idx: nat, o: nat)
    requires ZoneReady(z) && idx < z.size && idx % Pow2(o) == 0
    ensures var r := Coalesce(z, mm, zi, idx, o);
      r.Freed? ==>
        SameShape(z, r.zone) &&
        forall k, n :: 0 <= k < MAX_ORDER && 0 <= n < |z.freeArea[k].bitmap| ==>
          r.zone.freeArea[k].bitmap[n] == (z.freeArea[k].bitmap[n] != Flipped(o, r.order, idx, k, n))
    decreases MAX_ORDER - o
  {
    if o < MAX_ORDER {
      var r := Coalesce(z, mm, zi, idx, o);
      CoalesceShape(z, mm, zi, idx, o);
      StepEffect(z, mm, zi, idx, o);
      CoalesceStep(z, mm, zi, idx, o);
      var s := StepAt(z, mm, zi, idx, o);
      if s.Merge? && r.Freed? {
        CoalesceBits(s.zone, mm, zi, s.next, o + 1);
        CoalesceShape(s.zone, mm, zi, s.next, o + 1);
        BitsCompose(z.freeArea, s.zone.freeArea, r.zone.freeArea, o, r.order, idx);
      }
    }
  }

  /**
   * Freeing a block takes the buddy it merges with off the free list of
   * each order it passes through, puts the final block at the head of the
   * final order's list, and leaves every other list alone.
   */
  lemma CoalesceLists(z: Zone, mm: seq<Page>, zi: nat, idx: nat, o: nat)
    requires ZoneReady(z) && idx < z.size && idx % Pow2(o) == 0
    ensures var r := Coalesce(z, mm, zi, idx, o);
      r.Freed? ==>
        |r.zone.freeArea| == MAX_ORDER &&
        forall k :: 0 <= k < MAX_ORDER ==>
          r.zone.freeArea[k].freeList == ListAfter(z.freeArea[k].freeList, z.offset, o, r.order, idx, k)
  {
    CoalesceShape(z, mm, zi, idx, o);
    forall k | 0 <= k < MAX_ORDER
      ensures var r := Coalesce(z, mm, zi, idx, o);
        r.Freed? ==> r.zone.freeArea[k].freeList == ListAfter(z.freeArea[k].freeList, z.offset, o, r.order, idx, k)
    {
      CoalesceListAt(z, mm, zi, idx, o, k);
    }
  }

  /** What one pass does to the order-`k` free list. */
  lemma StepListAt(z: Zone, mm: seq<Page>, zi: nat, idx: nat, o: nat, k: nat)
    requires ZoneReady(z) && idx < z.size && o < MAX_ORDER && idx % Pow2(o) == 0 && k < MAX_ORDER
    ensures var s := StepAt(z, mm, zi, idx, o);
      (s.Stop? ==>
        k < |s.zone.freeArea| &&
        s.zone.freeArea[k].freeList ==
          (if k == o then [z.offset + idx] + z.freeArea[k].freeList else z.freeArea[k].freeList)) &&
      (s.Merge? ==>
        s.zone.offset == z.offset && s.next == Align(idx, o + 1) && k < |s.zone.freeArea| &&
        s.zone.freeArea[k].freeList == MergedList(z.freeArea[k].freeList, z.offset + Buddy(idx, o), o, k))
  {
    StepEffect(z, mm, zi, idx, o);
  }

  /** A block put on the order-`o` list unmerged heads the list `ListAfter` gives for order `o`. */
  lemma StopListAt(z: Zone, z': Zone, idx: nat, o: nat, k: nat)
    requires idx % Pow2(o) == 0 && k < |z.freeArea| && k < |z'.freeArea|
    requires z'.freeArea[k].freeList ==
      (if k == o then [z.offset + idx] + z.freeArea[k].freeList else z.freeArea[k].freeList)
    ensures z'.freeArea[k].freeList == ListAfter(z.freeArea[k].freeList, z.offset, o, o, idx, k)
  {
    AlignFacts(idx, o);
  }

  /** A pass that merges: the lists after it and the passes from `o + 1` are the lists from order `o`. */
  lemma {:induction false} CoalesceListMerge(z: Zone, mm: seq<Page>, zi: nat, idx: nat, o: nat, k: nat)
    requires ZoneReady(z) && idx < z.size && idx % Pow2(o) == 0 && k < MAX_ORDER && o < MAX_ORDER
    requires StepAt(z, mm, zi, idx, o).Merge?
    ensures var r := Coalesce(z, mm, zi, idx, o);
      r.Freed? ==>
        k < |r.zone.freeArea| &&
        r.zone.freeArea[k].freeList == ListAfter(z.freeArea[k].freeList, z.offset, o, r.order, idx, k)
    decreases MAX_ORDER - o, 0
  {
    CoalesceStep(z, mm, zi, idx, o);
    StepListAt(z, mm, zi, idx, o, k);
    var s := StepAt(z, mm, zi, idx, o);
    CoalesceListAt(s.zone, mm, zi, s.next, o + 1, k);
    CoalesceShape(s.zone, mm, zi, s.next, o + 1);
    MergeListAt(Coalesce(z, mm, zi, idx, o), z.freeArea[k].freeList, s.zone.freeArea[k].freeList, z.offset, idx, o, k);
  }

  /** The order-`k` list after a merge at order `o` and the passes from `o + 1` is the list from order `o`. */
  lemma MergeListAt(r: Outcome, l: seq<nat>, ls: seq<nat>, offset: nat, idx: nat, o: nat, k: nat)
    requires idx % Pow2(o) == 0 && ls == MergedList(l, offset + Buddy(idx, o), o, k)
    requires r.Freed? ==>
      o + 1 <= r.order && k < |r.zone.freeArea| &&
      r.zone.freeArea[k].freeList == ListAfter(ls, offset, o + 1, r.order, Align(idx, o + 1), k)
    ensures r.Freed? ==>
      k < |r.zone.freeArea| && r.zone.freeArea[k].freeList == ListAfter(l, offset, o, r.order, idx, k)
  {
    if r.Freed? {
      ListAfterStep(l, ls, offset, o, r.order, idx, k);
    }
  }

  /** `CoalesceLists` for the order-`k` list alone, by induction over the passes. */
  lemma {:induction false} CoalesceListAt(z: Zone, mm: seq<Page>, zi: nat, idx: nat, o: nat, k: nat)
    requires ZoneReady(z) && idx < z.size && idx % Pow2(o) == 0 && k < MAX_ORDER
    ensures var r := Coalesce(z, mm, zi, idx, o);
      r.Freed? ==>
        k < |r.zone.freeArea| &&
        r.zone.freeArea[k].freeList == ListAfter(z.freeArea[k].freeList, z.offset, o, r.order, idx, k)
    decreases MAX_ORDER - o, 1
  {
    if o < MAX_ORDER {
      CoalesceStep(z, mm, zi, idx, o);
      StepListAt(z, mm, zi, idx, o, k);
      var s := StepAt(z, mm, zi, idx, o);
      if s.Stop? {
        StopListAt(z, s.zone, idx, o, k);
      } else if s.Merge? {
        CoalesceListMerge(z, mm, zi, idx, o, k);
      }
    }
  }

  // ---------------------------------------------------------------------
  // Shifts and sums used by the loops below

  /** One more shift halves. */
  lemma ShrSucc(x: nat, i: nat)
    ensures Shr(x, i + 1) == Shr(x, i) / 2
  {
    ShrDiv(x, i + 1);
    ShrDiv(x, i);
    DivDiv(x, Pow2(i), 2);
  }

  /** Merging moves the pair bit one order up: `index >>= 1` after `page_idx &= mask`. */
  lemma PairIndexUp(x: nat, o: nat)
    ensures PairIndex(Align(x, o + 1), o + 1) == PairIndex(x, o) / 2
  {
    AlignAlign(x, o + 1, o + 2);
    ShrSucc(x, o + 1);
  }

  // ---------------------------------------------------------------------
  // Node set-up

  /** A page descriptor as the boot allocator hands it out: zero-filled. */
  const ZERO_PAGE := Page(0, false, false, false, false, false, false, false, false, false, false, false, 0, 0, None)

  /**
   * Zone `j` of a node once `free_area_init_core` has set it up from
   * `z`: its size, name and counters always; a non-empty zone also gets
   * its place in `mem_map`, its watermarks, the physical address of its
   * first frame and fresh free areas.
   */
  function ZoneAfterInit(z: Zone, sizes: seq<nat>, holes: Option<seq<nat>>, start: nat, j: nat): Zone
    requires |sizes| == MAX_NR_ZONES && (holes.Some? ==> |holes.value| == MAX_NR_ZONES) && j < MAX_NR_ZONES
  {
    var z1 := z.(size := sizes[j], name := ZONE_NAMES[j], freePages := 0, inactiveCleanPages := 0, inactiveDirtyPages := 0);
    if sizes[j] == 0 then z1
    else
      var m := Mask(RealSize(sizes, holes, j), j);
      var offset := ZoneOffset(sizes, j);
      z1.(offset := offset, pagesMin := m, pagesLow := 2 * m, pagesHigh := 3 * m,
          zoneStartMapnr := offset, zoneStartPaddr := start + offset * PAGE_SIZE,
          freeArea := InitFreeArea(sizes[j]))
  }

  /**
   * Frame `p` of a node after set-up: no users, reserved, in its zone and,
   * below high memory, mapped at the kernel address of its physical frame.
   */
  function PageAfterInit(sizes: seq<nat>, start: nat, p: nat): Page
    requires |sizes| == MAX_NR_ZONES
  {
    var j := ZoneOf(sizes, p);
    ZERO_PAGE.(reserved := true, zone := Some(j), virtual := if j != ZONE_HIGHMEM then Va(start + p * PAGE_SIZE) else 0)
  }

  /** The frames from zone `j`'s offset up to the next zone's are zone `j`'s. */
  lemma ZoneOfAt(sizes: seq<nat>, j: nat, p: nat)
    requires |sizes| == MAX_NR_ZONES && j < MAX_NR_ZONES
    requires ZoneOffset(sizes, j) <= p < ZoneOffset(sizes, j + 1)
    ensures ZoneOf(sizes, p) == j
  {
    assert ZoneOffset(sizes, 1) == sizes[0];
    assert ZoneOffset(sizes, 2) == sizes[0] + sizes[1];
  }

  /**
   * After set-up every frame of the node names a non-empty zone whose
   * range holds it, inside the node's page map, and whose bitmaps have a
   * bit for every pair of its blocks: what the free path needs of a page.
   */
  lemma InitPagesInZones(z: Zone, sizes: seq<nat>, holes: Option<seq<nat>>, start: nat, p: nat)
    requires |sizes| == MAX_NR_ZONES && (holes.Some? ==> |holes.value| == MAX_NR_ZONES)
    requires p < TotalPages(sizes)
    ensures var j := ZoneOf(sizes, p);
      var zj := ZoneAfterInit(z, sizes, holes, start, j);
      PageAfterInit(sizes, start, p).zone == Some(j) &&
      zj.size > 0 && zj.offset <= p < zj.offset + zj.size && zj.offset + zj.size <= TotalPages(sizes) &&
      ZoneReady(zj)
  {
    var j := ZoneOf(sizes, p);
    ZoneOfInRange(sizes, p);
    assert ZoneOffset(sizes, 1) == sizes[0];
    assert ZoneOffset(sizes, 2) == sizes[0] + sizes[1];
    assert TotalPages(sizes) == ZoneOffset(sizes, 3) == sizes[0] + sizes[1] + sizes[2];
    InitReady(ZoneAfterInit(z, sizes, holes, start, j));
  }

  /** A non-empty zone's watermarks after set-up: `min <= low <= high`, each a multiple of the clamped unit. */
  lemma InitWatermarks(z: Zone, sizes: seq<nat>, holes: Option<seq<nat>>, start: nat, j: nat)
    requires |sizes| == MAX_NR_ZONES && (holes.Some? ==> |holes.value| == MAX_NR_ZONES) && j < MAX_NR_ZONES
    requires sizes[j] > 0
    ensures var zj := ZoneAfterInit(z, sizes, holes, start, j);
      ZONE_BALANCE_MIN[j] <= zj.pagesMin <= ZONE_BALANCE_MAX[j] &&
      zj.pagesLow == 2 * zj.pagesMin && zj.pagesHigh == 3 * zj.pagesMin &&
      zj.pagesMin < zj.pagesLow < zj.pagesHigh
  {
    MaskRanges(RealSize(sizes, holes, j), j);
  }

  /**
   * `build_zonelists`: for every allocation-flag value `i`, the zones to
   * try, from the preferred one down to DMA, skipping empty ones (the
   * `switch` falls through from case to case).
   */
  method BuildZonelists(pgdat: Node)
    requires pgdat.nodeZones.Length == MAX_NR_ZONES && pgdat.nodeZonelists.Length == NR_GFPINDEX
    modifies pgdat.nodeZonelists
    ensures forall i :: 0 <= i < NR_GFPINDEX ==>
      pgdat.nodeZonelists[i] == Zonelist(i, FallbackZones(ZoneClass(i), pgdat.nodeZones[..]))
  {
    var i := 0;
    while i < NR_GFPINDEX
      invariant 0 <= i <= NR_GFPINDEX
      invariant forall i' :: 0 <= i' < i ==>
        pgdat.nodeZonelists[i'] == Zonelist(i', FallbackZones(ZoneClass(i'), pgdat.nodeZones[..]))
    {
      var k := ZONE_NORMAL;
      if HasFlag(i, GFP_HIGHMEM) {
        k := ZONE_HIGHMEM;
      }
      if HasFlag(i, GFP_DMA) {
        k := ZONE_DMA;
      }
      var highSize := pgdat.nodeZones[ZONE_HIGHMEM].size;
      var zones: seq<nat> := [];
      if k == ZONE_HIGHMEM && highSize != 0 {
        zones := zones + [ZONE_HIGHMEM];
      }
      if k >= ZONE_NORMAL && pgdat.nodeZones[ZONE_NORMAL].size != 0 {
        zones := zones + [ZONE_NORMAL];
      }
      if pgdat.nodeZones[ZONE_DMA].size != 0 {
        zones := zones + [ZONE_DMA];
      }
      ghost var zs := pgdat.nodeZones[..];
      assert FallbackZones(ZONE_DMA, zs) == (if zs[ZONE_DMA].size != 0 then [ZONE_DMA] else []) + [];
      assert k == ZoneClass(i);
      pgdat.nodeZonelists[i] := Zonelist(i, zones);
      i := i + 1;
    }
  }

  /** The bitmaps of a new zone of `size` frames: the loop over the orders, rounding the size up order by order. */
  method BuildFreeArea(size: nat) returns (areas: seq<FreeArea>)
    ensures areas == InitFreeArea(size)
  {
    var rounded := size;
    var i := 0;
    areas := [];
    while i < MAX_ORDER
      invariant 0 <= i <= MAX_ORDER && |areas| == i
      invariant rounded == if i == 0 then size else RoundedSize(size, i - 1)
      invariant areas == InitFreeArea(size)[..i]
    {
      // `mask += mask; size = (size + ~mask) & mask`: up to a multiple of `2^(i+1)`
      RoundedStep(size, i, rounded);
      rounded := RoundUp(rounded, Pow2(i + 1));
      var bitmapBytes := LongAlign((Shr(rounded, i) + 7) / 8);
      InitAreaAt(size, i, bitmapBytes);
      areas := areas + [FreeArea([], seq(bitmapBytes * 8, _ => false))];
      i := i + 1;
    }
    assert InitFreeArea(size)[..i] == InitFreeArea(size);
  }

  /** One more pass of the rounding loop rounds the size for order `i`. */
  lemma RoundedStep(size: nat, i: nat, rounded: nat)
    requires rounded == if i == 0 then size else RoundedSize(size, i - 1)
    ensures RoundUp(rounded, Pow2(i + 1)) == RoundedSize(size, i)
  {
    if i == 0 {
      assert Pow2(1) == 2;
    }
  }

  /** The order-`i` free area of a fresh zone has a clear bitmap of `bitmapBytes` bytes. */
  lemma InitAreaAt(size: nat, i: nat, bitmapBytes: nat)
    requires i < MAX_ORDER && bitmapBytes == BitmapBytes(size, i)
    ensures InitFreeArea(size)[..i + 1] == InitFreeArea(size)[..i] + [FreeArea([], seq(bitmapBytes * 8, _ => false))]
  {
    assert InitFreeArea(size)[i] == FreeArea([], seq(bitmapBytes * 8, _ => false));
  }

  /** The sum of the first `j` free counts of a node's zones. */
  function ZonesFree(zs: seq<Zone>, j: nat): nat
    requires j <= |zs|
  {
    if j == 0 then 0 else ZonesFree(zs, j - 1) + zs[j - 1].freePages
  }

  /** `nodes` is the list `head`, `node_next`, ... up to the `NULL` that ends it. */
  ghost predicate NodeList(head: Node?, nodes: seq<Node>)
    reads set n | n in nodes
  {
    (if |nodes| == 0 then head == null else head == nodes[0] && nodes[|nodes| - 1].nodeNext == null) &&
    forall k :: 0 <= k < |nodes| - 1 ==> nodes[k].nodeNext == nodes[k + 1]
  }

  /** The free pages of all zones of the nodes, without wrap-around. */
  ghost function FreeSum(nodes: seq<Node>): nat
    requires forall n :: n in nodes ==> n.nodeZones.Length == MAX_NR_ZONES
    reads set n | n in nodes :: n.nodeZones
  {
    if |nodes| == 0 then 0
    else FreeSum(nodes[..|nodes| - 1]) + ZonesFree(nodes[|nodes| - 1].nodeZones[..], MAX_NR_ZONES)
  }

  lemma FreeSumStep(nodes: seq<Node>, k: nat)
    requires k < |nodes| && forall n :: n in nodes ==> n.nodeZones.Length == MAX_NR_ZONES
    ensures FreeSum(nodes[..k + 1]) == FreeSum(nodes[..k]) + ZonesFree(nodes[k].nodeZones[..], MAX_NR_ZONES)
  {
    assert nodes[..k + 1][..k] == nodes[..k];
  }

  /** The inner loop of `nr_free_pages`: add one node's zone free counts to `sum`, an `unsigned int`. */
  method AddZonesFree(sum: nat, ghost before: nat, zones: array<Zone>) returns (sum': nat)
    requires sum == U32(before) && zones.Length == MAX_NR_ZONES
    ensures sum' == U32(before + ZonesFree(zones[..], MAX_NR_ZONES))
  {
    sum' := sum;
    var j := 0;
    while j < MAX_NR_ZONES
      invariant 0 <= j <= MAX_NR_ZONES
      invariant sum' == U32(before + ZonesFree(zones[..], j))
    {
      U32Add(before + ZonesFree(zones[..], j), zones[j].freePages);
      sum' := U32(sum' + zones[j].freePages);
      j := j + 1;
    }
  }

  /** `nr_free_pages`: the free pages of every zone of every node, in an `unsigned int`. */
  method NrFreePages(pgdatList: Node?, ghost nodes: seq<Node>) returns (sum: nat)
    requires NodeList(pgdatList, nodes)
    requires forall n :: n in nodes ==> n.nodeZones.Length == MAX_NR_ZONES
    ensures sum == U32(FreeSum(nodes))
  {
    sum := 0;
    var pgdat := pgdatList;
    ghost var k := 0;
    while pgdat != null
      invariant 0 <= k <= |nodes|
      invariant if k < |nodes| then pgdat == nodes[k] else pgdat == null
      invariant sum == U32(FreeSum(nodes[..k]))
      decreases |nodes| - k
    {
      sum := AddZonesFree(sum, FreeSum(nodes[..k]), pgdat.nodeZones);
      FreeSumStep(nodes, k);
      pgdat := pgdat.nodeNext;
      k := k + 1;
    }
    assert nodes[..k] == nodes;
  }

  // ---------------------------------------------------------------------
  // Freeing

  /**
   * What `__free_pages_ok` does with the order-`order` block whose first
   * frame is `page` of `mem_map` `mm`, in zone `z` (number `zi`): a page
   * still in use, past `max_mapnr` or not aligned to the order is fatal;
   * otherwise the zone's free count grows by the block (in an `unsigned
   * long`), the page is released and the block is coalesced.
   */
  function FreeBlock(mm: seq<Page>, maxMapnr: nat, z: Zone, zi: nat, page: nat, order: nat): Outcome
    requires ZoneReady(z) && page < |mm| && z.offset <= page < z.offset + z.size
  {
    if Refused(mm[page], page, maxMapnr, page - z.offset, order) then Fatal
    else
      CreditedReady(z, order);
      Coalesce(Credited(z, order), mm[page := Released(mm[page])], zi, page - z.offset, order)
  }

  /** `FreeBlock` as the free path walks it: the checks, then the coalescing from the credited zone. */
  lemma FreeBlockUnfold(mm: seq<Page>, maxMapnr: nat, z: Zone, zi: nat, page: nat, order: nat)
    requires ZoneReady(z) && page < |mm| && z.offset <= page < z.offset + z.size
    ensures ZoneReady(Credited(z, order))
    ensures FreeBlock(mm, maxMapnr, z, zi, page, order) ==
      if Refused(mm[page], page, maxMapnr, page - z.offset, order) then Fatal
      else Coalesce(Credited(z, order), mm[page := Released(mm[page])], zi, page - z.offset, order)
  {
    CreditedReady(z, order);
  }

  /** A block the checks refuse ends in `BUG()`. */
  lemma FreeBlockRefused(mm: seq<Page>, maxMapnr: nat, z: Zone, zi: nat, page: nat, order: nat)
    requires ZoneReady(z) && page < |mm| && z.offset <= page < z.offset + z.size
    requires Refused(mm[page], page, maxMapnr, page - z.offset, order)
    ensures FreeBlock(mm, maxMapnr, z, zi, page, order) == Fatal
  {
  }

  /** A block the checks accept is coalesced from the credited zone, with its page released in `mm1`. */
  lemma FreeBlockPasses(mm: seq<Page>, maxMapnr: nat, z: Zone, zi: nat, page: nat, order: nat, mm1: seq<Page>)
    requires ZoneReady(z) && page < |mm| && z.offset <= page < z.offset + z.size
    requires !Refused(mm[page], page, maxMapnr, page - z.offset, order)
    requires mm1 == mm[page := Released(mm[page])]
    ensures ZoneReady(Credited(z, order))
    ensures FreeBlock(mm, maxMapnr, z, zi, page, order) == Coalesce(Credited(z, order), mm1, zi, page - z.offset, order)
  {
    CreditedReady(z, order);
  }

  /** The checks before freeing: the page is in use, past `max_mapnr`, or not aligned to the order. */
  predicate Refused(p: Page, page: nat, maxMapnr: nat, idx: nat, order: nat) {
    Busy(p) || page >= maxMapnr || idx % Pow2(order) != 0
  }

  /** The zone with the freed block counted free, in an `unsigned long`. */
  function Credited(z: Zone, order: nat): Zone {
    z.(freePages := U32(z.freePages + Pow2(order)))
  }

  lemma CreditedReady(z: Zone, order: nat)
    requires ZoneReady(z)
    ensures ZoneReady(Credited(z, order))
  {
    assert SameShape(z, Credited(z, order).(freePages := z.freePages));
  }

  /**
   * A block is freed only when its page is not in use, lies below
   * `max_mapnr` and is aligned to the order; it ends up merged into the
   * block of some order `top` that contains it, and the zone's free count
   * grows by the freed block, wrapping like an `unsigned long`.
   */
  lemma FreeBlockAccepted(mm: seq<Page>, maxMapnr: nat, z: Zone, zi: nat, page: nat, order: nat)
    requires ZoneReady(z) && page < |mm| && z.offset <= page < z.offset + z.size
    ensures var r := FreeBlock(mm, maxMapnr, z, zi, page, order);
      r.Freed? ==> !Refused(mm[page], page, maxMapnr, page - z.offset, order)
    ensures FreedShape(FreeBlock(mm, maxMapnr, z, zi, page, order), z, page - z.offset, order)
  {
    if !Refused(mm[page], page, maxMapnr, page - z.offset, order) {
      var mm1 := mm[page := Released(mm[page])];
      FreeBlockPasses(mm, maxMapnr, z, zi, page, order, mm1);
      OutcomeShape(z, mm1, zi, page - z.offset, order);
    } else {
      FreeBlockRefused(mm, maxMapnr, z, zi, page, order);
    }
  }

  /**
   * The zone after a free that ended in `r`, against the zone `z` before
   * it, for the block at zone index `idx` of order `order`: the merged
   * block has an order from `order` up and is the aligned block holding
   * `idx`; the zone keeps its size, place and readiness, and its free
   * count has grown by the block, wrapping like an `unsigned long`.
   */
  ghost predicate FreedShape(r: Outcome, z: Zone, idx: nat, order: nat) {
    r.Freed? ==>
      order <= r.order < MAX_ORDER && r.idx == Align(idx, r.order) && r.idx < z.size &&
      r.zone.size == z.size && r.zone.offset == z.offset &&
      r.zone.freePages == U32(z.freePages + Pow2(order)) && ZoneReady(r.zone)
  }

  /** `FreedShape` for the walk from the credited zone. */
  lemma OutcomeShape(z: Zone, mm1: seq<Page>, zi: nat, idx: nat, order: nat)
    requires ZoneReady(z) && idx < z.size && idx % Pow2(order) == 0
    ensures ZoneReady(Credited(z, order))
    ensures FreedShape(Coalesce(Credited(z, order), mm1, zi, idx, order), z, idx, order)
  {
    CreditedReady(z, order);
    CoalesceShape(Credited(z, order), mm1, zi, idx, order);
  }

  /**
   * Freeing a block takes each buddy it merged with off its list and puts
   * the merged block at the head of the list of its order.
   */
  lemma FreeBlockLists(mm: seq<Page>, maxMapnr: nat, z: Zone, zi: nat, page: nat, order: nat)
    requires ZoneReady(z) && page < |mm| && z.offset <= page < z.offset + z.size
    ensures var r := FreeBlock(mm, maxMapnr, z, zi, page, order);
      r.Freed? ==>
        |r.zone.freeArea| == MAX_ORDER &&
        forall k :: 0 <= k < MAX_ORDER ==>
          r.zone.freeArea[k].freeList == ListAfter(z.freeArea[k].freeList, z.offset, order, r.order, page - z.offset, k)
  {
    var idx := page - z.offset;
    var r := FreeBlock(mm, maxMapnr, z, zi, page, order);
    if !Refused(mm[page], page, maxMapnr, idx, order) {
      var z1 := Credited(z, order);
      var mm1 := mm[page := Released(mm[page])];
      CreditedReady(z, order);
      assert r == Coalesce(z1, mm1, zi, idx, order);
      CoalesceLists(z1, mm1, zi, idx, order);
    } else {
      assert r == Fatal;
    }
  }

  /** Freeing a block flips the pair bits from the freed order up to the merged block's, and no others. */
  lemma FreeBlockBits(mm: seq<Page>, maxMapnr: nat, z: Zone, zi: nat, page: nat, order: nat)
    requires ZoneReady(z) && page < |mm| && z.offset <= page < z.offset + z.size
    ensures var r := FreeBlock(mm, maxMapnr, z, zi, page, order);
      r.Freed? ==>
        |r.zone.freeArea| == MAX_ORDER &&
        (forall k :: 0 <= k < MAX_ORDER ==> |r.zone.freeArea[k].bitmap| == |z.freeArea[k].bitmap|) &&
        forall k, m :: 0 <= k < MAX_ORDER && 0 <= m < |z.freeArea[k].bitmap| ==>
          r.zone.freeArea[k].bitmap[m] == (z.freeArea[k].bitmap[m] != Flipped(order, r.order, page - z.offset, k, m))
  {
    var idx := page - z.offset;
    var r := FreeBlock(mm, maxMapnr, z, zi, page, order);
    if !Refused(mm[page], page, maxMapnr, idx, order) {
      var z1 := Credited(z, order);
      var mm1 := mm[page := Released(mm[page])];
      CreditedReady(z, order);
      assert r == Coalesce(z1, mm1, zi, idx, order);
      CoalesceBits(z1, mm1, zi, idx, order);
    } else {
      assert r == Fatal;
    }
  }

  /**
   * The coalescing loop of `__free_pages_ok` on zone `zone` (number `zi`)
   * from the order-`order` block at zone index `pageIdx`, reading the page
   * descriptors `mm`: `bug` is `BUG()`, otherwise `zone'` is the zone with
   * the merged block on its free list.
   */
  method MergeBlock(zone: Zone, mm: seq<Page>, zi: nat, pageIdx: nat, order: nat) returns (bug: bool, zone': Zone)
    requires ZoneReady(zone) && pageIdx < zone.size && pageIdx % Pow2(order) == 0
    ensures var r := Coalesce(zone, mm, zi, pageIdx, order);
      (bug <==> r.Fatal?) && (!bug ==> zone' == r.zone)
  {
    ghost var r := Coalesce(zone, mm, zi, pageIdx, order);
    // past the last free area the walk has no bitmap to read
    if order >= MAX_ORDER {
      return true, zone;
    }
    var base := zone.offset;
    var idx: nat := pageIdx;
    var index := PairIndex(idx, order);
    var area := order;
    zone' := zone;
    // `mask + (1 << (MAX_ORDER - 1))` is zero exactly when `mask` is `-2^(MAX_ORDER - 1)`
    while area != MAX_ORDER - 1
      invariant Walk(zone', mm, zi, base, idx, area, index, r)
      decreases MAX_ORDER - area
    {
      var s := MergePass(zone', mm, zi, base, idx, area, index, r);
      if s.Stop? {
        return false, s.zone;
      } else if s.Fail? {
        return true, zone';
      }
      zone' := s.zone;
      area := area + 1;
      index := index / 2;
      idx := s.next;
    }
    TopOutcome(zone', mm, zi, idx, area, r);
    zone' := AddHead(zone', area, base + idx);
    return false, zone';
  }

  /**
   * The zone part of one pass of the zone loop of `free_area_init_core`:
   * zone `j` of `z`'s node set up from frame `offset` and physical address
   * `paddr`, and the watermark `mask` it adds to the global ones (none for
   * an empty zone).
   */
  method SetupZone(z: Zone, sizes: seq<nat>, holes: Option<seq<nat>>, ghost start: nat, j: nat, offset: nat, paddr: nat)
    returns (zone: Zone, mask: nat)
    requires |sizes| == MAX_NR_ZONES && (holes.Some? ==> |holes.value| == MAX_NR_ZONES) && j < MAX_NR_ZONES
    requires offset == ZoneOffset(sizes, j) && paddr == start + offset * PAGE_SIZE
    ensures zone == ZoneAfterInit(z, sizes, holes, start, j)
    ensures mask == if sizes[j] == 0 then 0 else Mask(RealSize(sizes, holes, j), j)
  {
    var size := sizes[j];
    var realsize := size;
    if holes.Some? {
      realsize := U32(realsize as int - holes.value[j]);
    }
    zone := z.(size := size, name := ZONE_NAMES[j], freePages := 0, inactiveCleanPages := 0, inactiveDirtyPages := 0);
    if size == 0 {
      return zone, 0;
    }
    mask := realsize / ZONE_BALANCE_RATIO[j];
    if mask < ZONE_BALANCE_MIN[j] {
      mask := ZONE_BALANCE_MIN[j];
    } else if mask > ZONE_BALANCE_MAX[j] {
      mask := ZONE_BALANCE_MAX[j];
    }
    zone := zone.(offset := offset, pagesMin := mask, pagesLow := mask * 2, pagesHigh := mask * 3);
    zone := zone.(zoneStartMapnr := offset, zoneStartPaddr := paddr);
    var areas := BuildFreeArea(size);
    zone := zone.(freeArea := areas);
  }

  /**
   * The descriptor of frame `k` of zone `j`, whose first frame is at
   * physical address `paddr`: it names the zone and, below high memory,
   * holds the frame's kernel address.
   */
  function InZone(p: Page, j: nat, paddr: nat, k: nat): Page {
    p.(zone := Some(j), virtual := if j != ZONE_HIGHMEM then Va(paddr + k * PAGE_SIZE) else p.virtual)
  }

  /**
   * The allocator's globals: `mem_map`, `max_mapnr`, the `freepages`
   * watermarks, `memory_pressure`, `NR_CPUS` and the one node
   * `contig_page_data`; a page pointer is an index into `memMap` and a
   * zone pointer the index of the zone in the node.
   */
  class PageAllocator {
    var memMap: array<Page>
    var maxMapnr: nat
    var freepagesMin: nat
    var freepagesLow: nat
    var freepagesHigh: nat
    var memoryPressure: int
    const nrCpus: nat
    const contigPageData: Node

    predicate Valid() {
      contigPageData.nodeZones.Length == MAX_NR_ZONES && contigPageData.nodeZonelists.Length == NR_GFPINDEX
    }

    /** The globals before set-up: no page map, zero watermarks. */
    constructor (nrCpus: nat, maxMapnr: nat, node: Node)
      requires node.nodeZones.Length == MAX_NR_ZONES && node.nodeZonelists.Length == NR_GFPINDEX
      ensures Valid() && this.nrCpus == nrCpus && this.maxMapnr == maxMapnr && contigPageData == node
      ensures memMap.Length == 0 && memoryPressure == 0
      ensures freepagesMin == 0 && freepagesLow == 0 && freepagesHigh == 0
    {
      this.nrCpus := nrCpus;
      this.maxMapnr := maxMapnr;
      contigPageData := node;
      memMap := new Page[0];
      memoryPressure := 0;
      freepagesMin, freepagesLow, freepagesHigh := 0, 0, 0;
    }

    /** The descriptor loop: every frame of the node gets no users and is reserved. */
    method ReservePages(total: nat)
      requires total <= memMap.Length
      modifies memMap
      ensures forall q :: 0 <= q < memMap.Length ==>
        memMap[q] == (if q < total then old(memMap[q]).(count := 0, reserved := true) else old(memMap[q]))
    {
      var p := 0;
      while p < total
        invariant 0 <= p <= total
        invariant forall q :: 0 <= q < memMap.Length ==>
          memMap[q] == (if q < p then old(memMap[q]).(count := 0, reserved := true) else old(memMap[q]))
      {
        memMap[p] := memMap[p].(count := 0, reserved := true);
        p := p + 1;
      }
    }

    /**
     * The frames of zone `j` from `offset`: each names the zone and, below
     * high memory, gets the kernel address of the next physical frame.
     */
    method MapZonePages(j: nat, offset: nat, size: nat, paddr: nat) returns (next: nat)
      requires offset + size <= memMap.Length
      modifies memMap
      ensures next == if j != ZONE_HIGHMEM then paddr + size * PAGE_SIZE else paddr
      ensures forall q :: 0 <= q < memMap.Length ==>
        memMap[q] == if offset <= q < offset + size then InZone(old(memMap[q]), j, paddr, q - offset) else old(memMap[q])
    {
      next := paddr;
      var i := 0;
      while i < size
        invariant 0 <= i <= size
        invariant next == if j != ZONE_HIGHMEM then paddr + i * PAGE_SIZE else paddr
        invariant forall q :: 0 <= q < memMap.Length ==>
          memMap[q] == if offset <= q < offset + i then InZone(old(memMap[q]), j, paddr, q - offset) else old(memMap[q])
      {
        var page := memMap[offset + i].(zone := Some(j));
        if j != ZONE_HIGHMEM {
          page := page.(virtual := Va(next));
          next := next + PAGE_SIZE;
        }
        memMap[offset + i] := page;
        i := i + 1;
      }
    }

    /** One pass of the zone loop of `free_area_init_core`, for zone `j` starting at frame `offset`. */
    method InitZone(pgdat: Node, j: nat, sizes: seq<nat>, holes: Option<seq<nat>>, ghost start: nat, offset: nat, paddr: nat)
      returns (offset': nat, paddr': nat)
      requires |sizes| == MAX_NR_ZONES && (holes.Some? ==> |holes.value| == MAX_NR_ZONES) && j < MAX_NR_ZONES
      requires pgdat.nodeZones.Length == MAX_NR_ZONES
      requires offset == ZoneOffset(sizes, j) && paddr == start + offset * PAGE_SIZE
      requires offset + sizes[j] <= memMap.Length
      modifies pgdat.nodeZones, memMap, this`freepagesMin, this`freepagesLow, this`freepagesHigh
      ensures offset' == ZoneOffset(sizes, j + 1)
      ensures paddr' == if j != ZONE_HIGHMEM then start + offset' * PAGE_SIZE else paddr
      ensures pgdat.nodeZones[j] == ZoneAfterInit(old(pgdat.nodeZones[j]), sizes, holes, start, j)
      ensures forall k :: 0 <= k < MAX_NR_ZONES && k != j ==> pgdat.nodeZones[k] == old(pgdat.nodeZones[k])
      ensures var m := if sizes[j] == 0 then 0 else Mask(RealSize(sizes, holes, j), j);
        freepagesMin == old(freepagesMin) + m && freepagesLow == old(freepagesLow) + 2 * m &&
        freepagesHigh == old(freepagesHigh) + 3 * m
      ensures forall q :: 0 <= q < memMap.Length ==>
        memMap[q] == (
          if offset <= q < offset' then
            old(memMap[q]).(zone := Some(j),
              virtual := if j != ZONE_HIGHMEM then Va(start + q * PAGE_SIZE) else old(memMap[q]).virtual)
          else old(memMap[q]))
    {
      var zone, mask := SetupZone(pgdat.nodeZones[j], sizes, holes, start, j, offset, paddr);
      freepagesMin := freepagesMin + mask;
      freepagesLow := freepagesLow + mask * 2;
      freepagesHigh := freepagesHigh + mask * 3;
      offset', paddr' := offset, paddr;
      if sizes[j] != 0 {
        paddr' := MapZonePages(j, offset, sizes[j], paddr);
        offset' := offset + sizes[j];
      }
      pgdat.nodeZones[j] := zone;
    }

    /**
     * The zone loop of `free_area_init_core` over a freshly reserved page
     * map: every zone set up, every frame tied to its zone, and the global
     * watermarks raised by each non-empty zone's.
     */
    method InitZones(pgdat: Node, zonesSize: seq<nat>, zholesSize: Option<seq<nat>>, start: nat)
      requires |zonesSize| == MAX_NR_ZONES && (zholesSize.Some? ==> |zholesSize.value| == MAX_NR_ZONES)
      requires pgdat.nodeZones.Length == MAX_NR_ZONES && memMap.Length == TotalPages(zonesSize) + 1
      requires forall q :: 0 <= q < memMap.Length ==>
        memMap[q] == if q < TotalPages(zonesSize) then ZERO_PAGE.(reserved := true) else ZERO_PAGE
      modifies memMap, pgdat.nodeZones, this`freepagesMin, this`freepagesLow, this`freepagesHigh
      ensures forall q :: 0 <= q < memMap.Length ==>
        memMap[q] == if q < TotalPages(zonesSize) then PageAfterInit(zonesSize, start, q) else ZERO_PAGE
      ensures forall j :: 0 <= j < MAX_NR_ZONES ==>
        pgdat.nodeZones[j] == ZoneAfterInit(old(pgdat.nodeZones[j]), zonesSize, zholesSize, start, j)
      ensures var m := MaskSum(zonesSize, zholesSize, MAX_NR_ZONES);
        freepagesMin == old(freepagesMin) + m && freepagesLow == old(freepagesLow) + 2 * m &&
        freepagesHigh == old(freepagesHigh) + 3 * m
    {
      var offset, paddr := 0, start;
      var j := 0;
      while j < MAX_NR_ZONES
        invariant 0 <= j <= MAX_NR_ZONES && offset == ZoneOffset(zonesSize, j)
        invariant j < MAX_NR_ZONES ==> paddr == start + offset * PAGE_SIZE
        invariant forall q :: 0 <= q < memMap.Length ==>
          memMap[q] == (
            if q < offset then PageAfterInit(zonesSize, start, q)
            else if q < TotalPages(zonesSize) then ZERO_PAGE.(reserved := true)
            else ZERO_PAGE)
        invariant forall k :: 0 <= k < MAX_NR_ZONES ==>
          pgdat.nodeZones[k] == (
            if k < j then ZoneAfterInit(old(pgdat.nodeZones[k]), zonesSize, zholesSize, start, k)
            else old(pgdat.nodeZones[k]))
        invariant freepagesMin == old(freepagesMin) + MaskSum(zonesSize, zholesSize, j)
        invariant freepagesLow == old(freepagesLow) + 2 * MaskSum(zonesSize, zholesSize, j)
        invariant freepagesHigh == old(freepagesHigh) + 3 * MaskSum(zonesSize, zholesSize, j)
      {
        assert ZoneOffset(zonesSize, j + 1) <= ZoneOffset(zonesSize, MAX_NR_ZONES) by {
          assert ZoneOffset(zonesSize, 1) == zonesSize[0];
          assert ZoneOffset(zonesSize, 2) == zonesSize[0] + zonesSize[1];
        }
        offset, paddr := InitZone(pgdat, j, zonesSize, zholesSize, start, offset, paddr);
        forall q | ZoneOffset(zonesSize, j) <= q < offset
          ensures memMap[q] == PageAfterInit(zonesSize, start, q)
        {
          ZoneOfAt(zonesSize, j, q);
        }
        j := j + 1;
      }
    }

    /**
     * `free_area_init_core`: a zero-filled page map for the node's frames
     * and one more, every frame reserved and tied to its zone, every zone
     * set up, the global watermarks raised by each non-empty zone's, and
     * the zone lists built.
     */
    method FreeAreaInitCore(pgdat: Node, zonesSize: seq<nat>, zoneStartPaddr: nat, zholesSize: Option<seq<nat>>)
      requires |zonesSize| == MAX_NR_ZONES && (zholesSize.Some? ==> |zholesSize.value| == MAX_NR_ZONES)
      requires pgdat.nodeZones.Length == MAX_NR_ZONES && pgdat.nodeZonelists.Length == NR_GFPINDEX
      modifies this`memMap, this`freepagesMin, this`freepagesLow, this`freepagesHigh
      modifies pgdat`nodeSize, pgdat`nodeStartPaddr, pgdat`nodeStartMapnr, pgdat.nodeZones, pgdat.nodeZonelists
      ensures fresh(memMap) && memMap.Length == TotalPages(zonesSize) + 1
      ensures forall p :: 0 <= p < TotalPages(zonesSize) ==> memMap[p] == PageAfterInit(zonesSize, zoneStartPaddr, p)
      ensures memMap[TotalPages(zonesSize)] == ZERO_PAGE
      ensures pgdat.nodeSize == TotalPages(zonesSize) && pgdat.nodeStartPaddr == zoneStartPaddr && pgdat.nodeStartMapnr == 0
      ensures forall j :: 0 <= j < MAX_NR_ZONES ==>
        pgdat.nodeZones[j] == ZoneAfterInit(old(pgdat.nodeZones[j]), zonesSize, zholesSize, zoneStartPaddr, j)
      ensures var m := MaskSum(zonesSize, zholesSize, MAX_NR_ZONES);
        freepagesMin == old(freepagesMin) + m && freepagesLow == old(freepagesLow) + 2 * m &&
        freepagesHigh == old(freepagesHigh) + 3 * m
      ensures forall i :: 0 <= i < NR_GFPINDEX ==>
        pgdat.nodeZonelists[i] == Zonelist(i, FallbackZones(ZoneClass(i), pgdat.nodeZones[..]))
    {
      var totalpages := 0;
      var i := 0;
      while i < MAX_NR_ZONES
        invariant 0 <= i <= MAX_NR_ZONES && totalpages == ZoneOffset(zonesSize, i)
      {
        totalpages := totalpages + zonesSize[i];
        i := i + 1;
      }
      memMap := new Page[totalpages + 1](_ => ZERO_PAGE);
      pgdat.nodeSize := totalpages;
      pgdat.nodeStartPaddr := zoneStartPaddr;
      pgdat.nodeStartMapnr := 0;
      ReservePages(totalpages);
      InitZones(pgdat, zonesSize, zholesSize, zoneStartPaddr);
      BuildZonelists(pgdat);
    }

    /** `free_area_init`: the one node, from physical address 0, without holes. */
    method FreeAreaInit(zonesSize: seq<nat>)
      requires Valid() && |zonesSize| == MAX_NR_ZONES
      modifies this`memMap, this`freepagesMin, this`freepagesLow, this`freepagesHigh
      modifies contigPageData`nodeSize, contigPageData`nodeStartPaddr, contigPageData`nodeStartMapnr
      modifies contigPageData.nodeZones, contigPageData.nodeZonelists
      ensures Valid() && fresh(memMap) && memMap.Length == TotalPages(zonesSize) + 1
      ensures forall p :: 0 <= p < TotalPages(zonesSize) ==> memMap[p] == PageAfterInit(zonesSize, 0, p)
      ensures forall j :: 0 <= j < MAX_NR_ZONES ==>
        contigPageData.nodeZones[j] == ZoneAfterInit(old(contigPageData.nodeZones[j]), zonesSize, None, 0, j)
      ensures var m := MaskSum(zonesSize, None, MAX_NR_ZONES);
        freepagesMin == old(freepagesMin) + m && freepagesLow == old(freepagesLow) + 2 * m &&
        freepagesHigh == old(freepagesHigh) + 3 * m
      ensures forall i :: 0 <= i < NR_GFPINDEX ==>
        contigPageData.nodeZonelists[i] == Zonelist(i, FallbackZones(ZoneClass(i), contigPageData.nodeZones[..]))
    {
      FreeAreaInitCore(contigPageData, zonesSize, 0, None);
    }

    /** The page at `page` names a zone of the node that is ready and holds it. */
    ghost predicate InItsZone(page: nat)
      reads this, memMap, contigPageData.nodeZones
    {
      Valid() && page < memMap.Length && memMap[page].zone.Some? && memMap[page].zone.value < MAX_NR_ZONES &&
      var z := contigPageData.nodeZones[memMap[page].zone.value];
      ZoneReady(z) && z.offset <= page < z.offset + z.size
    }

    /**
     * `__free_pages_ok`: return the order-`order` block at `page` to the
     * buddy system; `bug` is `BUG()`. Nothing is promised of the state
     * after a `BUG()`.
     */
    method FreePagesOk(page: nat, order: nat) returns (bug: bool)
      requires InItsZone(page) && order < 32
      modifies memMap, contigPageData.nodeZones, this`memoryPressure
      ensures var zi := old(memMap[page]).zone.value;
        var r := FreeBlock(old(memMap[..]), maxMapnr, old(contigPageData.nodeZones[zi]), zi, page, order);
        (bug <==> r.Fatal?) &&
        (!bug ==>
          memMap[..] == old(memMap[..])[page := Released(old(memMap[page]))] &&
          contigPageData.nodeZones[..] == old(contigPageData.nodeZones[..])[zi := r.zone] &&
          memoryPressure == if old(memoryPressure) > nrCpus then old(memoryPressure) - 1 else old(memoryPressure))
    {
      var p := memMap[page];
      var zi := p.zone.value;
      var zones := contigPageData.nodeZones;
      // the zone is edited in a copy and stored back once, all under the zone lock
      var zone := zones[zi];
      ghost var mm0 := memMap[..];
      ghost var spec := FreeBlock(mm0, maxMapnr, zone, zi, page, order);
      assert ZoneReady(zone) && zone.offset <= page < zone.offset + zone.size;
      if p.buffers || p.mapping || page >= maxMapnr || p.swapCache || p.locked || p.decrAfter ||
         p.active || p.inactiveDirty || p.inactiveClean {
        FreeBlockRefused(mm0, maxMapnr, zone, zi, page, order);
        assert spec == Fatal;
        return true;
      }
      memMap[page] := Released(p);
      var pageIdx: nat := page - zone.offset;
      if pageIdx % Pow2(order) != 0 {
        FreeBlockRefused(mm0, maxMapnr, zone, zi, page, order);
        assert spec == Fatal;
        return true;
      }
      FreeBlockPasses(mm0, maxMapnr, zone, zi, page, order, memMap[..]);
      zone := Credited(zone, order);
      assert spec == Coalesce(zone, memMap[..], zi, pageIdx, order);
      bug, zone := MergeBlock(zone, memMap[..], zi, pageIdx, order);
      if bug {
        return true;
      }
      assert zone == spec.zone;
      zones[zi] := zone;
      if memoryPressure > nrCpus {
        memoryPressure := memoryPressure - 1;
      }
      return false;
    }

    /**
     * `__free_pages`: a reserved page is left alone; otherwise drop a
     * reference, and free the block when it was the last.
     */
    method FreePages(page: nat, order: nat) returns (bug: bool)
      requires Valid() && page < memMap.Length && order < 32
      requires !memMap[page].reserved && memMap[page].count == 1 ==> InItsZone(page)
      modifies memMap, contigPageData.nodeZones, this`memoryPressure
      ensures old(memMap[page]).reserved ==> !bug && memMap[..] == old(memMap[..])
      ensures old(memMap[page]).reserved || old(memMap[page]).count != 1 ==>
        !bug && contigPageData.nodeZones[..] == old(contigPageData.nodeZones[..]) && memoryPressure == old(memoryPressure)
      ensures !old(memMap[page]).reserved && old(memMap[page]).count != 1 ==>
        memMap[..] == old(memMap[..])[page := old(memMap[page]).(count := old(memMap[page]).count - 1)]
      ensures !old(memMap[page]).reserved && old(memMap[page]).count == 1 ==>
        var dropped := old(memMap[..])[page := old(memMap[page]).(count := 0)];
        var zi := old(memMap[page]).zone.value;
        var r := FreeBlock(dropped, maxMapnr, old(contigPageData.nodeZones[zi]), zi, page, order);
        (bug <==> r.Fatal?) &&
        (!bug ==>
          memMap[..] == dropped[page := Released(dropped[page])] &&
          contigPageData.nodeZones[..] == old(contigPageData.nodeZones[..])[zi := r.zone] &&
          memoryPressure == if old(memoryPressure) > nrCpus then old(memoryPressure) - 1 else old(memoryPressure))
    {
      bug := false;
      if !memMap[page].reserved {
        // `put_page_testzero`: decrement, then test for zero
        memMap[page] := memMap[page].(count := memMap[page].count - 1);
        if memMap[page].count == 0 {
          bug := FreePagesOk(page, order);
        }
      }
    }
  }
}
