/**
 * Slab sizing in `mm/slab.c`: how many objects of a given size fit in a
 * slab of `2^gfporder` pages next to the slab's own management data, and the
 * cache colouring that the space left over allows.
 */
module Slab {
  import opened Words
  import opened PageDefs

  const L1_CACHE_BYTES: nat := 32
  /** The largest object count a slab may hold. */
  const SLAB_LIMIT: nat := 0xffff_fffe
  const CFLGS_OFF_SLAB: bv32 := 0x10000
  const SLAB_NO_REAP: bv32 := 0x1000
  /** `sizeof(slab_t)` on i386: a list head, three 32-bit words and a bufctl. */
  const SLAB_T_SIZE: nat := 24
  /** `sizeof(kmem_bufctl_t)`, an `unsigned int`. */
  const BUFCTL_SIZE: nat := 4
  /** `sizeof(kmem_cache_t)` on i386, with the empty `spinlock_t` taking no room. */
  const KMEM_CACHE_T_SIZE: nat := 96

  /** `L1_CACHE_ALIGN`: round up to a whole cache line. */
  function L1CacheAlign(x: nat): nat {
    RoundUp(x, L1_CACHE_BYTES)
  }

  /** `PAGE_SIZE << gfporder`, the bytes of one slab. */
  function Wastage(gfporder: nat): nat {
    PAGE_SIZE * Pow2(gfporder)
  }

  /** The per-slab management bytes: a `slab_t` unless it lives off the slab. */
  function Base(flags: bv32): nat {
    if flags & CFLGS_OFF_SLAB == 0 then SLAB_T_SIZE else 0
  }

  /** The per-object management bytes: one bufctl unless it lives off the slab. */
  function Extra(flags: bv32): nat {
    if flags & CFLGS_OFF_SLAB == 0 then BUFCTL_SIZE else 0
  }

  /** The bytes `i` objects take with their cache-aligned management data. */
  function Need(i: nat, size: nat, base: nat, extra: nat): nat {
    i * size + L1CacheAlign(base + i * extra)
  }

  /** `i` objects and their cache-aligned management data fit in the slab. */
  predicate Fits(i: nat, gfporder: nat, size: nat, flags: bv32) {
    Need(i, size, Base(flags), Extra(flags)) <= Wastage(gfporder)
  }

  /** An empty slab always fits: its management data is at most one cache line. */
  lemma FitsNone(gfporder: nat, size: nat, flags: bv32)
    ensures Fits(0, gfporder, size, flags)
  {
    assert L1CacheAlign(Base(flags)) <= L1_CACHE_BYTES;
  }

  lemma RoundUpMonotone(x: nat, y: nat, m: nat)
    requires x <= y && m > 0
    ensures RoundUp(x, m) <= RoundUp(y, m)
  {
    var cx, cy := CeilDiv(x, m), CeilDiv(y, m);
    MulLtCancel(cx - 1, cy, m);
    MulNonneg(cy - cx, m);
    assert cy * m == cx * m + (cy - cx) * m;
  }

  /** Fewer objects fit whenever more do. */
  lemma FitsMonotone(i: nat, j: nat, gfporder: nat, size: nat, flags: bv32)
    requires i <= j && Fits(j, gfporder, size, flags)
    ensures Fits(i, gfporder, size, flags)
  {
    MulNonneg(j - i, size);
    MulNonneg(j - i, Extra(flags));
    assert i * size <= j * size by { assert j * size == i * size + (j - i) * size; }
    assert i * Extra(flags) <= j * Extra(flags) by {
      assert j * Extra(flags) == i * Extra(flags) + (j - i) * Extra(flags);
    }
    RoundUpMonotone(Base(flags) + i * Extra(flags), Base(flags) + j * Extra(flags), L1_CACHE_BYTES);
  }

  /** When objects or their bufctls take room, at most `Wastage` of them fit. */
  lemma FitsBounded(i: nat, gfporder: nat, size: nat, flags: bv32)
    requires size > 0 || Extra(flags) > 0
    requires Fits(i, gfporder, size, flags)
    ensures i <= Wastage(gfporder)
  {
    if size > 0 {
      MulNonneg(i, size - 1);
      assert i * size == i * (size - 1) + i;
    } else {
      MulNonneg(i, Extra(flags) - 1);
      assert i * Extra(flags) == i * (Extra(flags) - 1) + i;
    }
  }

  /**
   * `kmem_cache_estimate`: the largest number of objects of `size` bytes that
   * fit in a slab of order `gfporder` (0 when none does), capped at
   * `SLAB_LIMIT`, and the unsigned number of bytes then left over. The loop
   * only ends when objects or their bufctls take room.
   */
  method KmemCacheEstimate(gfporder: nat, size: nat, flags: bv32) returns (leftOver: nat, num: nat)
    requires gfporder < 20
    requires size > 0 || flags & CFLGS_OFF_SLAB == 0
    ensures num <= SLAB_LIMIT && Fits(num, gfporder, size, flags)
    ensures num == SLAB_LIMIT || !Fits(num + 1, gfporder, size, flags)
    ensures leftOver + Need(num, size, Base(flags), Extra(flags)) == Wastage(gfporder)
  {
    var wastage := Wastage(gfporder);
    var extra := 0;
    var base := 0;
    if flags & CFLGS_OFF_SLAB == 0 {
      base := SLAB_T_SIZE;
      extra := BUFCTL_SIZE;
    }
    var i := 0;
    while Need(i, size, base, extra) <= wastage
      invariant base == Base(flags) && extra == Extra(flags)
      invariant i > 0 ==> Fits(i - 1, gfporder, size, flags)
      invariant i <= wastage + 1
      decreases wastage + 1 - i
    {
      FitsBounded(i, gfporder, size, flags);
      i := i + 1;
    }
    if i > 0 {
      i := i - 1;
    } else {
      FitsNone(gfporder, size, flags);
    }
    if i > SLAB_LIMIT {
      FitsMonotone(SLAB_LIMIT, i, gfporder, size, flags);
      i := SLAB_LIMIT;
    }
    num := i;
    assert Fits(i, gfporder, size, flags);
    var used := i * size;
    var overhead := L1CacheAlign(base + i * extra);
    assert used + overhead <= wastage;
    wastage := wastage - used;
    wastage := wastage - overhead;
    leftOver := wastage;
  }

  /**
   * When the object count is the largest that fits, the bytes left over are
   * fewer than one more object, its bufctl and a cache line.
   */
  lemma LeftOverSmall(gfporder: nat, size: nat, flags: bv32, num: nat, leftOver: nat)
    requires !Fits(num + 1, gfporder, size, flags)
    requires leftOver + Need(num, size, Base(flags), Extra(flags)) == Wastage(gfporder)
    ensures leftOver < size + Extra(flags) + L1_CACHE_BYTES
  {
    var x := Base(flags) + num * Extra(flags);
    assert (num + 1) * size == num * size + size;
    assert Base(flags) + (num + 1) * Extra(flags) == x + Extra(flags);
  }

  /** The static `cache_cache`, the cache of cache descriptors. */
  class CacheCache {
    var objsize: nat
    var flags: bv32
    var num: nat
    var gfporder: nat
    var colour: nat
    var colourOff: nat
    var colourNext: nat
    var name: seq<char>

    /** Its static initialiser; the fields it leaves out are zero. */
    constructor ()
      ensures objsize == KMEM_CACHE_T_SIZE && flags == SLAB_NO_REAP && colourOff == L1_CACHE_BYTES
      ensures num == 0 && gfporder == 0 && colour == 0 && colourNext == 0 && name == "kmem_cache"
    {
      objsize := KMEM_CACHE_T_SIZE;
      flags := SLAB_NO_REAP;
      colourOff := L1_CACHE_BYTES;
      num, gfporder, colour, colourNext := 0, 0, 0, 0;
      name := "kmem_cache";
    }

    /**
     * `kmem_cache_init`: size `cache_cache` for one-page slabs on the slab
     * and derive its colour count from the space left over. With the i386
     * sizes 40 descriptors fit, 64 bytes are left and two colours result, so
     * the `BUG()` on an empty slab cannot fire.
     */
    method KmemCacheInit()
      requires objsize == KMEM_CACHE_T_SIZE && colourOff == L1_CACHE_BYTES
      modifies this`num, this`colour, this`colourNext
      ensures Fits(num, 0, objsize, 0) && !Fits(num + 1, 0, objsize, 0)
      ensures colourNext == 0
      ensures num == 40 && colour == 2
    {
      var leftOver;
      assert Fits(0, 0, objsize, 0);
      leftOver, num := KmemCacheEstimate(0, objsize, 0);
      assert Fits(40, 0, objsize, 0) && !Fits(41, 0, objsize, 0);
      if num == 0 {
        assert false;
      }
      colour := leftOver / colourOff;
      colourNext := 0;
    }
  }
}
