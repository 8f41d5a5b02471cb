/**
 * The buddy system's invariant over a zone of `mm/page_alloc.c`: the pair
 * bits, the free lists and the free page count agree, and freeing a block
 * keeps them agreeing.
 */
module Buddy {
  import opened Words
  import opened Wrappers
  import opened PageDefs
  import opened MmZone
  import opened PageAlloc
  /** A free list without repeated entries. */
  predicate Distinct(s: seq<nat>) {
    |s| == 0 || (s[0] !in s[1..] && Distinct(s[1..]))
  }

  /** `list_del` drops exactly the entry `x`. */
  lemma {:induction false} RemoveMember(s: seq<nat>, x: nat)
    ensures forall y :: y in Remove(s, x) <==> y in s && y != x
    decreases |s|
  {
    if |s| > 0 {
      RemoveMember(s[1..], x);
      assert s == [s[0]] + s[1..];
    }
  }

  lemma {:induction false} RemoveAbsent(s: seq<nat>, x: nat)
    requires x !in s
    ensures Remove(s, x) == s
    decreases |s|
  {
    if |s| > 0 {
      RemoveAbsent(s[1..], x);
      assert s == [s[0]] + s[1..];
    }
  }

  /** Unlinking a listed block from a list without repeats shortens it by one and keeps it without repeats. */
  lemma {:induction false} RemoveDistinct(s: seq<nat>, x: nat)
    requires Distinct(s)
    ensures Distinct(Remove(s, x))
    ensures x in s ==> |Remove(s, x)| == |s| - 1
    decreases |s|
  {
    if |s| > 0 {
      RemoveDistinct(s[1..], x);
      RemoveMember(s[1..], x);
      if s[0] == x {
        RemoveAbsent(s[1..], x);
        assert Remove(s, x) == Remove(s[1..], x);
      } else {
        var r := Remove(s, x);
        assert r == [s[0]] + Remove(s[1..], x);
        assert r[1..] == Remove(s[1..], x);
        assert x in s ==> x in s[1..];
      }
    }
  }

  /** The pages held on the free lists of orders `k` and up: the sum of `|list_o| * 2^o`. */
  function ListedPages(fa: seq<FreeArea>, k: nat): nat
    decreases |fa| - k
  {
    if k >= |fa| then 0 else |fa[k].freeList| * Pow2(k) + ListedPages(fa, k + 1)
  }

  /** Changing the length of the order-`o` list alone changes the listed pages by that many blocks of order `o`. */
  lemma {:induction false} ListedChange(fa: seq<FreeArea>, fa': seq<FreeArea>, o: nat, k: nat)
    requires |fa'| == |fa| && o < |fa|
    requires forall j :: 0 <= j < |fa| && j != o ==> |fa'[j].freeList| == |fa[j].freeList|
    ensures k <= o ==>
      ListedPages(fa', k) + |fa[o].freeList| * Pow2(o) == ListedPages(fa, k) + |fa'[o].freeList| * Pow2(o)
    ensures k > o ==> ListedPages(fa', k) == ListedPages(fa, k)
    decreases |fa| - k
  {
    if k < |fa| {
      ListedChange(fa, fa', o, k + 1);
    }
  }

  /** The zone-relative first frame of the first block of pair `n` of order `o`; the second starts `2^o` later. */
  function PairBase(n: nat, o: nat): nat {
    n * Pow2(o + 1)
  }

  /** The order-`o` block at zone index `x` is on the order-`o` free list. */
  ghost predicate Listed(z: Zone, o: nat, x: nat)
    requires o < |z.freeArea|
  {
    z.offset + x in z.freeArea[o].freeList
  }

  /** Bit `n` of the order-`o` bitmap is set exactly when one block of the pair, and not both, is free. */
  ghost predicate PairMatches(z: Zone, o: nat, n: nat)
    requires o < |z.freeArea| && n < |z.freeArea[o].bitmap|
  {
    z.freeArea[o].bitmap[n] <==> (Listed(z, o, PairBase(n, o)) != Listed(z, o, PairBase(n, o) + Pow2(o)))
  }

  /** Every bit below the top order records its pair; the top order's bits are never used. */
  ghost predicate BitsMatchLists(z: Zone) {
    |z.freeArea| == MAX_ORDER &&
    forall o, n :: 0 <= o < MAX_ORDER - 1 && 0 <= n < |z.freeArea[o].bitmap| ==> PairMatches(z, o, n)
  }

  /** The free blocks, `[x, x + 2^o)` for `x` on the order-`o` list, are listed once and do not overlap. */
  ghost predicate FreeBlocksDisjoint(fa: seq<FreeArea>) {
    (forall k :: 0 <= k < |fa| ==> Distinct(fa[k].freeList)) &&
    forall k, j, x, y ::
      0 <= k < |fa| && 0 <= j < |fa| && x in fa[k].freeList && y in fa[j].freeList && (k != j || x != y) ==>
        x + Pow2(k) <= y || y + Pow2(j) <= x
  }

  /** No free block overlaps the frames `[a, a + len)`. */
  ghost predicate NoneListedIn(fa: seq<FreeArea>, a: nat, len: nat) {
    forall k, y :: 0 <= k < |fa| && y in fa[k].freeList ==> y + Pow2(k) <= a || a + len <= y
  }

  /**
   * The buddy system's invariant: each pair bit below the top order says
   * whether exactly one block of its pair is free, the free blocks are
   * disjoint, and `free_pages` counts the pages on the free lists (in an
   * `unsigned long`).
   */
  ghost predicate BuddyConsistent(z: Zone) {
    BitsMatchLists(z) && FreeBlocksDisjoint(z.freeArea) && z.freePages == U32(ListedPages(z.freeArea, 0))
  }

  /**
   * The invariant while the order-`o` block at zone index `idx` is being
   * freed: it overlaps no free block and is already counted in `free_pages`.
   */
  ghost predicate InFlight(z: Zone, idx: nat, o: nat) {
    BitsMatchLists(z) && FreeBlocksDisjoint(z.freeArea) && NoneListedIn(z.freeArea, z.offset + idx, Pow2(o)) &&
    z.freePages == U32(ListedPages(z.freeArea, 0) + Pow2(o))
  }

  /** A zone whose free areas are freshly set up, with nothing counted free, is consistent. */
  lemma InitConsistent(z: Zone)
    requires z.freeArea == InitFreeArea(z.size) && z.freePages == 0
    ensures BuddyConsistent(z)
  {
    var fa := z.freeArea;
    assert forall k :: 0 <= k < |fa| ==> fa[k].freeList == [];
    forall o, n | 0 <= o < MAX_ORDER - 1 && 0 <= n < |fa[o].bitmap|
      ensures PairMatches(z, o, n)
    {
      assert !fa[o].bitmap[n];
    }
    ListedEmpty(fa, 0);
  }

  lemma {:induction false} ListedEmpty(fa: seq<FreeArea>, k: nat)
    requires forall j :: 0 <= j < |fa| ==> fa[j].freeList == []
    ensures ListedPages(fa, k) == 0
    decreases |fa| - k
  {
    if k < |fa| {
      ListedEmpty(fa, k + 1);
    }
  }

  /** A non-empty zone as `free_area_init_core` leaves it is consistent. */
  lemma ZoneAfterInitConsistent(z: Zone, sizes: seq<nat>, holes: Option<seq<nat>>, start: nat, j: nat)
    requires |sizes| == MAX_NR_ZONES && (holes.Some? ==> |holes.value| == MAX_NR_ZONES) && j < MAX_NR_ZONES
    requires sizes[j] > 0
    ensures BuddyConsistent(ZoneAfterInit(z, sizes, holes, start, j))
  {
    InitConsistent(ZoneAfterInit(z, sizes, holes, start, j));
  }

  /** The pair holding the order-`o` block at `idx`: the block and its buddy are its two blocks, and merging goes to its start. */
  lemma PairOf(idx: nat, o: nat)
    requires idx % Pow2(o) == 0
    ensures var a := PairBase(PairIndex(idx, o), o);
      Pow2(o + 1) == 2 * Pow2(o) && Align(idx, o + 1) == a &&
      ((idx == a && Buddy(idx, o) == a + Pow2(o)) || (idx == a + Pow2(o) && Buddy(idx, o) == a))
  {
    var p := Pow2(o);
    assert Pow2(o + 1) == 2 * p;
    var q := Shr(idx, o);
    ShrDiv(idx, o);
    DivModBasics(idx, p);
    ShrSucc(idx, o);
    DivModBasics(q, 2);
    PairArith(idx, p, q, PairIndex(idx, o));
  }

  lemma PairArith(idx: nat, p: nat, q: nat, n: nat)
    requires p > 0 && idx == q * p && (q == 2 * n || q == 2 * n + 1)
    ensures q == 2 * n ==> idx == n * (2 * p)
    ensures q == 2 * n + 1 ==> idx == n * (2 * p) + p
  {
    assert n * (2 * p) == (2 * n) * p;
    MulSucc(2 * n, p);
  }

  /** The blocks of two different pairs of one order are different blocks. */
  lemma PairsApart(m: nat, n: nat, o: nat)
    requires m != n
    ensures var a, b, p := PairBase(m, o), PairBase(n, o), Pow2(o);
      a != b && a != b + p && a + p != b
  {
    var p2 := Pow2(o + 1);
    assert p2 == 2 * Pow2(o);
    if m > n {
      MulAtLeast(m - n, p2);
      assert m * p2 == n * p2 + (m - n) * p2;
    } else {
      MulAtLeast(n - m, p2);
      assert n * p2 == m * p2 + (n - m) * p2;
    }
  }

  lemma MulSucc(n: nat, p: nat)
    ensures (n + 1) * p == n * p + p
  {
  }

  /** Listing a block that overlaps no free block keeps the free blocks disjoint. */
  lemma AddHeadDisjoint(fa: seq<FreeArea>, fa': seq<FreeArea>, o: nat, c: nat)
    requires o < |fa| == |fa'| && FreeBlocksDisjoint(fa) && NoneListedIn(fa, c, Pow2(o))
    requires fa'[o].freeList == [c] + fa[o].freeList
    requires forall k :: 0 <= k < |fa| && k != o ==> fa'[k].freeList == fa[k].freeList
    ensures FreeBlocksDisjoint(fa')
  {
    var l := fa[o].freeList;
    assert c !in l;
    assert ([c] + l)[1..] == l;
    forall k | 0 <= k < |fa'|
      ensures Distinct(fa'[k].freeList)
    {
    }
    forall k, j, x, y | 0 <= k < |fa'| && 0 <= j < |fa'| && x in fa'[k].freeList && y in fa'[j].freeList && (k != j || x != y)
      ensures x + Pow2(k) <= y || y + Pow2(j) <= x
    {
      assert (x == c && k == o) || x in fa[k].freeList;
      assert (y == c && j == o) || y in fa[j].freeList;
    }
  }

  /** Listing a block of order `o` adds `2^o` listed pages. */
  lemma AddHeadCount(fa: seq<FreeArea>, fa': seq<FreeArea>, o: nat, c: nat)
    requires o < |fa| == |fa'|
    requires fa'[o].freeList == [c] + fa[o].freeList
    requires forall k :: 0 <= k < |fa| && k != o ==> fa'[k].freeList == fa[k].freeList
    ensures ListedPages(fa', 0) == ListedPages(fa, 0) + Pow2(o)
  {
    var n, p := |fa[o].freeList|, Pow2(o);
    assert |fa'[o].freeList| == n + 1;
    ListedChange(fa, fa', o, 0);
    MulSucc(n, p);
  }

  /** Unlinking a free block keeps the rest disjoint. */
  lemma UnlinkDisjoint(fa: seq<FreeArea>, fa': seq<FreeArea>, o: nat, b: nat)
    requires o < |fa| == |fa'| && FreeBlocksDisjoint(fa)
    requires fa'[o].freeList == Remove(fa[o].freeList, b)
    requires forall k :: 0 <= k < |fa| && k != o ==> fa'[k].freeList == fa[k].freeList
    ensures FreeBlocksDisjoint(fa')
    ensures forall k, y :: 0 <= k < |fa| && y in fa'[k].freeList ==> y in fa[k].freeList && (k != o || y != b)
  {
    var l := fa[o].freeList;
    RemoveMember(l, b);
    RemoveDistinct(l, b);
    forall k | 0 <= k < |fa'|
      ensures Distinct(fa'[k].freeList)
    {
    }
    forall k, y | 0 <= k < |fa| && y in fa'[k].freeList
      ensures y in fa[k].freeList && (k != o || y != b)
    {
    }
  }

  /** Unlinking a listed block of order `o` removes `2^o` listed pages. */
  lemma UnlinkCount(fa: seq<FreeArea>, fa': seq<FreeArea>, o: nat, b: nat)
    requires o < |fa| == |fa'| && Distinct(fa[o].freeList) && b in fa[o].freeList
    requires fa'[o].freeList == Remove(fa[o].freeList, b)
    requires forall k :: 0 <= k < |fa| && k != o ==> fa'[k].freeList == fa[k].freeList
    ensures ListedPages(fa', 0) + Pow2(o) == ListedPages(fa, 0)
  {
    var n, p := |fa'[o].freeList|, Pow2(o);
    RemoveDistinct(fa[o].freeList, b);
    assert |fa[o].freeList| == n + 1;
    ListedChange(fa, fa', o, 0);
    MulSucc(n, p);
  }

  /**
   * The pair bits stay matched when only pair `n` of order `o` changes:
   * its bit, and the listing of its two blocks, which must match again.
   */
  lemma BitsTransfer(z: Zone, z': Zone, o: nat, n: nat)
    requires BitsMatchLists(z) && |z'.freeArea| == MAX_ORDER && z'.offset == z.offset && o < MAX_ORDER - 1
    requires forall k :: 0 <= k < MAX_ORDER && k != o ==> z'.freeArea[k] == z.freeArea[k]
    requires |z'.freeArea[o].bitmap| == |z.freeArea[o].bitmap| && n < |z.freeArea[o].bitmap|
    requires forall m :: 0 <= m < |z.freeArea[o].bitmap| && m != n ==> z'.freeArea[o].bitmap[m] == z.freeArea[o].bitmap[m]
    requires forall y :: y != z.offset + PairBase(n, o) && y != z.offset + PairBase(n, o) + Pow2(o) ==>
      (y in z'.freeArea[o].freeList <==> y in z.freeArea[o].freeList)
    requires PairMatches(z', o, n)
    ensures BitsMatchLists(z')
  {
    forall k, m | 0 <= k < MAX_ORDER - 1 && 0 <= m < |z'.freeArea[k].bitmap|
      ensures PairMatches(z', k, m)
    {
      assert PairMatches(z, k, m);
      if k == o && m != n {
        PairsApart(m, n, o);
      }
    }
  }

  /** At the top order the block is listed unmerged, which completes the invariant. */
  lemma TopKeeps(z: Zone, idx: nat, o: nat)
    requires o == MAX_ORDER - 1 && InFlight(z, idx, o)
    ensures BuddyConsistent(AddHead(z, o, z.offset + idx))
  {
    var z' := AddHead(z, o, z.offset + idx);
    ListedKeeps(z, z, idx, o);
    assert forall k :: 0 <= k < MAX_ORDER - 1 ==> z'.freeArea[k] == z.freeArea[k];
    forall k, n | 0 <= k < MAX_ORDER - 1 && 0 <= n < |z'.freeArea[k].bitmap|
      ensures PairMatches(z', k, n)
    {
      assert PairMatches(z, k, n);
    }
  }

  /** A block whose buddy is not free sets the pair's bit: both the block and the bit now say one of the two is free. */
  lemma StopBits(z: Zone, idx: nat, o: nat)
    requires ZoneReady(z) && idx < z.size && o < MAX_ORDER - 1 && idx % Pow2(o) == 0
    requires BitsMatchLists(z) && NoneListedIn(z.freeArea, z.offset + idx, Pow2(o))
    requires !z.freeArea[o].bitmap[PairIndex(idx, o)]
    ensures BitsMatchLists(AddHead(Toggle(z, o, PairIndex(idx, o)), o, z.offset + idx))
  {
    var n := PairIndex(idx, o);
    var c := z.offset + idx;
    var fa := z.freeArea;
    var l, bm := fa[o].freeList, fa[o].bitmap;
    var z2 := AddHead(Toggle(z, o, n), o, c);
    assert z2 == z.(freeArea := fa[o := FreeArea([c] + l, bm[n := true])]);
    PairOf(idx, o);
    assert PairMatches(z, o, n);
    assert c !in l;
    assert z.offset + Buddy(idx, o) !in l;
    assert PairMatches(z2, o, n);
    BitsTransfer(z, z2, o, n);
  }

  /** A block whose buddy is not free sets the pair's bit and is listed, which completes the invariant. */
  lemma StopKeeps(z: Zone, idx: nat, o: nat)
    requires ZoneReady(z) && idx < z.size && o < MAX_ORDER - 1 && idx % Pow2(o) == 0
    requires InFlight(z, idx, o) && !z.freeArea[o].bitmap[PairIndex(idx, o)]
    ensures BuddyConsistent(AddHead(Toggle(z, o, PairIndex(idx, o)), o, z.offset + idx))
  {
    StopBits(z, idx, o);
    ListedKeeps(z, Toggle(z, o, PairIndex(idx, o)), idx, o);
  }

  /** Listing the block in flight, on a zone whose lists are those of `z`, keeps the blocks disjoint and the count exact. */
  lemma ListedKeeps(z: Zone, z1: Zone, idx: nat, o: nat)
    requires o < MAX_ORDER && InFlight(z, idx, o)
    requires |z1.freeArea| == |z.freeArea| && z1.freePages == z.freePages
    requires forall k :: 0 <= k < |z.freeArea| ==> z1.freeArea[k].freeList == z.freeArea[k].freeList
    ensures var z2 := AddHead(z1, o, z.offset + idx);
      FreeBlocksDisjoint(z2.freeArea) && z2.freePages == U32(ListedPages(z2.freeArea, 0))
  {
    var z2 := AddHead(z1, o, z.offset + idx);
    AddHeadDisjoint(z.freeArea, z2.freeArea, o, z.offset + idx);
    AddHeadCount(z.freeArea, z2.freeArea, o, z.offset + idx);
  }

  /** A block whose buddy is free clears the pair's bit: neither block of the pair stays listed. */
  lemma MergeBits(z: Zone, idx: nat, o: nat)
    requires ZoneReady(z) && idx < z.size && o < MAX_ORDER - 1 && idx % Pow2(o) == 0
    requires BitsMatchLists(z) && NoneListedIn(z.freeArea, z.offset + idx, Pow2(o))
    requires z.freeArea[o].bitmap[PairIndex(idx, o)]
    ensures BitsMatchLists(Unlink(Toggle(z, o, PairIndex(idx, o)), o, z.offset + Buddy(idx, o)))
    ensures z.offset + Buddy(idx, o) in z.freeArea[o].freeList
  {
    var n := PairIndex(idx, o);
    var c := z.offset + idx;
    var b := z.offset + Buddy(idx, o);
    var fa := z.freeArea;
    var l, bm := fa[o].freeList, fa[o].bitmap;
    var z2 := Unlink(Toggle(z, o, n), o, b);
    assert z2 == z.(freeArea := fa[o := FreeArea(Remove(l, b), bm[n := false])]);
    PairOf(idx, o);
    assert PairMatches(z, o, n);
    assert c !in l;
    assert b in l;
    RemoveMember(l, b);
    assert PairMatches(z2, o, n);
    BitsTransfer(z, z2, o, n);
  }

  /**
   * A block whose buddy is free clears the pair's bit and unlinks the
   * buddy; the enclosing block of the next order is then the one in flight.
   */
  lemma MergeKeeps(z: Zone, idx: nat, o: nat)
    requires ZoneReady(z) && idx < z.size && o < MAX_ORDER - 1 && idx % Pow2(o) == 0
    requires InFlight(z, idx, o) && z.freeArea[o].bitmap[PairIndex(idx, o)]
    ensures InFlight(Unlink(Toggle(z, o, PairIndex(idx, o)), o, z.offset + Buddy(idx, o)), Align(idx, o + 1), o + 1)
  {
    MergeBits(z, idx, o);
    MergeLists(z, idx, o);
  }

  /** After the merge step the free blocks stay disjoint, stay clear of the merged block, and the count moves up an order. */
  lemma MergeLists(z: Zone, idx: nat, o: nat)
    requires ZoneReady(z) && idx < z.size && o < MAX_ORDER - 1 && idx % Pow2(o) == 0
    requires InFlight(z, idx, o) && z.freeArea[o].bitmap[PairIndex(idx, o)]
    ensures var z2 := Unlink(Toggle(z, o, PairIndex(idx, o)), o, z.offset + Buddy(idx, o));
      FreeBlocksDisjoint(z2.freeArea) && NoneListedIn(z2.freeArea, z.offset + Align(idx, o + 1), Pow2(o + 1)) &&
      z2.freePages == U32(ListedPages(z2.freeArea, 0) + Pow2(o + 1))
  {
    var n := PairIndex(idx, o);
    var b := z.offset + Buddy(idx, o);
    var fa := z.freeArea;
    var z2 := Unlink(Toggle(z, o, n), o, b);
    MergeBits(z, idx, o);
    assert z2.freeArea == fa[o := FreeArea(Remove(fa[o].freeList, b), fa[o].bitmap[n := false])];
    MergeAreas(fa, z2.freeArea, idx, o, z.offset, z.freePages);
  }

  /** `MergeLists` on the free areas alone. */
  lemma MergeAreas(fa: seq<FreeArea>, fa': seq<FreeArea>, idx: nat, o: nat, offset: nat, freePages: nat)
    requires o + 1 < |fa| == |fa'| && idx % Pow2(o) == 0
    requires FreeBlocksDisjoint(fa) && NoneListedIn(fa, offset + idx, Pow2(o))
    requires freePages == U32(ListedPages(fa, 0) + Pow2(o))
    requires offset + Buddy(idx, o) in fa[o].freeList
    requires fa'[o].freeList == Remove(fa[o].freeList, offset + Buddy(idx, o))
    requires forall k :: 0 <= k < |fa| && k != o ==> fa'[k].freeList == fa[k].freeList
    ensures FreeBlocksDisjoint(fa') && NoneListedIn(fa', offset + Align(idx, o + 1), Pow2(o + 1))
    ensures freePages == U32(ListedPages(fa', 0) + Pow2(o + 1))
  {
    var b := offset + Buddy(idx, o);
    UnlinkDisjoint(fa, fa', o, b);
    UnlinkCount(fa, fa', o, b);
    MergedApart(fa, fa', idx, o, offset);
    PairOf(idx, o);
  }

  /** Nothing listed after the unlink overlaps the merged block, which covers the block in flight and its buddy. */
  lemma MergedApart(fa: seq<FreeArea>, fa': seq<FreeArea>, idx: nat, o: nat, offset: nat)
    requires o < |fa| == |fa'| && idx % Pow2(o) == 0
    requires FreeBlocksDisjoint(fa) && NoneListedIn(fa, offset + idx, Pow2(o))
    requires offset + Buddy(idx, o) in fa[o].freeList
    requires forall k, y :: 0 <= k < |fa| && y in fa'[k].freeList ==> y in fa[k].freeList && (k != o || y != offset + Buddy(idx, o))
    ensures NoneListedIn(fa', offset + Align(idx, o + 1), Pow2(o + 1))
  {
    var c := offset + idx;
    var b := offset + Buddy(idx, o);
    var p := Pow2(o);
    PairOf(idx, o);
    var a := offset + Align(idx, o + 1);
    forall k, y | 0 <= k < |fa'| && y in fa'[k].freeList
      ensures y + Pow2(k) <= a || a + Pow2(o + 1) <= y
    {
      assert y in fa[k].freeList && (k != o || y != b);
      assert y + Pow2(k) <= c || c + p <= y;
      assert y + Pow2(k) <= b || b + p <= y;
    }
  }

  /**
   * Coalescing an in-flight block that overlaps no free block, when it
   * does not end in `BUG()`, leaves the zone consistent.
   */
  lemma {:induction false} CoalesceConsistent(z: Zone, mm: seq<Page>, zi: nat, idx: nat, o: nat)
    requires ZoneReady(z) && idx < z.size && idx % Pow2(o) == 0 && InFlight(z, idx, o)
    ensures var r := Coalesce(z, mm, zi, idx, o);
      r.Freed? ==> BuddyConsistent(r.zone)
    decreases MAX_ORDER - o
  {
    if o < MAX_ORDER {
      if o == MAX_ORDER - 1 {
        TopKeeps(z, idx, o);
      } else if !z.freeArea[o].bitmap[PairIndex(idx, o)] {
        StopKeeps(z, idx, o);
      } else {
        var s := StepAt(z, mm, zi, idx, o);
        if s.Merge? {
          MergeKeeps(z, idx, o);
          StepEffect(z, mm, zi, idx, o);
          CoalesceConsistent(s.zone, mm, zi, s.next, o + 1);
        }
      }
    }
  }

  /** Counting a block that overlaps no free block in `free_pages` makes it the block in flight. */
  lemma CreditedInFlight(z: Zone, idx: nat, order: nat)
    requires BuddyConsistent(z) && NoneListedIn(z.freeArea, z.offset + idx, Pow2(order))
    ensures InFlight(Credited(z, order), idx, order)
  {
    CreditedBits(z, order);
    U32Add(ListedPages(z.freeArea, 0), Pow2(order));
  }

  /** Crediting the count leaves the pair bits and the lists alone. */
  lemma CreditedBits(z: Zone, order: nat)
    requires BitsMatchLists(z)
    ensures BitsMatchLists(Credited(z, order))
  {
    var z1 := Credited(z, order);
    forall o, n | 0 <= o < MAX_ORDER - 1 && 0 <= n < |z1.freeArea[o].bitmap|
      ensures PairMatches(z1, o, n)
    {
      assert PairMatches(z, o, n);
    }
  }


  /**
   * `__free_pages_ok` keeps the buddy invariant: freeing a block that
   * overlaps no free block from a consistent zone, unless it ends in
   * `BUG()`, leaves every pair bit below the top order recording whether
   * exactly one block of its pair is free, the free blocks disjoint, and
   * `free_pages` equal to the pages on the free lists.
   */
  lemma FreeBlockConsistent(mm: seq<Page>, maxMapnr: nat, z: Zone, zi: nat, page: nat, order: nat)
    requires ZoneReady(z) && page < |mm| && z.offset <= page < z.offset + z.size
    requires BuddyConsistent(z) && NoneListedIn(z.freeArea, page, Pow2(order))
    ensures var r := FreeBlock(mm, maxMapnr, z, zi, page, order);
      r.Freed? ==> BuddyConsistent(r.zone)
  {
    var idx := page - z.offset;
    var r := FreeBlock(mm, maxMapnr, z, zi, page, order);
    FreeBlockUnfold(mm, maxMapnr, z, zi, page, order);
    if Refused(mm[page], page, maxMapnr, idx, order) {
      assert r == Fatal;
    } else {
      CreditedInFlight(z, idx, order);
      OutcomeConsistent(r, Credited(z, order), mm[page := Released(mm[page])], zi, idx, order);
    }
  }

  /** The outcome `r` of coalescing the block in flight keeps the invariant. */
  lemma OutcomeConsistent(r: Outcome, z: Zone, mm: seq<Page>, zi: nat, idx: nat, o: nat)
    requires ZoneReady(z) && idx < z.size && idx % Pow2(o) == 0 && InFlight(z, idx, o)
    requires r == Coalesce(z, mm, zi, idx, o)
    ensures r.Freed? ==> BuddyConsistent(r.zone)
  {
    CoalesceConsistent(z, mm, zi, idx, o);
  }
}
