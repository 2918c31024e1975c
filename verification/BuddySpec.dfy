/**
 The buddy allocator of memory_pool.h seen as a partition of one arena into blocks:
 what a partition is, how splitting and merging change it, and why a partition
 without free buddies is determined by its busy blocks.
 */
module BuddySpec {
  import opened Arith

  const LG_MIN: nat := 5
  const LG_MAX: nat := 31
  /** First address beyond the 32-bit address space. */
  const LIMIT: nat := 0x1_0000_0000

  datatype Block = Block(lg: nat, busy: bool)
  type Blocks = map<nat, Block>

  function End(b: Blocks, a: nat): nat
    requires a in b
  {
    a + Pow2(b[a].lg)
  }

  ghost predicate SelfAligned(b: Blocks, a: nat)
    requires a in b
  {
    Aligned(a, b[a].lg)
  }

  /** Block `a` lies in `[lo, hi)`, and another block or the arena's end follows it. */
  ghost predicate BlockOk(b: Blocks, lo: nat, hi: nat, a: nat)
    requires a in b
  {
    && LG_MIN <= b[a].lg <= LG_MAX
    && lo <= a && End(b, a) <= hi && (End(b, a) == hi || End(b, a) in b)
  }

  ghost predicate Ordered(b: Blocks) {
    forall a, c {:trigger End(b, a), c in b} :: a in b && c in b && a < c ==> End(b, a) <= c
  }

  /** The blocks of `b` tile `[lo, hi)` in address order, each aligned to its own size. */
  ghost predicate Tiles(b: Blocks, lo: nat, hi: nat) {
    && (lo < hi ==> lo in b)
    && (forall a {:trigger BlockOk(b, lo, hi, a)} {:trigger End(b, a)} :: a in b ==> BlockOk(b, lo, hi, a))
    && (forall a {:trigger SelfAligned(b, a)} :: a in b ==> SelfAligned(b, a))
    && Ordered(b)
  }

  function SplitOf(b: Blocks, a: nat): Blocks
    requires a in b && b[a].lg > 0
  {
    var lg := b[a].lg - 1;
    b[a := Block(lg, b[a].busy)][a + Pow2(lg) := Block(lg, false)]
  }

  function MergeOf(b: Blocks, l: nat): Blocks
    requires l in b
  {
    (b - {End(b, l)})[l := Block(b[l].lg + 1, b[l].busy)]
  }

  /** `l` and the block after it are free and together form one aligned block. */
  ghost predicate FreeBuddies(b: Blocks, l: nat) {
    && l in b && !b[l].busy && Aligned(l, b[l].lg + 1)
    && End(b, l) in b && b[End(b, l)] == b[l]
  }

  /** No free buddies, except possibly a pair that `x` belongs to. */
  ghost predicate CoalescedBut(b: Blocks, x: nat) {
    forall l {:trigger FreeBuddies(b, l)} :: FreeBuddies(b, l) ==> l == x || End(b, l) == x
  }

  ghost predicate Coalesced(b: Blocks) {
    forall l :: !FreeBuddies(b, l)
  }

  ghost predicate AllFree(b: Blocks) {
    forall a :: a in b ==> !b[a].busy
  }

  // ---- splitting and merging -------------------------------------------------------------

  lemma HalfAligned(a: nat, lg: nat)
    requires lg > 0 && Aligned(a, lg)
    ensures Aligned(a, lg - 1) && Aligned(a + Pow2(lg - 1), lg - 1)
    ensures !Aligned(a + Pow2(lg - 1), lg)
  {
    AlignedDown(a, lg, lg - 1);
    Pow2Aligned(lg - 1, lg - 1);
    AlignedSum(a, Pow2(lg - 1), lg - 1);
    Pow2Aligned(lg - 1, lg);
    AlignedSum(a, Pow2(lg - 1), lg);
  }

  /** `r` starts at an odd multiple of 2^k. */
  ghost predicate Upper(r: nat, k: nat) {
    !Aligned(r, k + 1)
  }

  lemma UpperUnaligned(l: nat, k: nat)
    requires Aligned(l, k + 1)
    ensures Upper(l + Pow2(k), k)
  {
    Pow2Aligned(k, k + 1);
    AlignedSum(l, Pow2(k), k + 1);
  }

  lemma SplitTiles(b: Blocks, lo: nat, hi: nat, a: nat)
    requires Tiles(b, lo, hi) && a in b && b[a].lg > LG_MIN
    ensures Tiles(SplitOf(b, a), lo, hi)
  {
    var s := SplitOf(b, a);
    forall x | x in s ensures SelfAligned(s, x) && BlockOk(s, lo, hi, x) { SplitBlock(b, lo, hi, a, x); }
    forall x, y | x in s && y in s && x < y ensures End(s, x) <= y {
      SplitBlock(b, lo, hi, a, x);
      SplitBlock(b, lo, hi, a, y);
    }
  }

  /** A block of the split partition: a block of the old one, or one of the halves. */
  lemma SplitBlock(b: Blocks, lo: nat, hi: nat, a: nat, x: nat)
    requires Tiles(b, lo, hi) && a in b && b[a].lg > LG_MIN && x in SplitOf(b, a)
    ensures var s, m := SplitOf(b, a), a + Pow2(b[a].lg - 1);
            && a < m < End(b, a) && m !in b && SelfAligned(s, x) && BlockOk(s, lo, hi, x)
            && (x == a ==> End(s, x) == m) && (x == m ==> End(s, x) == End(b, a))
            && (x != a && x != m ==> x in b && End(s, x) == End(b, x))
            && (x != a && x != m ==> (x < a ==> End(b, x) <= a) && (a < x ==> End(b, a) <= x))
  {
    var s, m := SplitOf(b, a), a + Pow2(b[a].lg - 1);
    assert BlockOk(b, lo, hi, a) && SelfAligned(b, a);
    assert a < m < End(b, a) && m !in b;
    HalfAligned(a, b[a].lg);
    if x != a && x != m { assert BlockOk(b, lo, hi, x) && SelfAligned(b, x) && End(s, x) == End(b, x); }
  }

  lemma MergeTiles(b: Blocks, lo: nat, hi: nat, l: nat)
    requires Tiles(b, lo, hi) && l in b && End(b, l) in b && b[End(b, l)].lg == b[l].lg
    requires Aligned(l, b[l].lg + 1) && b[l].lg < LG_MAX
    ensures Tiles(MergeOf(b, l), lo, hi)
  {
    var r := End(b, l);
    var s := MergeOf(b, l);
    assert End(s, l) == End(b, r);
    forall x | x in s ensures SelfAligned(s, x) { assert SelfAligned(b, x); }
    forall x | x in s ensures BlockOk(s, lo, hi, x) {
      if x != l {
        assert BlockOk(b, lo, hi, x) && End(s, x) == End(b, x);
        EndIsOwn(b, lo, hi, x, l);
      }
    }
    forall x, y | x in s && y in s && x < y ensures End(s, x) <= y {
      if x != l { assert End(s, x) == End(b, x); } else { assert End(b, l) <= y; }
    }
  }

  /** Different blocks end at different addresses. */
  lemma EndIsOwn(b: Blocks, lo: nat, hi: nat, c: nat, l: nat)
    requires Tiles(b, lo, hi) && c in b && l in b && c != l
    ensures End(b, c) != End(b, l)
  {
  }

  /** Two blocks with an address in common are the same block. */
  lemma SameOwner(b: Blocks, lo: nat, hi: nat, c: nat, d: nat, x: nat)
    requires Tiles(b, lo, hi) && c in b && d in b
    requires c <= x < End(b, c) && d <= x < End(b, d)
    ensures c == d
  {
  }

  /** Only 2^31-byte blocks could outgrow the size range, and they have no buddy below the limit. */
  lemma LimitIsPower()
    ensures LIMIT == Pow2(32) == 2 * Pow2(LG_MAX)
  {
    assert Pow2(4) == 16;
    assert Pow2(8) == 16 * Pow2(4);
    assert Pow2(12) == 16 * Pow2(8);
    assert Pow2(16) == 16 * Pow2(12);
    assert Pow2(20) == 16 * Pow2(16);
    assert Pow2(24) == 16 * Pow2(20);
    assert Pow2(28) == 16 * Pow2(24);
    assert Pow2(32) == 16 * Pow2(28);
  }

  lemma BuddiesCanMerge(b: Blocks, lo: nat, hi: nat, l: nat)
    requires Tiles(b, lo, hi) && 0 < lo && hi <= LIMIT
    requires l in b && Aligned(l, b[l].lg + 1)
    ensures b[l].lg < LG_MAX
  {
    assert l < End(b, l) <= LIMIT;
    LimitIsPower();
    if b[l].lg == LG_MAX { AlignedGap(l, 32); }
  }

  // ---- every address has an owner ------------------------------------------------------------

  ghost function Owner(b: Blocks, lo: nat, hi: nat, from: nat, x: nat): (a: nat)
    requires Tiles(b, lo, hi) && from in b && from <= x < hi
    ensures a in b && a <= x < End(b, a)
    decreases hi - from
  {
    if x < End(b, from) then from else Owner(b, lo, hi, End(b, from), x)
  }

  /** A block that meets an aligned range no larger than itself contains that range. */
  lemma {:induction false} OwnerContains(c: nat, lg: nat, a: nat, k: nat)
    requires Aligned(c, lg) && Aligned(a, k) && k <= lg && c <= a < c + Pow2(lg)
    ensures a + Pow2(k) <= c + Pow2(lg)
  {
    var e := c + Pow2(lg);
    AlignedDown(c, lg, k);
    Pow2Aligned(lg, k);
    AlignedSum(c, Pow2(lg), k);
    AlignedSum(a, e - a, k);
    AlignedGap(e - a, k);
  }

  /** The block that owns the range `[a, a + 2^k)`, if one block does. */
  ghost predicate Contains(b: Blocks, c: nat, a: nat, k: nat) {
    c in b && c <= a && a + Pow2(k) <= End(b, c)
  }

  ghost predicate RangeFree(b: Blocks, a: nat, k: nat) {
    forall c :: c in b && c < a + Pow2(k) && a < End(b, c) ==> !b[c].busy
  }

  /**
   Coalescing is complete: an aligned range that is entirely free lies inside a single
   free block.
   */
  lemma {:induction false} FreeRangeIsOneBlock(b: Blocks, lo: nat, hi: nat, a: nat, k: nat) returns (c: nat)
    requires Tiles(b, lo, hi) && Coalesced(b)
    requires Aligned(a, k) && lo <= a && a + Pow2(k) <= hi && RangeFree(b, a, k)
    ensures Contains(b, c, a, k) && !b[c].busy
    decreases k
  {
    if k <= LG_MIN {
      c := Owner(b, lo, hi, lo, a);
      assert SelfAligned(b, c);
      OwnerContains(c, b[c].lg, a, k);
    } else {
      HalfAligned(a, k);
      c := FreeRangeIsOneBlock(b, lo, hi, a, k - 1);
      var c2 := FreeRangeIsOneBlock(b, lo, hi, a + Pow2(k - 1), k - 1);
      TwoHalves(b, lo, hi, c, c2, a, k);
    }
  }

  /** Free owners of the two halves of an aligned range are one block, or buddies. */
  lemma TwoHalves(b: Blocks, lo: nat, hi: nat, c1: nat, c2: nat, a: nat, k: nat)
    requires Tiles(b, lo, hi) && k > 0 && Aligned(a, k)
    requires Contains(b, c1, a, k - 1) && Contains(b, c2, a + Pow2(k - 1), k - 1)
    requires !b[c1].busy && !b[c2].busy
    ensures Contains(b, c1, a, k) || FreeBuddies(b, a)
  {
    assert SelfAligned(b, c1) && SelfAligned(b, c2);
    HalfOwner(b, c1, a, k);
    HalfOwner(b, c2, a + Pow2(k - 1), k);
    LargeOwner(b, lo, hi, c1, c2, a, k);
    if b[c1].lg >= k { OwnerContains(c1, b[c1].lg, a, k); }
  }

  lemma LargeOwner(b: Blocks, lo: nat, hi: nat, c1: nat, c2: nat, a: nat, k: nat)
    requires Tiles(b, lo, hi) && k > 0 && Aligned(a, k)
    requires Contains(b, c1, a, k - 1) && Contains(b, c2, a + Pow2(k - 1), k - 1)
    ensures b[c2].lg >= k ==> c1 == c2
  {
    assert SelfAligned(b, c2);
    if b[c2].lg >= k {
      OwnsBoth(b[c2].lg, c2, a, k);
      SameOwner(b, lo, hi, c1, c2, a);
    }
  }

  /** A block holding one half of an aligned range either is that half or is at least as large as the range. */
  lemma HalfOwner(b: Blocks, c: nat, a: nat, k: nat)
    requires k > 0 && Contains(b, c, a, k - 1) && Aligned(c, b[c].lg)
    ensures b[c].lg >= k || (b[c].lg == k - 1 && c == a)
  {
    if b[c].lg < k - 1 { Pow2Monotone(b[c].lg, k - 1); }
  }

  lemma AlignedDifference(a: nat, c: nat, k: nat)
    requires Aligned(a, k) && Aligned(c, k) && a < c
    ensures a + Pow2(k) <= c
  {
    AlignedSum(a, c - a, k);
    AlignedGap(c - a, k);
  }

  /** A block at least as large as an aligned range that holds its middle starts at or before it. */
  lemma OwnsBoth(lg: nat, c: nat, a: nat, k: nat)
    requires 0 < k <= lg && Aligned(c, lg) && Aligned(a, k) && c <= a + Pow2(k - 1)
    ensures c <= a
  {
    AlignedDown(c, lg, k);
    if c > a { AlignedDifference(a, c, k); }
  }

  /** Two coalesced partitions of the same arena with the same busy blocks are equal. */
  lemma BusyDecides(b: Blocks, c: Blocks, lo: nat, hi: nat)
    requires Tiles(b, lo, hi) && Coalesced(b) && Tiles(c, lo, hi) && Coalesced(c) && BusyOf(b) == BusyOf(c)
    ensures b == c
  {
    forall a | a in b ensures a in c && c[a] == b[a] { SameBlock(b, c, lo, hi, a); }
    forall a | a in c ensures a in b { SameBlock(c, b, lo, hi, a); }
  }

  /** With no busy block: once everything is freed, the pool is back to the decomposition it started from. */
  lemma AllFreeIsUnique(b: Blocks, c: Blocks, lo: nat, hi: nat)
    requires Tiles(b, lo, hi) && Coalesced(b) && AllFree(b)
    requires Tiles(c, lo, hi) && Coalesced(c) && AllFree(c)
    ensures b == c
  {
    assert BusyOf(b) == map[] && BusyOf(c) == map[];
    BusyDecides(b, c, lo, hi);
  }

  lemma SameBlock(b: Blocks, c: Blocks, lo: nat, hi: nat, a: nat)
    requires Tiles(b, lo, hi) && Coalesced(b) && Tiles(c, lo, hi) && Coalesced(c) && BusyOf(b) == BusyOf(c)
    requires a in b
    ensures a in c && c[a] == b[a]
  {
    if b[a].busy {
      assert a in BusyOf(c);
    } else {
      SameFreeBlock(b, c, lo, hi, a);
    }
  }

  /** What is free in one partition is free in the other. */
  lemma FreeInBoth(b: Blocks, c: Blocks, lo: nat, hi: nat, a: nat)
    requires Tiles(b, lo, hi) && BusyOf(b) == BusyOf(c) && a in b && !b[a].busy
    ensures RangeFree(c, a, b[a].lg)
  {
    forall x | x in c && c[x].busy ensures End(b, a) <= x || End(c, x) <= a {
      assert x in BusyOf(b);
      assert End(b, x) == End(c, x);
    }
  }

  lemma SameFreeBlock(b: Blocks, c: Blocks, lo: nat, hi: nat, a: nat)
    requires Tiles(b, lo, hi) && Coalesced(b) && Tiles(c, lo, hi) && Coalesced(c) && BusyOf(b) == BusyOf(c)
    requires a in b && !b[a].busy
    ensures a in c && c[a] == b[a]
  {
    var k := b[a].lg;
    assert End(b, a) == a + Pow2(k) && SelfAligned(b, a);
    FreeInBoth(b, c, lo, hi, a);
    var c1 := FreeRangeIsOneBlock(c, lo, hi, a, k);
    assert End(c, c1) == c1 + Pow2(c[c1].lg) && SelfAligned(c, c1);
    FreeInBoth(c, b, lo, hi, c1);
    var b1 := FreeRangeIsOneBlock(b, lo, hi, c1, c[c1].lg);
    SameOwner(b, lo, hi, a, b1, a);
    var k1 := c[c1].lg;
    if k < k1 { Pow2Monotone(k, k1); }
    if k1 < k { Pow2Monotone(k1, k); }
  }

  // ---- free bytes ----------------------------------------------------------------------------

  ghost function FreeFrom(b: Blocks, lo: nat, hi: nat, a: nat): nat
    requires Tiles(b, lo, hi) && (a in b || a == hi)
    decreases hi - a
  {
    if a == hi then 0
    else (if b[a].busy then 0 else Pow2(b[a].lg)) + FreeFrom(b, lo, hi, End(b, a))
  }

  ghost function FreeBytes(b: Blocks, lo: nat, hi: nat): nat
    requires Tiles(b, lo, hi) && lo <= hi
  {
    FreeFrom(b, lo, hi, lo)
  }

  lemma {:induction false} FreeFromAgree(b: Blocks, c: Blocks, lo: nat, hi: nat, a: nat)
    requires Tiles(b, lo, hi) && Tiles(c, lo, hi)
    requires (a in b || a == hi) && (a in c || a == hi)
    requires forall x :: x >= a ==> (x in b <==> x in c) && (x in b ==> b[x] == c[x])
    ensures FreeFrom(b, lo, hi, a) == FreeFrom(c, lo, hi, a)
    decreases hi - a
  {
    if a != hi { FreeFromAgree(b, c, lo, hi, End(b, a)); }
  }

  lemma MarkTiles(b: Blocks, lo: nat, hi: nat, d: nat, busy: bool)
    requires Tiles(b, lo, hi) && d in b
    ensures Tiles(b[d := Block(b[d].lg, busy)], lo, hi)
  {
    var c := b[d := Block(b[d].lg, busy)];
    forall x | x in c ensures SelfAligned(c, x) { assert SelfAligned(b, x); }
    forall x | x in c ensures BlockOk(c, lo, hi, x) { assert BlockOk(b, lo, hi, x) && End(c, x) == End(b, x); }
    forall x, y | x in c && y in c && x < y ensures End(c, x) <= y { assert End(c, x) == End(b, x); }
  }

  lemma FreeFromStep(b: Blocks, lo: nat, hi: nat, a: nat)
    requires Tiles(b, lo, hi) && a in b
    ensures End(b, a) == hi || End(b, a) in b
    ensures FreeFrom(b, lo, hi, a) == (if b[a].busy then 0 else Pow2(b[a].lg)) + FreeFrom(b, lo, hi, End(b, a))
  {
    assert BlockOk(b, lo, hi, a);
  }

  /** Marking block `d` busy takes its size from the free bytes; marking it free gives it back. */
  lemma {:induction false} FreeFromBusy(b: Blocks, lo: nat, hi: nat, a: nat, d: nat)
    requires Tiles(b, lo, hi) && a in b && d in b && a <= d && !b[d].busy
    requires Tiles(b[d := Block(b[d].lg, true)], lo, hi)
    ensures FreeFrom(b, lo, hi, a) == FreeFrom(b[d := Block(b[d].lg, true)], lo, hi, a) + Pow2(b[d].lg)
    decreases hi - a
  {
    var c := b[d := Block(b[d].lg, true)];
    assert BlockOk(b, lo, hi, a) && BlockOk(c, lo, hi, a) && End(c, a) == End(b, a);
    assert BlockOk(b, lo, hi, d) && d < End(b, d);
    FreeFromStep(b, lo, hi, a);
    FreeFromStep(c, lo, hi, a);
    if a == d {
      FreeFromAgree(b, c, lo, hi, End(b, d));
    } else {
      assert End(b, a) <= d && c[a] == b[a];
      FreeFromBusy(b, lo, hi, End(b, a), d);
    }
  }

  /** Splitting a free block keeps the number of free bytes. */
  lemma {:induction false} FreeFromSplit(b: Blocks, lo: nat, hi: nat, a: nat, d: nat)
    requires Tiles(b, lo, hi) && a in b && d in b && a <= d && !b[d].busy && b[d].lg > LG_MIN
    requires Tiles(SplitOf(b, d), lo, hi)
    ensures FreeFrom(b, lo, hi, a) == FreeFrom(SplitOf(b, d), lo, hi, a)
    decreases hi - a
  {
    var s := SplitOf(b, d);
    SplitBlock(b, lo, hi, d, a);
    FreeFromStep(b, lo, hi, a);
    FreeFromStep(s, lo, hi, a);
    if a == d {
      var m := d + Pow2(b[d].lg - 1);
      SplitBlock(b, lo, hi, d, m);
      FreeFromStep(s, lo, hi, m);
      FreeFromAgree(b, s, lo, hi, End(b, d));
    } else {
      assert BlockOk(b, lo, hi, d) && d < End(b, d);
      FreeFromSplit(b, lo, hi, End(b, a), d);
    }
  }

  lemma FreeBytesMerge(b: Blocks, lo: nat, hi: nat, l: nat)
    requires Tiles(b, lo, hi) && FreeBuddies(b, l) && Tiles(MergeOf(b, l), lo, hi)
    ensures FreeBytes(MergeOf(b, l), lo, hi) == FreeBytes(b, lo, hi)
  {
    var m := MergeOf(b, l);
    assert SplitOf(m, l) == b by {
      assert End(b, l) == l + Pow2(m[l].lg - 1);
    }
    FreeFromSplit(m, lo, hi, lo, l);
  }

  /** The free bytes are at least any one free block. */
  lemma {:induction false} FreeFromAtLeast(b: Blocks, lo: nat, hi: nat, a: nat, d: nat)
    requires Tiles(b, lo, hi) && a in b && d in b && a <= d && !b[d].busy
    ensures FreeFrom(b, lo, hi, a) >= Pow2(b[d].lg)
    decreases hi - a
  {
    assert End(b, a) <= hi;
    if a != d {
      assert End(b, d) <= hi;
      assert End(b, a) <= d;
      FreeFromAtLeast(b, lo, hi, End(b, a), d);
    }
  }

  // ---- the state of coalescing ---------------------------------------------------------------

  /** The busy blocks with their sizes: what the callers of the allocator own. */
  ghost function BusyOf(b: Blocks): map<nat, nat> {
    map a | a in b && b[a].busy :: b[a].lg
  }

  lemma SplitCoalesced(b: Blocks, lo: nat, hi: nat, a: nat)
    requires Tiles(b, lo, hi) && a in b && !b[a].busy && b[a].lg > LG_MIN && CoalescedBut(b, a)
    ensures CoalescedBut(SplitOf(b, a), a + Pow2(b[a].lg - 1)) && BusyOf(SplitOf(b, a)) == BusyOf(b)
  {
    var s, m := SplitOf(b, a), a + Pow2(b[a].lg - 1);
    assert a < m < End(b, a);
    assert SelfAligned(b, a);
    HalfAligned(a, b[a].lg);
    forall l | FreeBuddies(s, l) ensures l == m || End(s, l) == m {
      if l != a && l != m {
        assert End(s, l) == End(b, l);
        UpperBuddy(l, b[l].lg, a, b[a].lg);
        assert FreeBuddies(b, l);
      }
    }
  }

  /** A block that follows the lower half of a pair is no larger than that half. */
  lemma UpperBuddy(l: nat, lg: nat, a: nat, k: nat)
    requires Aligned(l, lg + 1) && Aligned(a, k)
    ensures a == l + Pow2(lg) ==> k <= lg
  {
    if a == l + Pow2(lg) && k > lg {
      UpperUnaligned(l, lg);
      AlignedDown(a, k, lg + 1);
    }
  }

  lemma TakeCoalesced(b: Blocks, d: nat)
    requires d in b && CoalescedBut(b, d)
    ensures Coalesced(b[d := Block(b[d].lg, true)])
  {
    var c := b[d := Block(b[d].lg, true)];
    forall l | FreeBuddies(c, l) ensures false {
      assert FreeBuddies(b, l);
    }
  }

  lemma GiveCoalesced(b: Blocks, d: nat)
    requires d in b && Coalesced(b)
    ensures CoalescedBut(b[d := Block(b[d].lg, false)], d)
  {
    var c := b[d := Block(b[d].lg, false)];
    forall l | FreeBuddies(c, l) ensures l == d || End(c, l) == d {
      assert FreeBuddies(b, l) || l == d || End(c, l) == d;
    }
  }

  lemma MergeCoalesced(b: Blocks, lo: nat, hi: nat, l: nat, x: nat)
    requires Tiles(b, lo, hi) && FreeBuddies(b, l) && CoalescedBut(b, x) && (x == l || x == End(b, l))
    ensures CoalescedBut(MergeOf(b, l), l) && BusyOf(MergeOf(b, l)) == BusyOf(b)
  {
    var s, r := MergeOf(b, l), End(b, l);
    forall y | FreeBuddies(s, y) ensures y == l || End(s, y) == l {
      if y != l {
        EndIsOwn(b, lo, hi, y, l);
        assert FreeBuddies(b, y) || End(s, y) == l;
      }
    }
  }

  /** When neither side of `d` can be merged, coalescing is finished. */
  lemma MergeDone(b: Blocks, d: nat)
    requires CoalescedBut(b, d) && !FreeBuddies(b, d)
    requires forall l {:trigger FreeBuddies(b, l)} :: FreeBuddies(b, l) ==> End(b, l) != d
    ensures Coalesced(b)
  {
  }

  // ---- back links ----------------------------------------------------------------------------

  /**
   What a region back link promises, even when it is stale: it points to an address `p`
   before `x` at a power-of-two distance that divides `p`.
   */
  ghost predicate BackLink(p: nat, x: nat) {
    exists j: nat :: Reach(p, x, j)
  }

  ghost predicate Reach(p: nat, x: nat, j: nat) {
    p + Pow2(j) == x && Aligned(p, j)
  }

  lemma BackLinkBefore(p: nat, x: nat)
    ensures BackLink(p, x) ==> p < x
  {
    if BackLink(p, x) {
      var j: nat :| Reach(p, x, j);
    }
  }

  /** A back link of an upper half is exact, however stale back links may be in general. */
  lemma BackLinkExact(p: nat, x: nat, k: nat)
    requires BackLink(p, x) && p + Pow2(k) <= x && Upper(x, k)
    ensures p + Pow2(k) == x
  {
    var j: nat :| Reach(p, x, j);
    if j > k {
      AlignedDown(p, j, k + 1);
      Pow2Aligned(j, k + 1);
      AlignedSum(p, Pow2(j), k + 1);
    }
    if j < k { Pow2Monotone(j, k); }
  }

  /** Only the next address can hold a back link to an upper half. */
  lemma BackLinkToUpper(r: nat, y: nat, k: nat)
    requires BackLink(r, y) && r + Pow2(k) <= y && Upper(r, k)
    ensures r + Pow2(k) == y
  {
    var j: nat :| Reach(r, y, j);
    if j > k { AlignedDown(r, j, k + 1); }
    if j < k { Pow2Monotone(j, k); }
  }

  lemma BackLinkTo(p: nat, lg: nat)
    requires Aligned(p, lg)
    ensures BackLink(p, p + Pow2(lg))
  {
    assert Reach(p, p + Pow2(lg), lg);
  }

  // ---- growing the arena ---------------------------------------------------------------------

  lemma AppendTiles(b: Blocks, lo: nat, hi: nat, lg: nat)
    requires Tiles(b, lo, hi) && lo <= hi && (b == map[] ==> lo == hi)
    requires LG_MIN <= lg <= LG_MAX && Aligned(hi, lg)
    ensures hi !in b && Tiles(b[hi := Block(lg, false)], lo, hi + Pow2(lg))
  {
    var c := b[hi := Block(lg, false)];
    forall x | x in b ensures x < hi { assert End(b, x) <= hi; }
    forall x | x in c ensures SelfAligned(c, x) { assert x in b ==> SelfAligned(b, x); }
    forall x | x in c ensures BlockOk(c, lo, hi + Pow2(lg), x) {
      if x != hi { assert BlockOk(b, lo, hi, x) && End(c, x) == End(b, x); }
    }
    forall x, y | x in c && y in c && x < y ensures End(c, x) <= y {
      if y != hi { assert End(b, y) <= hi; }
      if x != hi { assert End(c, x) == End(b, x); }
    }
  }

  lemma {:induction false} AppendFree(b: Blocks, lo: nat, hi: nat, lg: nat, a: nat)
    requires Tiles(b, lo, hi) && hi !in b && (a in b || a == hi)
    requires Tiles(b[hi := Block(lg, false)], lo, hi + Pow2(lg))
    ensures FreeFrom(b[hi := Block(lg, false)], lo, hi + Pow2(lg), a) == FreeFrom(b, lo, hi, a) + Pow2(lg)
    decreases hi - a
  {
    var c := b[hi := Block(lg, false)];
    if a == hi {
      assert End(c, hi) == hi + Pow2(lg);
      assert FreeFrom(c, lo, hi + Pow2(lg), hi + Pow2(lg)) == 0;
    } else {
      assert End(c, a) == End(b, a);
      AppendFree(b, lo, hi, lg, End(b, a));
    }
  }

  /** No larger size fits at `a` in an arena that ends at `end`. */
  ghost predicate Maximal(a: nat, lg: nat, end: nat) {
    forall j :: lg < j <= LG_MAX ==> !Fits(a, j, end)
  }

  predicate Fits(a: nat, lg: nat, end: nat) {
    Aligned(a, lg) && a + Pow2(lg) <= end
  }

  /** Always taking the largest fitting block leaves no buddies to merge. */
  lemma GreedyCoalesced(b: Blocks, lo: nat, hi: nat)
    requires Tiles(b, lo, hi) && 0 < lo && hi <= LIMIT
    requires forall a :: a in b ==> Maximal(a, b[a].lg, hi)
    ensures Coalesced(b)
  {
    forall l | FreeBuddies(b, l) ensures false { LowerNotMaximal(b, lo, hi, l); }
  }

  lemma LowerNotMaximal(b: Blocks, lo: nat, hi: nat, l: nat)
    requires Tiles(b, lo, hi) && 0 < lo && hi <= LIMIT && FreeBuddies(b, l)
    ensures !Maximal(l, b[l].lg, hi)
  {
    BuddiesCanMerge(b, lo, hi, l);
    assert End(b, End(b, l)) <= hi;
    assert Fits(l, b[l].lg + 1, hi);
  }

  lemma {:induction false} FreeAtMostArena(b: Blocks, lo: nat, hi: nat, a: nat)
    requires Tiles(b, lo, hi) && (a in b || a == hi)
    ensures FreeFrom(b, lo, hi, a) <= hi - a
    decreases hi - a
  {
    if a != hi {
      assert End(b, a) <= hi;
      FreeAtMostArena(b, lo, hi, End(b, a));
    }
  }
}
