/**
 The region chain of memory_pool.h: in-band descriptors linked in address order, with back
 links that `insert_region_after` may leave stale, and why merging is safe all the same.
 */
module BuddyChain {
  import opened Arith
  import opened BuddySpec

  /** Region links, size and busy flag of an in-band descriptor; a zero link is the null pointer. */
  datatype Descr = Descr(rprev: nat, rnext: nat, lgsz: nat, busy: bool)
  type Memory = map<nat, Descr>

  /**
   The descriptor at `a` describes block `a`. Its forward link is exact; its back link only
   promises `BackLink`, because `insert_region_after` does not repair the successor.
   */
  ghost predicate DescrOk(m: Memory, b: Blocks, lo: nat, hi: nat, a: nat)
    requires a in b
  {
    && a in m && m[a].lgsz == b[a].lg && m[a].busy == b[a].busy
    && m[a].rnext == (if End(b, a) == hi then 0 else End(b, a))
    && (if a == lo then m[a].rprev == 0 else m[a].rprev in b && BackLink(m[a].rprev, a))
  }

  /** The descriptors in memory describe the partition `b` of the arena. */
  ghost predicate ChainOk(m: Memory, b: Blocks, lo: nat, hi: nat, regions: nat) {
    && 0 < lo <= hi <= LIMIT
    && Tiles(b, lo, hi)
    && regions == (if lo == hi then 0 else lo)
    && (forall a {:trigger DescrOk(m, b, lo, hi, a)} :: a in b ==> DescrOk(m, b, lo, hi, a))
  }

  lemma ChainAt(m: Memory, b: Blocks, lo: nat, hi: nat, regions: nat, a: nat)
    requires ChainOk(m, b, lo, hi, regions) && a in b
    ensures DescrOk(m, b, lo, hi, a) && BlockOk(b, lo, hi, a)
    ensures SelfAligned(b, a)
  {
  }

  lemma ChainOrder(b: Blocks, lo: nat, hi: nat, a: nat, c: nat)
    requires Tiles(b, lo, hi) && a in b && c in b
    ensures a < c ==> End(b, a) <= c
    ensures c < a ==> End(b, c) <= a
  {
  }

  // ---- splitting -----------------------------------------------------------------------------

  /** Region data after `split` has cut block `d`. */
  function CutMemory(m: Memory, d: nat): Memory
    requires d in m && m[d].lgsz > 0
  {
    var lg := m[d].lgsz - 1;
    var e := d + Pow2(lg);
    m[d := Descr(m[d].rprev, e, lg, m[d].busy)][e := Descr(d, m[d].rnext, lg, false)]
  }

  lemma SplitRoom(b: Blocks, lo: nat, hi: nat, d: nat)
    requires Tiles(b, lo, hi) && d in b && b[d].lg > 0
    ensures d + Pow2(b[d].lg - 1) !in b
  {
    assert d < d + Pow2(b[d].lg - 1) < End(b, d);
  }

  lemma SplitDescr(m: Memory, b: Blocks, lo: nat, hi: nat, regions: nat, d: nat, a: nat)
    requires ChainOk(m, b, lo, hi, regions) && d in b && d in m && m[d].lgsz == b[d].lg > LG_MIN && a in b
    ensures DescrOk(CutMemory(m, d), SplitOf(b, d), lo, hi, a)
  {
    ChainAt(m, b, lo, hi, regions, d);
    ChainAt(m, b, lo, hi, regions, a);
    SplitRoom(b, lo, hi, d);
  }

  lemma SplitDescrUpper(m: Memory, b: Blocks, lo: nat, hi: nat, d: nat)
    requires d in b && b[d].lg > 0 && lo <= d && DescrOk(m, b, lo, hi, d)
    requires Aligned(d, b[d].lg - 1)
    ensures DescrOk(CutMemory(m, d), SplitOf(b, d), lo, hi, d + Pow2(b[d].lg - 1))
  {
    BackLinkTo(d, b[d].lg - 1);
  }

  lemma SplitChain(m: Memory, b: Blocks, lo: nat, hi: nat, regions: nat, d: nat)
    requires ChainOk(m, b, lo, hi, regions) && d in b && b[d].lg > LG_MIN
    ensures d in m && m[d].lgsz == b[d].lg && ChainOk(CutMemory(m, d), SplitOf(b, d), lo, hi, regions)
  {
    ChainAt(m, b, lo, hi, regions, d);
    SplitTiles(b, lo, hi, d);
    HalfAligned(d, b[d].lg);
    SplitDescrUpper(m, b, lo, hi, d);
    forall a | a in SplitOf(b, d) ensures DescrOk(CutMemory(m, d), SplitOf(b, d), lo, hi, a) {
      if a in b { SplitDescr(m, b, lo, hi, regions, d, a); }
    }
  }

  // ---- merging -------------------------------------------------------------------------------

  /** `r` is the upper half of the aligned pair that starts at `l`. */
  ghost predicate Buddies(b: Blocks, l: nat, r: nat) {
    l in b && r in b && End(b, l) == r && b[l].lg == b[r].lg && Aligned(l, b[l].lg + 1)
  }

  /** The back link of an upper half is exact, however stale back links may be in general. */
  lemma UpperHalfLink(m: Memory, b: Blocks, lo: nat, hi: nat, regions: nat, l: nat, r: nat)
    requires ChainOk(m, b, lo, hi, regions) && Buddies(b, l, r)
    ensures r in m && m[r].rprev == l && l in m && m[l].rnext == r
  {
    ChainAt(m, b, lo, hi, regions, l);
    ChainAt(m, b, lo, hi, regions, r);
    UpperUnaligned(l, b[l].lg);
    var p := m[r].rprev;
    BackLinkBefore(p, r);
    ChainOrder(b, lo, hi, p, l);
    ChainOrder(b, lo, hi, p, r);
    BackLinkExact(p, r, b[l].lg);
  }

  /** No other block than the successor keeps a back link to an upper half. */
  lemma UpperHalfTarget(m: Memory, b: Blocks, lo: nat, hi: nat, regions: nat, l: nat, r: nat, y: nat)
    requires ChainOk(m, b, lo, hi, regions) && Buddies(b, l, r) && r in m
    requires y in b && y in m && m[y].rprev == r
    ensures y == m[r].rnext
  {
    ChainAt(m, b, lo, hi, regions, r);
    ChainAt(m, b, lo, hi, regions, y);
    UpperUnaligned(l, b[l].lg);
    BackLinkBefore(r, y);
    ChainOrder(b, lo, hi, r, y);
    BackLinkToUpper(r, y, b[l].lg);
  }

  /** When an upper half's back link leads to a block of its own size, that block is its buddy. */
  lemma BackLinkIsBuddy(m: Memory, b: Blocks, lo: nat, hi: nat, regions: nat, r: nat)
    requires ChainOk(m, b, lo, hi, regions) && r in b && r in m && r != lo
    requires Upper(r, b[r].lg) && m[r].rprev in b && b[m[r].rprev].lg == b[r].lg
    ensures Buddies(b, m[r].rprev, r)
  {
    var k, p := b[r].lg, m[r].rprev;
    ChainAt(m, b, lo, hi, regions, r);
    ChainAt(m, b, lo, hi, regions, p);
    BackLinkBefore(p, r);
    ChainOrder(b, lo, hi, p, r);
    BackLinkExact(p, r, k);
    LowerHalfAligned(p, k);
  }

  /** Of two neighbouring addresses aligned to 2^k, one is aligned to 2^(k+1). */
  lemma {:induction false} LowerHalfAligned(p: nat, k: nat)
    requires Aligned(p, k) && !Aligned(p + Pow2(k), k + 1)
    ensures Aligned(p, k + 1)
    decreases k
  {
    if k > 0 {
      assert (p + Pow2(k)) / 2 == p / 2 + Pow2(k - 1);
      LowerHalfAligned(p / 2, k - 1);
    }
  }

  /** Region data after `combine` has merged `r` into `l`. */
  ghost predicate JoinMemory(m: Memory, n: Memory, b: Blocks, l: nat, r: nat) {
    forall a {:trigger n[a]} :: a in b && a != r ==>
      && a in m && a in n && r in m
      && n[a] == Descr(if a == m[r].rnext then l else m[a].rprev, if a == l then m[r].rnext else m[a].rnext,
                       if a == l then m[l].lgsz + 1 else m[a].lgsz, m[a].busy)
  }

  lemma MergeDescr(m: Memory, n: Memory, b: Blocks, lo: nat, hi: nat, regions: nat, l: nat, r: nat, a: nat)
    requires ChainOk(m, b, lo, hi, regions) && Buddies(b, l, r) && JoinMemory(m, n, b, l, r)
    requires a in b && a != r
    ensures a in MergeOf(b, l) && DescrOk(n, MergeOf(b, l), lo, hi, a)
  {
    ChainAt(m, b, lo, hi, regions, l);
    ChainAt(m, b, lo, hi, regions, r);
    ChainAt(m, b, lo, hi, regions, a);
    if m[a].rprev == r { UpperHalfTarget(m, b, lo, hi, regions, l, r, a); }
    if a != l { EndIsOwn(b, lo, hi, a, l); }
    BackLinkTo(l, b[l].lg + 1);
    MergeDescrLinks(m, n, b, lo, hi, l, r, a);
  }

  lemma MergeDescrLinks(m: Memory, n: Memory, b: Blocks, lo: nat, hi: nat, l: nat, r: nat, a: nat)
    requires l in b && r in b && a in b && a != r && End(b, l) == r && b[l].lg == b[r].lg && 0 < lo <= a && lo <= l
    requires DescrOk(m, b, lo, hi, a) && DescrOk(m, b, lo, hi, r) && DescrOk(m, b, lo, hi, l)
    requires JoinMemory(m, n, b, l, r) && BackLink(l, l + Pow2(b[l].lg + 1))
    requires m[a].rprev == r ==> a == m[r].rnext
    requires End(b, a) == r ==> a == l
    requires End(b, r) <= hi
    ensures DescrOk(n, MergeOf(b, l), lo, hi, a)
  {
    assert n[a].busy == m[a].busy;
  }

  /** Merging true buddies restores the chain, stale back links included. */
  lemma MergeChain(m: Memory, n: Memory, b: Blocks, lo: nat, hi: nat, regions: nat, l: nat, r: nat)
    requires ChainOk(m, b, lo, hi, regions) && Buddies(b, l, r) && JoinMemory(m, n, b, l, r)
    ensures b[l].lg < LG_MAX && ChainOk(n, MergeOf(b, l), lo, hi, regions)
  {
    BuddiesCanMerge(b, lo, hi, l);
    MergeTiles(b, lo, hi, l);
    forall a | a in MergeOf(b, l) ensures DescrOk(n, MergeOf(b, l), lo, hi, a) {
      MergeDescr(m, n, b, lo, hi, regions, l, r, a);
    }
  }

  // ---- marking -------------------------------------------------------------------------------

  lemma MarkChain(m: Memory, b: Blocks, lo: nat, hi: nat, regions: nat, d: nat, busy: bool)
    requires ChainOk(m, b, lo, hi, regions) && d in b && d in m
    ensures ChainOk(m[d := m[d].(busy := busy)], b[d := Block(b[d].lg, busy)], lo, hi, regions)
  {
    var n, c := m[d := m[d].(busy := busy)], b[d := Block(b[d].lg, busy)];
    MarkTiles(b, lo, hi, d, busy);
    forall a | a in c ensures DescrOk(n, c, lo, hi, a) {
      ChainAt(m, b, lo, hi, regions, a);
      assert End(c, a) == End(b, a);
    }
  }
}
