/**
 `Memory_pool_t` of memory_pool.h: a buddy allocator whose descriptors live in the managed
 memory, for one contiguous arena and the 32-bit descriptor layout.
 */
module Buddy {
  import opened Arith
  import opened BuddySpec
  import opened BuddyChain
  import opened BuddyLists

  /** `sizeof(descr_t)`: four links, the size and the busy flag, four bytes each. */
  const HEADER: nat := 24

  /** The lists hold exactly the free blocks, by size. */
  ghost predicate Listed(b: Blocks, lists: seq<seq<nat>>) {
    && |lists| == SIZES
    && (forall k, x {:trigger x in lists[k]} :: 0 <= k < SIZES ==>
          (x in lists[k] <==> x in b && !b[x].busy && b[x].lg == k + LG_MIN))
  }

  /** Block links exist for every descriptor and are null in busy ones. */
  ghost predicate BusyUnlinked(b: Blocks, l: LinkMemory) {
    forall a :: a in b ==> a in l && (b[a].busy ==> l[a] == Links(0, 0))
  }

  /** The allocator's memory and list heads agree with the partition. */
  ghost predicate PoolOk(m: Memory, b: Blocks, lo: nat, hi: nat, regions: nat, f: FreeLists, lists: seq<seq<nat>>) {
    && ChainOk(m, b, lo, hi, regions)
    && ListsOk(f, lists)
    && Listed(b, lists)
    && BusyUnlinked(b, f.lnk)
  }

  lemma FirstOfList(b: Blocks, f: FreeLists, lists: seq<seq<nat>>, k: nat)
    requires k < SIZES && ListsOk(f, lists) && Listed(b, lists)
    ensures f.heads[k] == 0 <==> lists[k] == []
    ensures f.heads[k] != 0 ==>
              var d := f.heads[k]; d == lists[k][0] && d in lists[k] && d in b && !b[d].busy && b[d].lg == k + LG_MIN
    ensures lists[k] == [] ==> forall x :: x in b && !b[x].busy ==> b[x].lg != k + LG_MIN
  {
    if lists[k] != [] {
      assert NodeOk(f.lnk, lists[k], 0);
      assert lists[k][0] in lists[k];
    } else {
      forall x | x in b && !b[x].busy ensures b[x].lg != k + LG_MIN { assert x !in lists[k]; }
    }
  }

  lemma OnlyFreeListed(b: Blocks, lists: seq<seq<nat>>, x: nat)
    requires Listed(b, lists)
    ensures x !in b || b[x].busy ==> Unlisted(lists, x)
  {
  }

  // ---- split ---------------------------------------------------------------------------------

  lemma SplitListed(b: Blocks, f: FreeLists, lists: seq<seq<nat>>, k: nat, d: nat)
    requires 0 < k < SIZES && ListsOk(f, lists) && Listed(b, lists)
    requires d in b && !b[d].busy && b[d].lg == k + LG_MIN && d + Pow2(b[d].lg - 1) !in b
    ensures Listed(SplitOf(b, d), CutLists(lists, k, d, d + Pow2(b[d].lg - 1)))
  {
    var e := d + Pow2(b[d].lg - 1);
    var ls, s := CutLists(lists, k, d, e), SplitOf(b, d);
    assert d in lists[k];
    forall j, x | 0 <= j < SIZES ensures x in ls[j] <==> x in s && !s[x].busy && s[x].lg == j + LG_MIN {
      CutMembers(f, lists, k, d, e, j, x);
    }
  }

  /** A split keeps the tiling, the busy blocks and the free bytes; only the new pair can be merged. */
  lemma SplitEffect(b: Blocks, lo: nat, hi: nat, d: nat)
    requires Tiles(b, lo, hi) && lo <= hi && d in b && !b[d].busy && b[d].lg > LG_MIN && CoalescedBut(b, d)
    ensures var s := SplitOf(b, d);
            && Tiles(s, lo, hi) && CoalescedBut(s, d + Pow2(b[d].lg - 1)) && BusyOf(s) == BusyOf(b)
            && FreeBytes(s, lo, hi) == FreeBytes(b, lo, hi)
  {
    SplitTiles(b, lo, hi, d);
    SplitCoalesced(b, lo, hi, d);
    assert End(b, d) <= hi;
    FreeFromSplit(b, lo, hi, lo, d);
  }

  ghost predicate SameAt<T>(m: map<nat, T>, n: map<nat, T>, a: nat) {
    (a in m <==> a in n) && (a in m ==> m[a] == n[a])
  }

  /** Memory that holds no descriptor before or after is not written. */
  ghost predicate Outside(m: Memory, n: Memory, f: LinkMemory, g: LinkMemory, b: Blocks, c: Blocks) {
    forall x {:trigger Untouched(m, n, f, g, b, c, x)} :: Untouched(m, n, f, g, b, c, x)
  }

  ghost predicate Untouched(m: Memory, n: Memory, f: LinkMemory, g: LinkMemory, b: Blocks, c: Blocks, x: nat) {
    x !in b && x !in c ==> SameAt(m, n, x) && SameAt(f, g, x)
  }

  lemma OutsideTwice(m: Memory, m1: Memory, m2: Memory, f: LinkMemory, f1: LinkMemory, f2: LinkMemory,
                     b: Blocks, b1: Blocks, b2: Blocks)
    requires Outside(m, m1, f, f1, b, b1) && Outside(m1, m2, f1, f2, b1, b2) && b1.Keys <= b.Keys + b2.Keys
    ensures Outside(m, m2, f, f2, b, b2)
  {
    forall x ensures Untouched(m, m2, f, f2, b, b2, x) {
      assert Untouched(m, m1, f, f1, b, b1, x) && Untouched(m1, m2, f1, f2, b1, b2, x);
      assert x in b1 ==> x in b || x in b2;
    }
  }

  lemma KeptUnlinked(b: Blocks, c: Blocks, f: LinkMemory, g: LinkMemory, lists: seq<seq<nat>>, e: nat)
    requires Listed(b, lists) && BusyUnlinked(b, f) && LinksKept(f, g, lists, e) && e in g && (e in c ==> !c[e].busy)
    requires forall a :: a in c && a != e ==> a in b && c[a].busy == b[a].busy
    ensures BusyUnlinked(c, g)
  {
    forall a | a in c ensures a in g && (c[a].busy ==> g[a] == Links(0, 0)) {
      OnlyFreeListed(b, lists, a);
      assert a in b || a == e;
    }
  }

  lemma SplitPool(m: Memory, b: Blocks, lo: nat, hi: nat, regions: nat, f: FreeLists, lists: seq<seq<nat>>,
                  k: nat, d: nat, g: FreeLists)
    requires PoolOk(m, b, lo, hi, regions, f, lists)
    requires 0 < k < SIZES && d in b && !b[d].busy && b[d].lg == k + LG_MIN
    requires ListsOk(g, CutLists(lists, k, d, d + Pow2(b[d].lg - 1)))
    requires LinksKept(f.lnk, g.lnk, lists, d + Pow2(b[d].lg - 1)) && d + Pow2(b[d].lg - 1) in g.lnk
    ensures d in m && m[d].lgsz == b[d].lg
    ensures PoolOk(CutMemory(m, d), SplitOf(b, d), lo, hi, regions, g, CutLists(lists, k, d, d + Pow2(b[d].lg - 1)))
    ensures Outside(m, CutMemory(m, d), f.lnk, g.lnk, b, SplitOf(b, d))
  {
    var e := d + Pow2(b[d].lg - 1);
    SplitRoom(b, lo, hi, d);
    SplitChain(m, b, lo, hi, regions, d);
    SplitListed(b, f, lists, k, d);
    KeptUnlinked(b, SplitOf(b, d), f.lnk, g.lnk, lists, e);
    forall x ensures Untouched(m, CutMemory(m, d), f.lnk, g.lnk, b, SplitOf(b, d), x) {
      OnlyFreeListed(b, lists, x);
    }
  }

  /** One `split` of the first block of size class `k`, as seen by the whole pool. */
  lemma SplitStep(m: Memory, b: Blocks, lo: nat, hi: nat, regions: nat, f: FreeLists, lists: seq<seq<nat>>, k: nat)
    returns (d: nat, e: nat, f1: FreeLists, f2: FreeLists, f3: FreeLists, ls: seq<seq<nat>>)
    requires PoolOk(m, b, lo, hi, regions, f, lists) && 0 < k < SIZES && f.heads[k] != 0
    ensures d == f.heads[k] && d in b && b[d] == Block(k + LG_MIN, false) && e == d + Pow2(k + LG_MIN - 1)
    ensures d in m && m[d].lgsz == k + LG_MIN
    ensures Linked(f.lnk, d) && (f.lnk[d].bprev != 0 || f.heads[k] in f.lnk) && f1 == Pull(f, k, d)
    ensures f2 == f1.(lnk := f1.lnk[e := Links(0, 0)])
    ensures |f2.heads| == SIZES && d in f2.lnk && (f2.heads[k - 1] == 0 || f2.heads[k - 1] in f2.lnk)
    ensures f3 == Push(f2, k - 1, d)
    ensures |f3.heads| == SIZES && e in f3.lnk && f3.heads[k - 1] in f3.lnk
    ensures PoolOk(CutMemory(m, d), SplitOf(b, d), lo, hi, regions, Push(f3, k - 1, e), ls)
    ensures Outside(m, CutMemory(m, d), f.lnk, Push(f3, k - 1, e).lnk, b, SplitOf(b, d))
  {
    FirstOfList(b, f, lists, k);
    d := f.heads[k];
    e := d + Pow2(b[d].lg - 1);
    SplitRoom(b, lo, hi, d);
    OnlyFreeListed(b, lists, e);
    f1, f2, f3 := CutOk(f, lists, k, d, e);
    ls := CutLists(lists, k, d, e);
    SplitPool(m, b, lo, hi, regions, f, lists, k, d, Push(f3, k - 1, e));
  }

  // ---- combine -------------------------------------------------------------------------------

  /** The neighbour that `combine` looks at: the next region of a lower half, the previous of an upper half. */
  function Candidate(m: Memory, d: nat): nat
    requires d in m
  {
    if Aligned(d, m[d].lgsz + 1) then m[d].rnext else m[d].rprev
  }

  lemma NotUpper(b: Blocks, l: nat, d: nat)
    requires FreeBuddies(b, l) && End(b, l) == d
    ensures d in b && Upper(d, b[d].lg)
  {
    UpperUnaligned(l, b[l].lg);
  }

  lemma LowerChoice(m: Memory, b: Blocks, lo: nat, hi: nat, regions: nat, d: nat)
    requires ChainOk(m, b, lo, hi, regions) && d in b && d in m && !b[d].busy && CoalescedBut(b, d)
    requires Aligned(d, b[d].lg + 1)
    ensures m[d].rnext == 0 || m[d].rnext in b
    ensures m[d].rnext == 0 || b[m[d].rnext] != b[d] ==> Coalesced(b)
    ensures m[d].rnext != 0 && b[m[d].rnext] == b[d] ==> FreeBuddies(b, d) && End(b, d) == m[d].rnext
  {
    ChainAt(m, b, lo, hi, regions, d);
    forall l | FreeBuddies(b, l) ensures End(b, l) != d {
      if End(b, l) == d { NotUpper(b, l, d); }
    }
    forall x | x in b ensures x < hi { assert End(b, x) <= hi; }
    if m[d].rnext == 0 || b[m[d].rnext] != b[d] { MergeDone(b, d); }
  }

  lemma UpperChoice(m: Memory, b: Blocks, lo: nat, hi: nat, regions: nat, d: nat)
    requires ChainOk(m, b, lo, hi, regions) && d in b && d in m && !b[d].busy && CoalescedBut(b, d)
    requires Upper(d, b[d].lg)
    ensures m[d].rprev == 0 || m[d].rprev in b
    ensures m[d].rprev == 0 || b[m[d].rprev] != b[d] ==> Coalesced(b)
    ensures m[d].rprev != 0 && b[m[d].rprev] == b[d] ==> FreeBuddies(b, m[d].rprev) && End(b, m[d].rprev) == d
  {
    ChainAt(m, b, lo, hi, regions, d);
    var p := m[d].rprev;
    forall l | FreeBuddies(b, l) && End(b, l) == d ensures l == p && b[l] == b[d] {
      UpperHalfLink(m, b, lo, hi, regions, l, d);
    }
    if p == 0 || b[p] != b[d] {
      forall x | x in b ensures 0 < x { assert End(b, x) <= hi; }
      MergeDone(b, d);
    } else {
      BackLinkIsBuddy(m, b, lo, hi, regions, d);
    }
  }

  /**
   Merge safety. Whatever stale back links exist, the neighbour that `combine` inspects is a
   live block or null; if it is free and of the same size it is the true buddy, and if not,
   nothing is left to merge.
   */
  lemma CombineChoice(m: Memory, b: Blocks, lo: nat, hi: nat, regions: nat, d: nat)
    requires ChainOk(m, b, lo, hi, regions) && d in b && !b[d].busy && CoalescedBut(b, d)
    ensures d in m && m[d].lgsz == b[d].lg
    ensures var c := Candidate(m, d);
            && (c != 0 ==> c in b && c in m && m[c].lgsz == b[c].lg && m[c].busy == b[c].busy)
            && (c == 0 || b[c] != b[d] ==> Coalesced(b))
            && (c != 0 && b[c] == b[d] ==>
                  var l := if d > c then c else d;
                  FreeBuddies(b, l) && End(b, l) == (if d > c then d else c) && d != c)
  {
    ChainAt(m, b, lo, hi, regions, d);
    var c := Candidate(m, d);
    if Aligned(d, b[d].lg + 1) {
      LowerChoice(m, b, lo, hi, regions, d);
    } else {
      UpperChoice(m, b, lo, hi, regions, d);
    }
    if c != 0 { ChainAt(m, b, lo, hi, regions, c); }
  }

  lemma MergeListed(b: Blocks, f: FreeLists, lists: seq<seq<nat>>, k: nat, l: nat)
    requires k + 1 < SIZES && ListsOk(f, lists) && Listed(b, lists)
    requires FreeBuddies(b, l) && b[l].lg == k + LG_MIN
    ensures l in lists[k] && End(b, l) in lists[k] && Listed(MergeOf(b, l), JoinLists(lists, k, l, End(b, l)))
  {
    var r := End(b, l);
    var ls, s := JoinLists(lists, k, l, r), MergeOf(b, l);
    assert l in lists[k] && r in lists[k];
    forall j, x | 0 <= j < SIZES ensures x in ls[j] <==> x in s && !s[x].busy && s[x].lg == j + LG_MIN {
      JoinMembers(f, lists, k, l, r, j, x);
    }
  }

  /** A merge keeps the tiling, the busy blocks and the free bytes. */
  lemma MergeEffect(b: Blocks, lo: nat, hi: nat, l: nat, x: nat)
    requires Tiles(b, lo, hi) && 0 < lo <= hi <= LIMIT && FreeBuddies(b, l) && CoalescedBut(b, x)
    requires x == l || x == End(b, l)
    ensures var s := MergeOf(b, l);
            && b[l].lg < LG_MAX && Tiles(s, lo, hi) && CoalescedBut(s, l) && BusyOf(s) == BusyOf(b)
            && FreeBytes(s, lo, hi) == FreeBytes(b, lo, hi)
  {
    BuddiesCanMerge(b, lo, hi, l);
    MergeTiles(b, lo, hi, l);
    MergeCoalesced(b, lo, hi, l, x);
    FreeBytesMerge(b, lo, hi, l);
  }

  predicate CanDetach(m: Memory, d: nat) {
    d in m && (m[d].rprev == 0 || m[d].rprev in m) && (m[d].rnext == 0 || m[d].rnext in m)
  }

  /** Region data after `remove_region` has unlinked `d`. */
  function Detach(m: Memory, d: nat): Memory
    requires CanDetach(m, d)
  {
    var p, n := m[d].rprev, m[d].rnext;
    var m1 := if p != 0 then m[p := m[p].(rnext := n)] else m;
    var m2 := if n != 0 then m1[n := m1[n].(rprev := p)] else m1;
    m2[d := m2[d].(rprev := 0, rnext := 0)]
  }

  lemma DetachJoins(m: Memory, b: Blocks, lo: nat, hi: nat, regions: nat, l: nat, r: nat)
    requires ChainOk(m, b, lo, hi, regions) && Buddies(b, l, r)
    ensures l in m && CanDetach(m[l := m[l].(lgsz := m[l].lgsz + 1)], r) && m[r].rprev == l != 0
    ensures JoinMemory(m, Detach(m[l := m[l].(lgsz := m[l].lgsz + 1)], r), b, l, r)
  {
    UpperHalfLink(m, b, lo, hi, regions, l, r);
    ChainAt(m, b, lo, hi, regions, l);
    ChainAt(m, b, lo, hi, regions, r);
    var e := m[r].rnext;
    if e != 0 { ChainAt(m, b, lo, hi, regions, e); }
    var n := Detach(m[l := m[l].(lgsz := m[l].lgsz + 1)], r);
    forall a | a in b && a != r
      ensures a in m && a in n && r in m
      ensures n[a] == Descr(if a == e then l else m[a].rprev, if a == l then e else m[a].rnext,
                            if a == l then m[l].lgsz + 1 else m[a].lgsz, m[a].busy)
    {
      ChainAt(m, b, lo, hi, regions, a);
      DetachAt(m, l, r, a);
    }
  }

  lemma DetachAt(m: Memory, l: nat, r: nat, a: nat)
    requires l in m && r in m && l != r && m[r].rprev == l != 0 && m[r].rnext != l && m[r].rnext != r
    requires (m[r].rnext == 0 || m[r].rnext in m) && a in m && a != r && a != 0
    ensures var e, n := m[r].rnext, Detach(m[l := m[l].(lgsz := m[l].lgsz + 1)], r);
            a in n && n[a] == Descr(if a == e then l else m[a].rprev, if a == l then e else m[a].rnext,
                                    if a == l then m[l].lgsz + 1 else m[a].lgsz, m[a].busy)
  {
  }

  /** Two free buddies are linked and listed as a merge needs them. */
  lemma MergeReady(m: Memory, b: Blocks, lo: nat, hi: nat, regions: nat, f: FreeLists, lists: seq<seq<nat>>, l: nat)
    returns (r: nat, k: nat)
    requires PoolOk(m, b, lo, hi, regions, f, lists) && FreeBuddies(b, l)
    ensures r == End(b, l) && l != r && l in m && m[l].lgsz == b[l].lg == k + LG_MIN && k + 1 < SIZES
    ensures CanDetach(m[l := m[l].(lgsz := m[l].lgsz + 1)], r) && m[r].rprev != 0
    ensures JoinMemory(m, Detach(m[l := m[l].(lgsz := m[l].lgsz + 1)], r), b, l, r)
    ensures l in lists[k] && r in lists[k]
  {
    r := End(b, l);
    assert Buddies(b, l, r);
    BuddiesCanMerge(b, lo, hi, l);
    ChainAt(m, b, lo, hi, regions, l);
    k := b[l].lg - LG_MIN;
    DetachJoins(m, b, lo, hi, regions, l, r);
    MergeListed(b, f, lists, k, l);
  }

  /** One merge of `combine`, as seen by the whole pool. */
  lemma MergeStep(m: Memory, b: Blocks, lo: nat, hi: nat, regions: nat, f: FreeLists, lists: seq<seq<nat>>, l: nat)
    returns (r: nat, k: nat, f1: FreeLists, f2: FreeLists, ls: seq<seq<nat>>)
    requires PoolOk(m, b, lo, hi, regions, f, lists) && FreeBuddies(b, l)
    ensures r == End(b, l) && l in m && m[l].lgsz == b[l].lg == k + LG_MIN && k + 1 < SIZES
    ensures CanDetach(m[l := m[l].(lgsz := m[l].lgsz + 1)], r) && m[r].rprev != 0
    ensures |f.heads| == SIZES && Linked(f.lnk, l) && (f.lnk[l].bprev != 0 || f.heads[k] in f.lnk)
    ensures f1 == Pull(f, k, l)
    ensures |f1.heads| == SIZES && Linked(f1.lnk, r) && (f1.lnk[r].bprev != 0 || f1.heads[k] in f1.lnk)
    ensures f2 == Pull(f1, k, r)
    ensures |f2.heads| == SIZES && l in f2.lnk && (f2.heads[k + 1] == 0 || f2.heads[k + 1] in f2.lnk)
    ensures var n := Detach(m[l := m[l].(lgsz := m[l].lgsz + 1)], r);
            && PoolOk(n, MergeOf(b, l), lo, hi, regions, Push(f2, k + 1, l), ls)
            && Outside(m, n, f.lnk, Push(f2, k + 1, l).lnk, b, MergeOf(b, l))
  {
    r, k := MergeReady(m, b, lo, hi, regions, f, lists, l);
    f1, f2 := JoinOk(f, lists, k, l, r);
    ls := JoinLists(lists, k, l, r);
    MergePool(m, b, lo, hi, regions, f, lists, k, l, Push(f2, k + 1, l));
  }

  lemma MergePool(m: Memory, b: Blocks, lo: nat, hi: nat, regions: nat, f: FreeLists, lists: seq<seq<nat>>,
                  k: nat, l: nat, g: FreeLists)
    requires PoolOk(m, b, lo, hi, regions, f, lists) && FreeBuddies(b, l)
    requires k + 1 < SIZES && b[l].lg == k + LG_MIN
    requires l in m && CanDetach(m[l := m[l].(lgsz := m[l].lgsz + 1)], End(b, l))
    requires JoinMemory(m, Detach(m[l := m[l].(lgsz := m[l].lgsz + 1)], End(b, l)), b, l, End(b, l))
    requires ListsOk(g, JoinLists(lists, k, l, End(b, l)))
    requires LinksKept(f.lnk, g.lnk, lists, l)
    ensures var n := Detach(m[l := m[l].(lgsz := m[l].lgsz + 1)], End(b, l));
            && PoolOk(n, MergeOf(b, l), lo, hi, regions, g, JoinLists(lists, k, l, End(b, l)))
            && Outside(m, n, f.lnk, g.lnk, b, MergeOf(b, l))
  {
    var r := End(b, l);
    var n, s := Detach(m[l := m[l].(lgsz := m[l].lgsz + 1)], r), MergeOf(b, l);
    MergeChain(m, n, b, lo, hi, regions, l, r);
    MergeListed(b, f, lists, k, l);
    KeptUnlinked(b, s, f.lnk, g.lnk, lists, l);
    DetachOutside(m, b, lo, hi, regions, l, r);
    forall x ensures Untouched(m, n, f.lnk, g.lnk, b, s, x) {
      OnlyFreeListed(b, lists, x);
    }
  }

  lemma DetachOutside(m: Memory, b: Blocks, lo: nat, hi: nat, regions: nat, l: nat, r: nat)
    requires ChainOk(m, b, lo, hi, regions) && Buddies(b, l, r) && l in m
    requires CanDetach(m[l := m[l].(lgsz := m[l].lgsz + 1)], r)
    ensures forall x :: x !in b ==> SameAt(m, Detach(m[l := m[l].(lgsz := m[l].lgsz + 1)], r), x)
  {
    UpperHalfLink(m, b, lo, hi, regions, l, r);
    ChainAt(m, b, lo, hi, regions, r);
  }

  // ---- taking and giving back ----------------------------------------------------------------

  /** Taking the first block of size class `k` off its list and marking it busy. */
  lemma TakeStep(m: Memory, b: Blocks, lo: nat, hi: nat, regions: nat, f: FreeLists, lists: seq<seq<nat>>, k: nat)
    returns (d: nat)
    requires PoolOk(m, b, lo, hi, regions, f, lists) && k < SIZES && f.heads[k] != 0
    ensures d == f.heads[k] && d in b && b[d] == Block(k + LG_MIN, false) && d in m && m[d].lgsz == k + LG_MIN
    ensures Linked(f.lnk, d) && (f.lnk[d].bprev != 0 || f.heads[k] in f.lnk)
    ensures PoolOk(m[d := m[d].(busy := true)], b[d := Block(k + LG_MIN, true)], lo, hi, regions, Pull(f, k, d),
                   PullOf(lists, k, d))
    ensures Outside(m, m[d := m[d].(busy := true)], f.lnk, Pull(f, k, d).lnk, b, b[d := Block(k + LG_MIN, true)])
  {
    FirstOfList(b, f, lists, k);
    d := f.heads[k];
    ChainAt(m, b, lo, hi, regions, d);
    MarkChain(m, b, lo, hi, regions, d, true);
    PullOk(f, lists, k, d);
    TakeListed(b, f, lists, k, d);
    var n, c := m[d := m[d].(busy := true)], b[d := Block(k + LG_MIN, true)];
    forall x ensures Untouched(m, n, f.lnk, Pull(f, k, d).lnk, b, c, x) {
      OnlyFreeListed(b, lists, x);
    }
  }

  lemma TakeEffect(b: Blocks, lo: nat, hi: nat, d: nat)
    requires Tiles(b, lo, hi) && lo <= hi && d in b && !b[d].busy && CoalescedBut(b, d)
    ensures var c := b[d := Block(b[d].lg, true)];
            && Tiles(c, lo, hi) && Coalesced(c) && BusyOf(c) == BusyOf(b)[d := b[d].lg]
            && FreeBytes(b, lo, hi) == FreeBytes(c, lo, hi) + Pow2(b[d].lg)
  {
    TakeCoalesced(b, d);
    MarkTiles(b, lo, hi, d, true);
    assert BlockOk(b, lo, hi, d);
    FreeFromBusy(b, lo, hi, lo, d);
  }

  lemma TakeListed(b: Blocks, f: FreeLists, lists: seq<seq<nat>>, k: nat, d: nat)
    requires k < SIZES && ListsOk(f, lists) && Listed(b, lists) && BusyUnlinked(b, f.lnk) && d in lists[k]
    requires Linked(f.lnk, d) && (f.lnk[d].bprev != 0 || f.heads[k] in f.lnk)
    ensures Listed(b[d := Block(k + LG_MIN, true)], PullOf(lists, k, d))
    ensures BusyUnlinked(b[d := Block(k + LG_MIN, true)], Pull(f, k, d).lnk)
  {
    PullOk(f, lists, k, d);
    var c, ls := b[d := Block(k + LG_MIN, true)], PullOf(lists, k, d);
    forall j, x | 0 <= j < SIZES ensures x in ls[j] <==> x in c && !c[x].busy && c[x].lg == j + LG_MIN {
      assert x in lists[j] <==> x in b && !b[x].busy && b[x].lg == j + LG_MIN;
    }
    forall a | a in c ensures a in Pull(f, k, d).lnk && (c[a].busy ==> Pull(f, k, d).lnk[a] == Links(0, 0)) {
      if a != d { OnlyFreeListed(b, lists, a); }
    }
  }

  /** Putting a busy block back on the list of its size. */
  lemma GiveStep(m: Memory, b: Blocks, lo: nat, hi: nat, regions: nat, f: FreeLists, lists: seq<seq<nat>>, d: nat)
    returns (k: nat)
    requires PoolOk(m, b, lo, hi, regions, f, lists) && d in b && b[d].busy
    ensures d in m && m[d].lgsz == b[d].lg == k + LG_MIN && k < SIZES == |f.heads|
    ensures d in f.lnk && (f.heads[k] == 0 || f.heads[k] in f.lnk)
    ensures PoolOk(m[d := m[d].(busy := false)], b[d := Block(k + LG_MIN, false)], lo, hi, regions, Push(f, k, d),
                   PushOf(lists, k, d))
    ensures Outside(m, m[d := m[d].(busy := false)], f.lnk, Push(f, k, d).lnk, b, b[d := Block(k + LG_MIN, false)])
  {
    ChainAt(m, b, lo, hi, regions, d);
    k := b[d].lg - LG_MIN;
    OnlyFreeListed(b, lists, d);
    MarkChain(m, b, lo, hi, regions, d, false);
    PushOk(f, lists, k, d);
    GiveListed(b, f, lists, k, d);
    var n, c := m[d := m[d].(busy := false)], b[d := Block(k + LG_MIN, false)];
    forall x ensures Untouched(m, n, f.lnk, Push(f, k, d).lnk, b, c, x) {
      OnlyFreeListed(b, lists, x);
    }
  }

  lemma GiveListed(b: Blocks, f: FreeLists, lists: seq<seq<nat>>, k: nat, d: nat)
    requires k < SIZES && ListsOk(f, lists) && Listed(b, lists) && BusyUnlinked(b, f.lnk)
    requires d in b && b[d].busy && d != 0 && Unlisted(lists, d)
    requires f.heads[k] == 0 || f.heads[k] in f.lnk
    ensures Listed(b[d := Block(k + LG_MIN, false)], PushOf(lists, k, d))
    ensures BusyUnlinked(b[d := Block(k + LG_MIN, false)], Push(f, k, d).lnk)
  {
    PushOk(f, lists, k, d);
    var c, ls := b[d := Block(k + LG_MIN, false)], PushOf(lists, k, d);
    forall j, x | 0 <= j < SIZES ensures x in ls[j] <==> x in c && !c[x].busy && c[x].lg == j + LG_MIN {
      assert x in lists[j] <==> x in b && !b[x].busy && b[x].lg == j + LG_MIN;
    }
    forall a | a in c ensures a in Push(f, k, d).lnk && (c[a].busy ==> Push(f, k, d).lnk[a] == Links(0, 0)) {
      if a != d { OnlyFreeListed(b, lists, a); }
    }
  }

  lemma AllInRange(b: Blocks, lo: nat, hi: nat)
    requires Tiles(b, lo, hi)
    ensures forall x :: x in b ==> LG_MIN <= b[x].lg <= LG_MAX
  {
    forall x | x in b ensures LG_MIN <= b[x].lg <= LG_MAX { assert BlockOk(b, lo, hi, x); }
  }

  lemma GiveEffect(b: Blocks, lo: nat, hi: nat, d: nat)
    requires Tiles(b, lo, hi) && lo <= hi && d in b && b[d].busy && Coalesced(b)
    ensures var c := b[d := Block(b[d].lg, false)];
            && Tiles(c, lo, hi) && CoalescedBut(c, d) && BusyOf(c) == BusyOf(b) - {d}
            && FreeBytes(c, lo, hi) == FreeBytes(b, lo, hi) + Pow2(b[d].lg)
  {
    var c := b[d := Block(b[d].lg, false)];
    MarkTiles(b, lo, hi, d, false);
    GiveCoalesced(b, d);
    assert BlockOk(b, lo, hi, d);
    assert c[d := Block(c[d].lg, true)] == b;
    FreeFromBusy(c, lo, hi, lo, d);
  }

  lemma {:induction false} AllFreeBytes(b: Blocks, lo: nat, hi: nat, a: nat)
    requires Tiles(b, lo, hi) && AllFree(b) && (a in b || a == hi)
    ensures FreeFrom(b, lo, hi, a) == hi - a
    decreases hi - a
  {
    if a != hi {
      assert End(b, a) <= hi;
      AllFreeBytes(b, lo, hi, End(b, a));
    }
  }

  /** The fact that the layout rests on: the smallest block has room for a header. */
  lemma HeaderFits()
    ensures HEADER <= Pow2(LG_MIN)
  {
    assert Pow2(5) == 32;
  }

  /** A piece of memory of `HEADER` bytes behind the header of a block and before its end meets no header at all. */
  lemma BehindHeader(b: Blocks, lo: nat, hi: nat, owner: nat, a: nat, x: nat)
    requires Tiles(b, lo, hi) && owner in b && owner + HEADER <= a && a + HEADER <= End(b, owner) && x in b
    ensures a + HEADER <= x || x + HEADER <= a
  {
    HeaderFits();
    assert BlockOk(b, lo, hi, x);
    Pow2Le(LG_MIN, b[x].lg);
    assert x < owner ==> End(b, x) <= owner;
    assert owner < x ==> End(b, owner) <= x;
  }

  /** Writing there cannot disturb the pool. */
  lemma UserWriteOk(m: Memory, b: Blocks, lo: nat, hi: nat, regions: nat, f: FreeLists, lists: seq<seq<nat>>,
                    owner: nat, a: nat, region: Descr, links: Links)
    requires PoolOk(m, b, lo, hi, regions, f, lists) && owner in b
    requires owner + HEADER <= a && a + HEADER <= End(b, owner)
    ensures PoolOk(m[a := region], b, lo, hi, regions, FreeLists(f.lnk[a := links], f.heads), lists)
    ensures forall x :: x in b ==> a + HEADER <= x || x + HEADER <= a
  {
    forall x | x in b ensures a + HEADER <= x || x + HEADER <= a { BehindHeader(b, lo, hi, owner, a, x); }
    assert a !in b;
    OnlyFreeListed(b, lists, a);
    WriteChain(m, b, lo, hi, regions, a, region);
    WriteOk(f, lists, a, links);
  }

  lemma WriteChain(m: Memory, b: Blocks, lo: nat, hi: nat, regions: nat, a: nat, region: Descr)
    requires ChainOk(m, b, lo, hi, regions) && a !in b
    ensures ChainOk(m[a := region], b, lo, hi, regions)
  {
    forall x | x in b ensures DescrOk(m[a := region], b, lo, hi, x) { ChainAt(m, b, lo, hi, regions, x); }
  }

  /** A range of 2^k bytes that `alloc_block` could hand out. */
  ghost predicate FreeRange(b: Blocks, lo: nat, hi: nat, a: nat, k: nat) {
    Aligned(a, k) && lo <= a && a + Pow2(k) <= hi && RangeFree(b, a, k)
  }

  ghost predicate NoRange(b: Blocks, lo: nat, hi: nat, k: nat) {
    forall a :: !FreeRange(b, lo, hi, a, k)
  }

  /** With no free block of size 2^k or more, no aligned free range of that size exists either. */
  lemma NoBlockNoRange(b: Blocks, lo: nat, hi: nat, k: nat)
    requires Tiles(b, lo, hi) && Coalesced(b)
    requires NoneAbove(b, k)
    ensures NoRange(b, lo, hi, k)
  {
    forall a ensures !FreeRange(b, lo, hi, a, k) {
      if FreeRange(b, lo, hi, a, k) {
        var c := FreeRangeIsOneBlock(b, lo, hi, a, k);
        Pow2Monotone(b[c].lg, k);
      }
    }
  }

  /** Fewer free bytes than 2^k: no free range of 2^k bytes. */
  lemma SmallPool(b: Blocks, lo: nat, hi: nat, k: nat)
    requires Tiles(b, lo, hi) && lo <= hi && Coalesced(b) && FreeBytes(b, lo, hi) < Pow2(k)
    ensures NoRange(b, lo, hi, k)
  {
    forall x | x in b && !b[x].busy ensures b[x].lg < k {
      assert BlockOk(b, lo, hi, x);
      FreeFromAtLeast(b, lo, hi, lo, x);
      if k < b[x].lg { Pow2Monotone(k, b[x].lg); }
    }
    NoBlockNoRange(b, lo, hi, k);
  }

  // ---- which block an allocation uses up -----------------------------------------------------

  /** `c` is the smallest that will do: no free block of at least 2^lg bytes is smaller. */
  ghost predicate LeastFree(b: Blocks, c: nat, lg: nat) {
    WillDo(b, c, lg) && forall x {:trigger WillDo(b, x, lg)} :: WillDo(b, x, lg) ==> b[c].lg <= b[x].lg
  }

  ghost predicate WillDo(b: Blocks, x: nat, lg: nat) {
    x in b && !b[x].busy && lg <= b[x].lg
  }

  /** `c` leads the list of the blocks of its size. */
  ghost predicate Leads(b: Blocks, heads: seq<nat>, c: nat) {
    c in b && LG_MIN <= b[c].lg < LG_MIN + |heads| && heads[b[c].lg - LG_MIN] == c
  }

  /** Blocks other than `c` are as before, and whatever is new lies inside `c`. */
  ghost predicate OnlyInside(b: Blocks, s: Blocks, c: nat) {
    c in b && forall x {:trigger SpareOf(b, s, c, x)} :: SpareOf(b, s, c, x)
  }

  ghost predicate SpareOf(b: Blocks, s: Blocks, c: nat, x: nat)
    requires c in b
  {
    && (x in b && x != c ==> x in s && s[x] == b[x])
    && (x in s && x !in b ==> c < x < End(b, c))
  }

  /** `c` is cut until its last 2^lg bytes, from `d` on, are a free block of their own; an exact fit is not cut. */
  ghost predicate CutDown(b: Blocks, s: Blocks, c: nat, d: nat, lg: nat) {
    && OnlyInside(b, s, c)
    && d in s && s[d] == Block(lg, false) && d + Pow2(lg) == End(b, c)
    && lg <= b[c].lg && (lg == b[c].lg ==> s == b)
  }

  /**
   An allocation of 2^lg bytes: `d` is the end of a smallest sufficient free block `c`; all other
   blocks stay as they are, and a free block of just this size is taken whole.
   */
  ghost predicate AllocatedFrom(b: Blocks, s: Blocks, c: nat, d: nat, lg: nat) {
    && LeastFree(b, c, lg) && OnlyInside(b, s, c)
    && d in s && s[d] == Block(lg, true) && d + Pow2(lg) == End(b, c)
    && (lg == b[c].lg ==> d == c && s == b[c := Block(lg, true)])
  }

  /** If there is a free block of just this size, `d` is such a block and nothing else changes. */
  ghost predicate ExactFit(b: Blocks, s: Blocks, d: nat, lg: nat) {
    (exists x :: x in b && b[x] == Block(lg, false)) ==>
      d in b && b[d] == Block(lg, false) && s == b[d := Block(lg, true)]
  }

  /**
   `d` is a free block of 2^lg bytes at the end of `c`, the first of the smallest free blocks with at
   least 2^from bytes.
   */
  ghost predicate Supplied(b: Blocks, s: Blocks, heads: seq<nat>, c: nat, d: nat, from: nat, lg: nat) {
    LeastFree(b, c, from) && Leads(b, heads, c) && CutDown(b, s, c, d, lg)
  }

  ghost predicate NoneAbove(b: Blocks, lg: nat) {
    forall x :: x in b && !b[x].busy ==> b[x].lg < lg
  }

  lemma SuppliedAtOnce(b: Blocks, heads: seq<nat>, c: nat)
    requires Leads(b, heads, c) && !b[c].busy
    ensures Supplied(b, b, heads, c, c, b[c].lg, b[c].lg)
  {
  }

  /** Without a free block of the size itself, the smallest larger one is the smallest that will do. */
  lemma SuppliedBelow(b: Blocks, s: Blocks, heads: seq<nat>, c: nat, d: nat, lg: nat)
    requires Supplied(b, s, heads, c, d, lg + 1, lg) && forall x :: x in b && !b[x].busy ==> b[x].lg != lg
    ensures Supplied(b, s, heads, c, d, lg, lg)
  {
    assert WillDo(b, c, lg + 1);
    forall x | WillDo(b, x, lg) ensures b[c].lg <= b[x].lg { assert WillDo(b, x, lg + 1); }
  }

  /** Cutting the piece at the end of `c` once more. */
  lemma SuppliedAgain(b: Blocks, s: Blocks, heads: seq<nat>, c: nat, d: nat, lg: nat)
    requires Ordered(b) && Supplied(b, s, heads, c, d, lg, lg) && lg > 0
    ensures d in s && s[d].lg == lg && Supplied(b, SplitOf(s, d), heads, c, d + Pow2(lg - 1), lg, lg - 1)
  {
    if lg < b[c].lg { Pow2Monotone(lg, b[c].lg); }
    assert c <= d && d + Pow2(lg - 1) < End(b, c);
    forall x ensures SpareOf(b, SplitOf(s, d), c, x) { assert SpareOf(b, s, c, x); }
  }

  /** Marking that piece busy completes the allocation. */
  lemma SuppliedTaken(b: Blocks, s: Blocks, heads: seq<nat>, c: nat, d: nat, lg: nat)
    requires Ordered(b) && Supplied(b, s, heads, c, d, lg, lg)
    ensures AllocatedFrom(b, s[d := Block(lg, true)], c, d, lg) && ExactFit(b, s[d := Block(lg, true)], d, lg)
  {
    if lg < b[c].lg { Pow2Monotone(lg, b[c].lg); }
    assert c <= d < End(b, c);
    var t := s[d := Block(lg, true)];
    forall x ensures SpareOf(b, t, c, x) { assert SpareOf(b, s, c, x); }
    forall x | x in b && b[x] == Block(lg, false) ensures b[c].lg == lg { assert WillDo(b, x, lg); }
  }

  ghost predicate AllocatedAt(b: Blocks, s: Blocks, d: nat) {
    d in s && exists c :: AllocatedFrom(b, s, c, d, s[d].lg)
  }

  lemma OneMoreBusy(b: Blocks, s: Blocks, c: nat, d: nat, lg: nat)
    requires AllocatedFrom(b, s, c, d, lg) && d !in BusyOf(b) && BusyOf(s) == BusyOf(b)[d := lg]
    ensures AllocatedAt(b, s, d) && d in BusyOf(s) && BusyOf(s)[d] == lg && BusyOf(b) == BusyOf(s) - {d}
  {
  }

  // ---- growing the arena ---------------------------------------------------------------------

  function AppendMemory(m: Memory, prev: nat, d: nat, lg: nat): Memory
    requires prev == 0 || prev in m
  {
    if prev == 0 then m[d := Descr(0, 0, lg, false)]
    else m[d := Descr(prev, m[prev].rnext, lg, false)][prev := m[prev].(rnext := d)]
  }

  /** The block that is appended at `hi` behind block `prev`, or as the first one. */
  ghost predicate CanAppend(b: Blocks, lo: nat, hi: nat, prev: nat, lg: nat) {
    && LG_MIN <= lg <= LG_MAX && Aligned(hi, lg) && hi + Pow2(lg) <= LIMIT
    && (if lo == hi then prev == 0 else prev in b && End(b, prev) == hi)
  }

  lemma AppendChain(m: Memory, b: Blocks, lo: nat, hi: nat, regions: nat, prev: nat, lg: nat)
    requires ChainOk(m, b, lo, hi, regions) && CanAppend(b, lo, hi, prev, lg)
    ensures hi !in b && (prev == 0 || prev in m)
    ensures ChainOk(AppendMemory(m, prev, hi, lg), b[hi := Block(lg, false)], lo, hi + Pow2(lg), lo)
  {
    AppendTiles(b, lo, hi, lg);
    if prev != 0 { ChainAt(m, b, lo, hi, regions, prev); }
    var n, c := AppendMemory(m, prev, hi, lg), b[hi := Block(lg, false)];
    forall a | a in c ensures DescrOk(n, c, lo, hi + Pow2(lg), a) { AppendDescr(m, b, lo, hi, regions, prev, lg, a); }
  }

  /** Appending a block leaves every descriptor right: its own, that of `prev` and all others. */
  lemma AppendDescr(m: Memory, b: Blocks, lo: nat, hi: nat, regions: nat, prev: nat, lg: nat, a: nat)
    requires ChainOk(m, b, lo, hi, regions) && CanAppend(b, lo, hi, prev, lg) && hi !in b && (prev == 0 || prev in m)
    requires a in b || a == hi
    ensures DescrOk(AppendMemory(m, prev, hi, lg), b[hi := Block(lg, false)], lo, hi + Pow2(lg), a)
  {
    var c := b[hi := Block(lg, false)];
    if a != hi {
      ChainAt(m, b, lo, hi, regions, a);
      assert End(c, a) == End(b, a);
      if a != prev { EndIsOwn(b, lo, hi, a, prev); }
    } else if prev != 0 {
      ChainAt(m, b, lo, hi, regions, prev);
      BackLinkTo(prev, b[prev].lg);
    }
  }

  lemma AppendStep(m: Memory, b: Blocks, lo: nat, hi: nat, regions: nat, f: FreeLists, lists: seq<seq<nat>>,
                   prev: nat, lg: nat)
    requires PoolOk(m, b, lo, hi, regions, f, lists) && CanAppend(b, lo, hi, prev, lg)
    ensures hi !in b && (prev == 0 || (prev in m && prev != hi))
    ensures var f1, k := FreeLists(f.lnk[hi := Links(0, 0)], f.heads), lg - LG_MIN;
            && k < |f1.heads| && (f1.heads[k] == 0 || f1.heads[k] in f1.lnk)
            && PoolOk(AppendMemory(m, prev, hi, lg), b[hi := Block(lg, false)], lo, hi + Pow2(lg), lo,
                      Push(f1, k, hi), PushOf(lists, k, hi))
  {
    AppendChain(m, b, lo, hi, regions, prev, lg);
    AppendLists(b, f, lists, lg - LG_MIN, hi);
  }

  /** A new free block at `d`, with cleared links, goes to the head of its list. */
  lemma AppendLists(b: Blocks, f: FreeLists, lists: seq<seq<nat>>, k: nat, d: nat)
    requires k < SIZES && ListsOk(f, lists) && Listed(b, lists) && BusyUnlinked(b, f.lnk) && d !in b && d != 0
    ensures var f1 := FreeLists(f.lnk[d := Links(0, 0)], f.heads);
            && k < |f1.heads| && (f1.heads[k] == 0 || f1.heads[k] in f1.lnk)
            && ListsOk(Push(f1, k, d), PushOf(lists, k, d))
            && Listed(b[d := Block(k + LG_MIN, false)], PushOf(lists, k, d))
            && BusyUnlinked(b[d := Block(k + LG_MIN, false)], Push(f1, k, d).lnk)
  {
    var f1 := FreeLists(f.lnk[d := Links(0, 0)], f.heads);
    OnlyFreeListed(b, lists, d);
    WriteOk(f, lists, d, Links(0, 0));
    PushOk(f1, lists, k, d);
    AppendListed(b, f1, lists, k, d);
  }

  lemma AppendListed(b: Blocks, f: FreeLists, lists: seq<seq<nat>>, k: nat, d: nat)
    requires k < SIZES && ListsOk(f, lists) && Listed(b, lists) && d !in b && d != 0
    requires forall a :: a in b ==> a in f.lnk && (b[a].busy ==> f.lnk[a] == Links(0, 0))
    requires d in f.lnk && f.lnk[d] == Links(0, 0) && (f.heads[k] == 0 || f.heads[k] in f.lnk)
    ensures Listed(b[d := Block(k + LG_MIN, false)], PushOf(lists, k, d))
    ensures BusyUnlinked(b[d := Block(k + LG_MIN, false)], Push(f, k, d).lnk)
  {
    OnlyFreeListed(b, lists, d);
    PushOk(f, lists, k, d);
    var c, ls := b[d := Block(k + LG_MIN, false)], PushOf(lists, k, d);
    forall j, x | 0 <= j < SIZES ensures x in ls[j] <==> x in c && !c[x].busy && c[x].lg == j + LG_MIN {
      assert x in lists[j] <==> x in b && !b[x].busy && b[x].lg == j + LG_MIN;
    }
    forall a | a in c ensures a in Push(f, k, d).lnk && (c[a].busy ==> Push(f, k, d).lnk[a] == Links(0, 0)) {
      if a != d { OnlyFreeListed(b, lists, a); }
    }
  }

  /** An empty pool can be placed anywhere. */
  lemma EmptyPool(b: Blocks, lo: nat, hi: nat, regions: nat, f: FreeLists, lists: seq<seq<nat>>, m: Memory, start: nat)
    requires PoolOk(m, b, lo, hi, regions, f, lists) && b == map[] && 0 < start <= LIMIT
    ensures PoolOk(m, b, start, start, regions, f, lists) && regions == 0
    ensures lo == hi && FreeBytes(b, lo, hi) == 0
  {
  }

  /** The arena begins and ends on a boundary of the smallest block. */
  lemma GranuleAligned(start: nat, end: nat)
    requires Multiple(start, 32) && Multiple(end, 32) && start <= end
    ensures Aligned(start, LG_MIN) && Aligned(end - start, LG_MIN)
  {
    assert Pow2(5) == 32;
    AlignedIsMultiple(start, 5);
    AlignedIsMultiple(end, 5);
    AlignedSum(start, end - start, 5);
  }

  lemma AlignedStep(a: nat, lg: nat, rest: nat)
    requires Aligned(a, LG_MIN) && Aligned(rest, LG_MIN) && lg >= LG_MIN && Pow2(lg) <= rest
    ensures Aligned(a + Pow2(lg), LG_MIN) && Aligned(rest - Pow2(lg), LG_MIN)
  {
    Pow2Aligned(lg, LG_MIN);
    AlignedSum(a, Pow2(lg), LG_MIN);
    AlignedSum(Pow2(lg), rest - Pow2(lg), LG_MIN);
  }

  /** `find_max_block`: the largest aligned block that fits, as an exponent; 0 if none fits. */
  method FindMaxBlock(addr: nat, sz: nat) returns (lg: nat)
    requires Aligned(addr, LG_MIN) && Aligned(sz, LG_MIN)
    ensures lg == 0 <==> sz == 0
    ensures lg != 0 ==> LG_MIN <= lg <= LG_MAX && Fits(addr, lg, addr + sz) && Maximal(addr, lg, addr + sz)
  {
    var end := addr + sz;
    var i := LG_MAX;
    AlignedGap(sz, LG_MIN);
    assert sz > 0 ==> Fits(addr, LG_MIN, end);
    while i >= LG_MIN
      invariant LG_MIN - 1 <= i <= LG_MAX
      invariant Maximal(addr, i, end)
    {
      var s := Pow2(i);
      if s <= sz && Aligned(addr, i) && addr + s <= end {
        return i;
      }
      i := i - 1;
    }
    return 0;
  }

  /** A pool without memory. */
  lemma NothingThere(start: nat)
    requires 0 < start <= LIMIT
    ensures PoolOk(map[], map[], start, start, 0, FreeLists(map[], seq(SIZES, _ => 0)), seq(SIZES, _ => []))
    ensures Coalesced(map[]) && FreeBytes(map[], start, start) == 0 && Tiles(map[], start, start) && AllFree(map[])
  {
  }

  class Pool {
    var mem: Memory
    var lnk: LinkMemory
    var regions: nat
    var blocks: seq<nat>
    var poolSize: nat

    ghost var lo: nat
    ghost var hi: nat
    /** The partition that the descriptors in memory describe. */
    ghost var view: Blocks
    ghost var lists: seq<seq<nat>>
    /** The decomposition that `Add` produced. */
    ghost var initial: Blocks

    /** The structural part of the invariant, true inside operations as well. */
    ghost predicate Core()
      reads this
    {
      PoolOk(mem, view, lo, hi, regions, FreeLists(lnk, blocks), lists)
    }

    ghost predicate Valid()
      reads this
    {
      && Core()
      && Coalesced(view)
      && poolSize == FreeBytes(view, lo, hi)
      && Tiles(initial, lo, hi) && Coalesced(initial) && AllFree(initial)
    }

    constructor ()
      ensures Valid() && view == map[] && poolSize == 0
    {
      mem, lnk, regions, blocks, poolSize := map[], map[], 0, seq(SIZES, _ => 0), 0;
      lo, hi, view, lists, initial := 32, 32, map[], seq(SIZES, _ => []), map[];
      new;
      NothingThere(lo);
    }

    // ---- block links -------------------------------------------------------------------------

    method AddBlock(d: nat, k: nat)
      requires k < |blocks| && d in lnk && (blocks[k] == 0 || blocks[k] in lnk)
      modifies this`lnk, this`blocks
      ensures FreeLists(lnk, blocks) == Push(old(FreeLists(lnk, blocks)), k, d)
    {
      if blocks[k] != 0 {
        lnk := lnk[d := lnk[d].(bnext := blocks[k])];
        lnk := lnk[blocks[k] := lnk[blocks[k]].(bprev := d)];
      }
      blocks := blocks[k := d];
    }

    method RemoveBlock(d: nat, k: nat)
      requires k < |blocks| && Linked(lnk, d) && (lnk[d].bprev != 0 || blocks[k] in lnk)
      modifies this`lnk, this`blocks
      ensures FreeLists(lnk, blocks) == Pull(old(FreeLists(lnk, blocks)), k, d)
    {
      var p, n := lnk[d].bprev, lnk[d].bnext;
      if p != 0 {
        lnk := lnk[p := lnk[p].(bnext := n)];
      } else {
        blocks := blocks[k := lnk[blocks[k]].bnext];
      }
      if n != 0 {
        lnk := lnk[n := lnk[n].(bprev := p)];
      }
      lnk := lnk[d := Links(0, 0)];
    }

    // ---- region links ------------------------------------------------------------------------

    /** `insert_region_after`: the old successor of `base` keeps its back link. */
    method InsertRegionAfter(d: nat, base: nat)
      requires d in mem && base in mem && d != base
      modifies this`mem
      ensures mem == old(mem)[d := old(mem)[d].(rnext := old(mem)[base].rnext, rprev := base)]
                       [base := old(mem)[base].(rnext := d)]
    {
      mem := mem[d := mem[d].(rnext := mem[base].rnext)];
      mem := mem[d := mem[d].(rprev := base)];
      mem := mem[base := mem[base].(rnext := d)];
    }

    // ---- split -------------------------------------------------------------------------------

    /** The block links of `split`: `d1` leaves its list, both halves lead the next smaller one. */
    method CutLinks(d1: nat, d2: nat, k: nat, ghost f1: FreeLists, ghost f2: FreeLists, ghost f3: FreeLists)
      requires 0 < k < |blocks|
      requires Linked(lnk, d1) && (lnk[d1].bprev != 0 || blocks[k] in lnk) && f1 == Pull(FreeLists(lnk, blocks), k, d1)
      requires f2 == f1.(lnk := f1.lnk[d2 := Links(0, 0)])
      requires k <= |f2.heads| && d1 in f2.lnk && (f2.heads[k - 1] == 0 || f2.heads[k - 1] in f2.lnk)
      requires f3 == Push(f2, k - 1, d1)
      requires k <= |f3.heads| && d2 in f3.lnk && f3.heads[k - 1] in f3.lnk
      modifies this`lnk, this`blocks
      ensures FreeLists(lnk, blocks) == Push(f3, k - 1, d2)
    {
      RemoveBlock(d1, k);
      lnk := lnk[d2 := Links(0, 0)];
      AddBlock(d1, k - 1);
      AddBlock(d2, k - 1);
    }

    /** The region data of `split`: `d1` shrinks and the new descriptor follows it. */
    method CutRegion(d1: nat) returns (d2: nat)
      requires d1 in mem && mem[d1].lgsz > 0
      modifies this`mem
      ensures d2 == d1 + Pow2(old(mem)[d1].lgsz - 1) && mem == CutMemory(old(mem), d1)
    {
      var newLg := mem[d1].lgsz - 1;
      d2 := d1 + Pow2(newLg);
      mem := mem[d1 := mem[d1].(lgsz := newLg)];
      mem := mem[d2 := Descr(0, 0, newLg, false)];
      InsertRegionAfter(d2, d1);
    }

    /** Cuts the first block of size class `k` in two. */
    method SplitFirst(k: nat)
      requires Core() && 0 < k < SIZES && blocks[k] != 0
      modifies this`mem, this`lnk, this`blocks, this`lists, this`view
      ensures Core() && blocks[k - 1] == old(blocks)[k] + Pow2(k + LG_MIN - 1)
      ensures old(blocks)[k] in old(view) && old(view)[old(blocks)[k]] == Block(k + LG_MIN, false)
      ensures view == SplitOf(old(view), old(blocks)[k])
      ensures Outside(old(mem), mem, old(lnk), lnk, old(view), view)
    {
      var d1 := blocks[k];
      ghost var _, e, f1, f2, f3, ls := SplitStep(mem, view, lo, hi, regions, FreeLists(lnk, blocks), lists, k);
      var d2 := CutRegion(d1);
      CutLinks(d1, d2, k, f1, f2, f3);
      lists, view := ls, SplitOf(view, d1);
    }

    /** One cut on the way from the partition `was` to a smaller block. */
    method SplitOne(k: nat, ghost was: Blocks, ghost heads: seq<nat>, ghost c: nat)
      requires Core() && 0 < k < SIZES && blocks[k] != 0 && CoalescedBut(view, blocks[k])
      requires Ordered(was) && Supplied(was, view, heads, c, blocks[k], k + LG_MIN, k + LG_MIN)
      modifies this`mem, this`lnk, this`blocks, this`lists, this`view
      ensures Core() && blocks[k - 1] != 0 && CoalescedBut(view, blocks[k - 1])
      ensures Supplied(was, view, heads, c, blocks[k - 1], k + LG_MIN, k + LG_MIN - 1)
      ensures old(view).Keys <= view.Keys && Outside(old(mem), mem, old(lnk), lnk, old(view), view)
      ensures BusyOf(view) == BusyOf(old(view)) && FreeBytes(view, lo, hi) == FreeBytes(old(view), lo, hi)
    {
      ghost var b, d := view, blocks[k];
      SuppliedAgain(was, view, heads, c, d, k + LG_MIN);
      SplitEffect(view, lo, hi, d);
      SplitFirst(k);
    }

    /** Makes the list of size class `k` non-empty if any free block is large enough. */
    method Supply(k: nat) returns (ghost c: nat)
      requires Core() && Coalesced(view) && k < SIZES
      modifies this`mem, this`lnk, this`blocks, this`lists, this`view
      ensures Core() && BusyOf(view) == BusyOf(old(view)) && FreeBytes(view, lo, hi) == FreeBytes(old(view), lo, hi)
      ensures blocks[k] != 0 ==> CoalescedBut(view, blocks[k])
      ensures blocks[k] != 0 ==> Supplied(old(view), view, old(blocks), c, blocks[k], k + LG_MIN, k + LG_MIN)
      ensures blocks[k] == 0 ==> NoneAbove(view, k + LG_MIN)
      ensures blocks[k] == 0 ==>
                mem == old(mem) && lnk == old(lnk) && blocks == old(blocks) && lists == old(lists) && view == old(view)
      ensures old(view).Keys <= view.Keys && Outside(old(mem), mem, old(lnk), lnk, old(view), view)
      decreases SIZES - k, 1
    {
      FirstOfList(view, FreeLists(lnk, blocks), lists, k);
      c := blocks[k];
      if blocks[k] == 0 {
        var ok;
        ok, c := Split(k + LG_MIN + 1);
        if ok { SuppliedBelow(old(view), view, old(blocks), c, blocks[k], k + LG_MIN); }
      } else {
        SuppliedAtOnce(view, blocks, c);
      }
    }

    /** `split`: makes a block of size 2^(lgsz-1) by cutting a larger free block, recursively. */
    method Split(lgsz: nat) returns (ok: bool, ghost c: nat)
      requires Core() && Coalesced(view)
      modifies this`mem, this`lnk, this`blocks, this`lists, this`view
      ensures Core() && old(view).Keys <= view.Keys
      ensures ok ==> LG_MIN < lgsz <= LG_MAX && blocks[lgsz - 1 - LG_MIN] != 0
      ensures ok ==> CoalescedBut(view, blocks[lgsz - 1 - LG_MIN])
      ensures ok ==> Supplied(old(view), view, old(blocks), c, blocks[lgsz - 1 - LG_MIN], lgsz, lgsz - 1)
      ensures !ok ==>
                mem == old(mem) && lnk == old(lnk) && blocks == old(blocks) && lists == old(lists) && view == old(view)
      ensures !ok && lgsz > LG_MIN ==> NoneAbove(view, lgsz)
      ensures BusyOf(view) == BusyOf(old(view)) && FreeBytes(view, lo, hi) == FreeBytes(old(view), lo, hi)
      ensures Outside(old(mem), mem, old(lnk), lnk, old(view), view)
      decreases if lgsz < LG_MIN then SIZES + 1 else if lgsz > LG_MAX then 0 else SIZES + LG_MIN - lgsz, 2
    {
      if lgsz <= LG_MIN || lgsz > LG_MAX {
        AllInRange(view, lo, hi);
        return false, 0;
      }
      var k := lgsz - LG_MIN;
      c := Supply(k);
      if blocks[k] == 0 {
        return false, c;
      }
      ghost var b, m, l := view, mem, lnk;
      SplitOne(k, old(view), old(blocks), c);
      OutsideTwice(old(mem), m, mem, old(lnk), l, lnk, old(view), b, view);
      return true, c;
    }

    // ---- combine -----------------------------------------------------------------------------

    /** `remove_region`, followed through the stored links. */
    method RemoveRegion(d: nat)
      requires CanDetach(mem, d)
      modifies this`mem, this`regions
      ensures mem == Detach(old(mem), d)
      ensures regions == if old(mem)[d].rprev == 0 then old(mem)[d].rnext else old(regions)
    {
      var p, n := mem[d].rprev, mem[d].rnext;
      if p != 0 {
        mem := mem[p := mem[p].(rnext := n)];
      } else {
        regions := n;
      }
      if n != 0 {
        mem := mem[n := mem[n].(rprev := p)];
      }
      mem := mem[d := mem[d].(rprev := 0, rnext := 0)];
    }

    /** The pointer surgery of one merge. */
    method JoinPair(l: nat, r: nat, lgsz: nat, ghost f1: FreeLists, ghost f2: FreeLists)
      requires l in mem && lgsz == mem[l].lgsz && LG_MIN <= lgsz && lgsz + 1 - LG_MIN < |blocks|
      requires CanDetach(mem[l := mem[l].(lgsz := lgsz + 1)], r) && mem[l := mem[l].(lgsz := lgsz + 1)][r].rprev != 0
      requires Linked(lnk, l) && (lnk[l].bprev != 0 || blocks[lgsz - LG_MIN] in lnk)
      requires f1 == Pull(FreeLists(lnk, blocks), lgsz - LG_MIN, l)
      requires |f1.heads| == |blocks| && Linked(f1.lnk, r)
      requires f1.lnk[r].bprev != 0 || f1.heads[lgsz - LG_MIN] in f1.lnk
      requires f2 == Pull(f1, lgsz - LG_MIN, r)
      requires |f2.heads| == |blocks| && l in f2.lnk
      requires f2.heads[lgsz + 1 - LG_MIN] == 0 || f2.heads[lgsz + 1 - LG_MIN] in f2.lnk
      modifies this`mem, this`regions, this`lnk, this`blocks
      ensures mem == Detach(old(mem)[l := old(mem)[l].(lgsz := lgsz + 1)], r) && regions == old(regions)
      ensures FreeLists(lnk, blocks) == Push(f2, lgsz + 1 - LG_MIN, l)
    {
      mem := mem[l := mem[l].(lgsz := lgsz + 1)];
      RemoveRegion(r);
      RemoveBlock(l, lgsz - LG_MIN);
      RemoveBlock(r, lgsz - LG_MIN);
      AddBlock(l, lgsz + 1 - LG_MIN);
    }

    method MergePair(l: nat, r: nat, ghost x: nat)
      requires Core() && FreeBuddies(view, l) && r == End(view, l) && CoalescedBut(view, x) && (x == l || x == r)
      modifies this`mem, this`regions, this`lnk, this`blocks, this`lists, this`view
      ensures Core() && l in view && l in mem && mem[l].lgsz == old(view)[l].lg + 1 <= LG_MAX
      ensures view == MergeOf(old(view), l) && Outside(old(mem), mem, old(lnk), lnk, old(view), view)
    {
      ghost var _, k, f1, f2, ls := MergeStep(mem, view, lo, hi, regions, FreeLists(lnk, blocks), lists, l);
      JoinPair(l, r, mem[l].lgsz, f1, f2);
      lists, view := ls, MergeOf(view, l);
      ChainAt(mem, view, lo, hi, regions, l);
    }

    /** `combine`: merges block `d` with its buddy as long as that buddy is free. */
    method Combine(d: nat)
      requires Core() && d in view && !view[d].busy && CoalescedBut(view, d)
      requires d in mem && mem[d].lgsz <= LG_MAX
      modifies this`mem, this`regions, this`lnk, this`blocks, this`lists, this`view
      ensures Core() && Coalesced(view)
      ensures BusyOf(view) == BusyOf(old(view)) && FreeBytes(view, lo, hi) == FreeBytes(old(view), lo, hi)
      ensures view.Keys <= old(view).Keys && Outside(old(mem), mem, old(lnk), lnk, old(view), view)
      decreases LG_MAX - mem[d].lgsz
    {
      CombineChoice(mem, view, lo, hi, regions, d);
      // is_aligned(d, 2 * size), where 2 * 2^31 wraps to 0 and then no address but 0 is aligned
      var c := if Aligned(d, mem[d].lgsz + 1) then mem[d].rnext else mem[d].rprev;
      if c == 0 || mem[d].lgsz != mem[c].lgsz || mem[c].busy {
        return;
      }
      var l, r := d, c;
      if l > r {
        l, r := r, l;
      }
      ghost var b := view;
      MergePair(l, r, d);
      MergeEffect(b, lo, hi, l, d);
      ghost var b1, m1, l1 := view, mem, lnk;
      Combine(l);
      OutsideTwice(old(mem), m1, mem, old(lnk), l1, lnk, old(view), b1, view);
    }

    // ---- alloc -------------------------------------------------------------------------------

    /** The block that `alloc_block` takes off the list of its size. */
    method TakeFirst(k: nat, ghost was: Blocks, ghost heads: seq<nat>, ghost c: nat) returns (d: nat)
      requires Core() && k < SIZES && blocks[k] != 0 && CoalescedBut(view, blocks[k])
      requires Ordered(was) && Supplied(was, view, heads, c, blocks[k], k + LG_MIN, k + LG_MIN)
      modifies this`mem, this`lnk, this`blocks, this`lists, this`view
      ensures Core() && Coalesced(view) && d == old(blocks)[k] && d in mem && mem[d].lgsz == k + LG_MIN
      ensures AllocatedFrom(was, view, c, d, k + LG_MIN) && ExactFit(was, view, d, k + LG_MIN)
      ensures view.Keys == old(view).Keys
      ensures BusyOf(view) == BusyOf(old(view))[d := k + LG_MIN] && d !in BusyOf(old(view))
      ensures FreeBytes(old(view), lo, hi) == FreeBytes(view, lo, hi) + Pow2(k + LG_MIN)
      ensures Outside(old(mem), mem, old(lnk), lnk, old(view), view)
    {
      SuppliedTaken(was, view, heads, c, blocks[k], k + LG_MIN);
      TakeEffect(view, lo, hi, blocks[k]);
      ghost var d0 := TakeStep(mem, view, lo, hi, regions, FreeLists(lnk, blocks), lists, k);
      d := blocks[k];
      RemoveBlock(d, k);
      mem := mem[d := mem[d].(busy := true)];
      lists, view := PullOf(lists, k, d), view[d := Block(k + LG_MIN, true)];
    }

    method TakeOne(k: nat) returns (d: nat, ghost c: nat)
      requires Core() && Coalesced(view) && k < SIZES
      modifies this`mem, this`lnk, this`blocks, this`lists, this`view
      ensures Core() && Coalesced(view)
      ensures d == 0 ==> view == old(view) && NoRange(view, lo, hi, k + LG_MIN)
      ensures d != 0 ==>
                && d in mem && mem[d].lgsz == k + LG_MIN
                && BusyOf(view) == BusyOf(old(view))[d := k + LG_MIN] && d !in BusyOf(old(view))
                && FreeBytes(old(view), lo, hi) == FreeBytes(view, lo, hi) + Pow2(k + LG_MIN)
                && Leads(old(view), old(blocks), c) && AllocatedFrom(old(view), view, c, d, k + LG_MIN)
                && ExactFit(old(view), view, d, k + LG_MIN)
      ensures Outside(old(mem), mem, old(lnk), lnk, old(view), view)
    {
      c := Supply(k);
      if blocks[k] == 0 {
        NoBlockNoRange(view, lo, hi, k + LG_MIN);
        return 0, c;
      }
      ghost var b, m, l := view, mem, lnk;
      d := TakeFirst(k, old(view), old(blocks), c);
      OutsideTwice(old(mem), m, mem, old(lnk), l, lnk, old(view), b, view);
    }

    /** The part of `alloc_block` behind the checks of the size. */
    method AllocSized(lgsz: nat) returns (d: nat, ghost c: nat)
      requires Valid() && LG_MIN <= lgsz <= LG_MAX
      modifies this
      ensures Valid() && lo == old(lo) && hi == old(hi) && initial == old(initial)
      ensures d == 0 ==> view == old(view) && NoRange(view, lo, hi, lgsz)
      ensures d != 0 ==>
                && d !in BusyOf(old(view)) && BusyOf(view) == BusyOf(old(view))[d := lgsz]
                && AllocatedFrom(old(view), view, c, d, lgsz) && Leads(old(view), old(blocks), c)
                && ExactFit(old(view), view, d, lgsz)
      ensures Outside(old(mem), mem, old(lnk), lnk, old(view), view)
    {
      if poolSize < Pow2(lgsz) {
        SmallPool(view, lo, hi, lgsz);
        return 0, 0;
      }
      d, c := TakeOne(lgsz - LG_MIN);
      if d != 0 {
        poolSize := poolSize - Pow2(mem[d].lgsz);
      }
    }

    /**
     `alloc_block`: a block of 2^size bytes, or 0 when there is none. It is cut from a smallest
     sufficient free block, the first of its list, and not cut at all if the size is just right.
     */
    method AllocBlock(size: nat) returns (d: nat, ghost c: nat)
      requires Valid()
      modifies this
      ensures Valid() && lo == old(lo) && hi == old(hi) && initial == old(initial)
      ensures var lg := AtLeastMin(size);
              && (d == 0 ==> view == old(view) && (size > LG_MAX || NoRange(view, lo, hi, lg)))
              && (d != 0 ==> size <= LG_MAX && d !in BusyOf(old(view)) && BusyOf(view) == BusyOf(old(view))[d := lg])
              && (d != 0 ==> AllocatedFrom(old(view), view, c, d, lg) && Leads(old(view), old(blocks), c))
              && (d != 0 ==> ExactFit(old(view), view, d, lg))
      ensures Outside(old(mem), mem, old(lnk), lnk, old(view), view)
    {
      var lgsz := size;
      if lgsz > LG_MAX {
        return 0, 0;
      }
      if lgsz < LG_MIN {
        lgsz := LG_MIN;
      }
      d, c := AllocSized(lgsz);
    }

    /**
     `alloc`: a buffer behind a block header. The 32-bit sum of size and header wraps for
     sizes near 2^32; exactly then a successful result is too small for the request.
     */
    method Alloc(sz: nat) returns (p: nat)
      requires Valid() && sz < 0x1_0000_0000
      modifies this
      ensures Valid() && lo == old(lo) && hi == old(hi) && initial == old(initial)
      ensures Outside(old(mem), mem, old(lnk), lnk, old(view), view)
      ensures p == 0 ==> view == old(view)
      ensures p == 0 && 0 < sz && Sum32(sz, HEADER) <= Pow2(LG_MAX) ==>
                NoRange(view, lo, hi, AtLeastMin(CeilLog2(Sum32(sz, HEADER))))
      ensures p != 0 ==> p > HEADER && sz > 0 && p - HEADER in BusyOf(view) && p - HEADER !in BusyOf(old(view))
                         && BusyOf(old(view)) == BusyOf(view) - {p - HEADER}
                         && AllocatedAt(old(view), view, p - HEADER)
                         && (p + sz <= p - HEADER + Pow2(BusyOf(view)[p - HEADER]) <==> sz + HEADER < 0x1_0000_0000)
    {
      if sz == 0 {
        return 0;
      }
      var want := Sum32(sz, HEADER);
      LimitIsPower();
      var lg := GetLog2Top(want);
      var d, c := AllocBlock(lg);
      if d == 0 {
        if want <= Pow2(LG_MAX) { CeilLog2Bound(want, LG_MAX); }
        return 0;
      }
      AllocFits(sz, want, lg);
      OneMoreBusy(old(view), view, c, d, AtLeastMin(lg));
      return d + HEADER;
    }

    // ---- add ---------------------------------------------------------------------------------

    /** The writes of one turn of the loop in `add`. */
    method LinkBlock(prev: nat, d: nat, lg: nat, ghost f1: FreeLists)
      requires (prev == 0 <==> regions == 0) && (prev == 0 || (prev in mem && prev != d))
      requires LG_MIN <= lg < |blocks| + LG_MIN
      requires f1 == FreeLists(lnk[d := Links(0, 0)], blocks)
      requires f1.heads[lg - LG_MIN] == 0 || f1.heads[lg - LG_MIN] in f1.lnk
      modifies this`mem, this`lnk, this`regions, this`blocks
      ensures mem == AppendMemory(old(mem), prev, d, lg) && regions == (if prev == 0 then d else old(regions))
      ensures FreeLists(lnk, blocks) == Push(f1, lg - LG_MIN, d)
    {
      mem, lnk := mem[d := Descr(0, 0, lg, false)], lnk[d := Links(0, 0)];
      if regions == 0 {
        regions := d;
      } else {
        InsertRegionAfter(d, prev);
      }
      if blocks[lg - LG_MIN] == 0 {
        blocks := blocks[lg - LG_MIN := d];
      } else {
        AddBlock(d, lg - LG_MIN);
      }
    }

    /** Appends one free block of 2^lg bytes at the end of the arena. */
    method AppendBlock(prev: nat, d: nat, lg: nat)
      requires Core() && d == hi && LG_MIN <= lg <= LG_MAX && Aligned(d, lg) && d + Pow2(lg) <= LIMIT
      requires if lo == hi then prev == 0 else prev in view && End(view, prev) == hi
      modifies this`mem, this`lnk, this`regions, this`blocks, this`lists, this`view, this`hi
      ensures Core() && hi == old(hi) + Pow2(lg)
      ensures view == old(view)[d := Block(lg, false)] && d !in old(view)
    {
      AppendStep(mem, view, lo, hi, regions, FreeLists(lnk, blocks), lists, prev, lg);
      LinkBlock(prev, d, lg, FreeLists(lnk[d := Links(0, 0)], blocks));
      lists, view, hi := PushOf(lists, lg - LG_MIN, d), view[d := Block(lg, false)], hi + Pow2(lg);
    }

    /** Everything below `start` is filled with the largest blocks that fit before `end`. */
    ghost predicate Filled(from: nat, start: nat, end: nat, prev: nat)
      reads this
    {
      && Core() && AllFree(view) && lo == from && hi == start <= end <= LIMIT
      && Aligned(start, LG_MIN) && Aligned(end - start, LG_MIN)
      && (if lo == hi then prev == 0 else prev in view && End(view, prev) == hi)
      && (forall a :: a in view ==> Maximal(a, view[a].lg, end))
      && poolSize == hi - lo
    }

    method FillOne(prev: nat, start: nat, lgsz: nat, ghost from: nat, ghost end: nat)
      requires Filled(from, start, end, prev)
      requires LG_MIN <= lgsz <= LG_MAX && Fits(start, lgsz, end) && Maximal(start, lgsz, end)
      modifies this
      ensures Filled(from, start + Pow2(lgsz), end, start)
    {
      AlignedStep(start, lgsz, end - start);
      AppendBlock(prev, start, lgsz);
      poolSize := poolSize + Pow2(lgsz);
    }

    /** The loop of `add`: the largest fitting block at every address, from start to end. */
    method Fill(from: nat, end: nat)
      requires Filled(from, from, end, regions)
      modifies this
      ensures exists prev :: Filled(from, end, end, prev)
    {
      var start: nat := from;
      var prev: nat := regions;
      var lgsz := FindMaxBlock(start, end - start);
      while lgsz != 0
        invariant Filled(from, start, end, prev)
        invariant lgsz == 0 <==> start == end
        invariant lgsz != 0 ==> LG_MIN <= lgsz <= LG_MAX && Fits(start, lgsz, end) && Maximal(start, lgsz, end)
        decreases end - start
      {
        FillOne(prev, start, lgsz, from, end);
        prev := start;
        start := start + Pow2(lgsz);
        lgsz := FindMaxBlock(start, end - start);
      }
    }

    /** `add` on an empty pool. A range that passes the end of the address space is refused. */
    method Add(buf: nat, sz: nat) returns (rc: int)
      requires Valid() && view == map[]
      requires 0 < buf <= 0xffff_ffe0 && sz < 0x1_0000_0000
      modifies this
      ensures Valid()
      ensures var start, end := RoundUp(buf, 32), RoundDown(Sum32(buf, sz), 32);
              && (rc == 0 <==> start < end) && (rc == -1 <==> start >= end)
              && (rc == 0 ==> lo == start && hi == end && view == initial && AllFree(view) && poolSize == end - start)
              && (rc == -1 ==> view == old(view) && poolSize == old(poolSize))
    {
      var start, end := RoundUp(buf, 32), RoundDown(Sum32(buf, sz), 32);
      if start >= end {
        return -1;
      }
      LimitIsPower();
      GranuleAligned(start, end);
      EmptyPool(view, lo, hi, regions, FreeLists(lnk, blocks), lists, mem, start);
      lo, hi := start, start;
      Fill(start, end);
      GreedyCoalesced(view, lo, hi);
      AllFreeBytes(view, lo, hi, lo);
      initial := view;
      return 0;
    }

    // ---- free --------------------------------------------------------------------------------

    method GiveBack(d: nat, k: nat)
      requires Core() && d in view && view[d] == Block(k + LG_MIN, true)
      requires d in mem && k < |blocks| && d in lnk && (blocks[k] == 0 || blocks[k] in lnk)
      modifies this`mem, this`lnk, this`blocks, this`lists, this`view
      ensures Core() && view == old(view)[d := Block(k + LG_MIN, false)] && d in mem && mem[d].lgsz == k + LG_MIN
      ensures Outside(old(mem), mem, old(lnk), lnk, old(view), view)
    {
      ghost var k0 := GiveStep(mem, view, lo, hi, regions, FreeLists(lnk, blocks), lists, d);
      AddBlock(d, k);
      mem := mem[d := mem[d].(busy := false)];
      lists, view := PushOf(lists, k, d), view[d := Block(k + LG_MIN, false)];
    }

    /** `free_block`: the block goes back to the pool and is merged as far as possible. */
    method FreeBlock(d: nat) returns (size: nat)
      requires Valid() && d in BusyOf(view)
      modifies this
      ensures Valid() && lo == old(lo) && hi == old(hi) && initial == old(initial)
      ensures BusyOf(view) == BusyOf(old(view)) - {d}
      ensures size == Pow2(BusyOf(old(view))[d]) && poolSize == old(poolSize) + size
      ensures Outside(old(mem), mem, old(lnk), lnk, old(view), view)
    {
      ghost var b := view;
      ghost var k := GiveStep(mem, view, lo, hi, regions, FreeLists(lnk, blocks), lists, d);
      GiveEffect(view, lo, hi, d);
      GiveBack(d, mem[d].lgsz - LG_MIN);
      size := Pow2(mem[d].lgsz);
      ghost var b1, m1, l1 := view, mem, lnk;
      Combine(d);
      OutsideTwice(old(mem), m1, mem, old(lnk), l1, lnk, old(view), b1, view);
      poolSize := poolSize + size;
    }

    /** `free`: accepts null and any buffer that `alloc` returned and nobody freed since. */
    method Free(p: nat) returns (size: nat)
      requires Valid() && (p == 0 || (p > HEADER && p - HEADER in BusyOf(view)))
      modifies this
      ensures Valid() && lo == old(lo) && hi == old(hi) && initial == old(initial)
      ensures p == 0 ==> size == 0 && view == old(view) && poolSize == old(poolSize)
      ensures p != 0 ==> BusyOf(view) == BusyOf(old(view)) - {p - HEADER} && poolSize == old(poolSize) + size
      ensures Outside(old(mem), mem, old(lnk), lnk, old(view), view)
    {
      if p == 0 {
        return 0;
      }
      size := FreeBlock(p - HEADER);
    }

    /** The owner of a buffer may write anywhere in it; what is written there meets no header. */
    method UserWrite(owner: nat, a: nat, region: Descr, links: Links)
      requires Valid() && owner in BusyOf(view)
      requires owner + HEADER <= a && a + HEADER <= owner + Pow2(BusyOf(view)[owner])
      modifies this`mem, this`lnk
      ensures Valid() && forall x :: x in view ==> a + HEADER <= x || x + HEADER <= a
    {
      UserWriteOk(mem, view, lo, hi, regions, FreeLists(lnk, blocks), lists, owner, a, region, links);
      mem, lnk := mem[a := region], lnk[a := links];
    }

    // ---- whole histories -----------------------------------------------------------------------

    /** Once everything is freed, the pool is back to the decomposition that `add` produced. */
    lemma FreedPoolIsInitial()
      requires Valid() && BusyOf(view) == map[]
      ensures view == initial && poolSize == hi - lo
    {
      forall a | a in view ensures !view[a].busy { assert view[a].busy ==> a in BusyOf(view); }
      AllFreeIsUnique(view, initial, lo, hi);
      AllFreeBytes(view, lo, hi, lo);
    }

    /** The partition depends on nothing but the live buffers, so freeing a buffer undoes its allocation. */
    lemma FreeUndoesAlloc(before: Blocks, d: nat, lg: nat)
      requires Valid() && Tiles(before, lo, hi) && Coalesced(before) && d !in BusyOf(before)
      requires BusyOf(view) == BusyOf(before)[d := lg] - {d}
      ensures view == before
    {
      assert BusyOf(before)[d := lg] - {d} == BusyOf(before);
      BusyDecides(view, before, lo, hi);
    }

    /** Live buffers lie inside the arena and do not overlap. */
    lemma BuffersDisjoint(d1: nat, d2: nat)
      requires Valid() && d1 in BusyOf(view) && d2 in BusyOf(view) && d1 < d2
      ensures lo <= d1 && d1 + Pow2(BusyOf(view)[d1]) <= d2 && d2 + Pow2(BusyOf(view)[d2]) <= hi
    {
      assert End(view, d1) <= d2 && End(view, d2) <= hi;
    }
  }

  /** A sum of two words in 32 bits. */
  function Sum32(a: nat, b: nat): (r: nat)
    requires a < 0x1_0000_0000 && b < 0x1_0000_0000
    ensures r < 0x1_0000_0000 && (r == a + b || r == a + b - 0x1_0000_0000)
  {
    if a + b < 0x1_0000_0000 then a + b else a + b - 0x1_0000_0000
  }

  function AtLeastMin(lg: nat): nat {
    if lg < LG_MIN then LG_MIN else lg
  }

  /** The least exponent with 2^r at least `n`. */
  ghost function CeilLog2(n: nat): (r: nat)
    ensures n <= Pow2(r) && (r > 0 ==> Pow2(r - 1) < n)
  {
    if n <= 1 then 0 else 1 + CeilLog2((n + 1) / 2)
  }

  lemma CeilLog2Unique(n: nat, r: nat)
    requires n <= Pow2(r) && (r > 0 ==> Pow2(r - 1) < n)
    ensures r == CeilLog2(n)
  {
    var c := CeilLog2(n);
    if r < c { if r < c - 1 { Pow2Monotone(r, c - 1); } }
    if c < r { if c < r - 1 { Pow2Monotone(c, r - 1); } }
  }

  lemma CeilLog2Bound(n: nat, k: nat)
    requires n <= Pow2(k)
    ensures CeilLog2(n) <= k
  {
    var c := CeilLog2(n);
    if c > 0 { Pow2Le(k, c - 1); }
  }

  /** The block that `alloc` asks for holds header and buffer exactly when the sum did not wrap. */
  lemma AllocFits(sz: nat, want: nat, lg: nat)
    requires 0 < sz < 0x1_0000_0000 && want == Sum32(sz, HEADER)
    requires lg == CeilLog2(want) <= LG_MAX
    ensures sz + HEADER <= Pow2(AtLeastMin(lg)) <==> sz + HEADER < 0x1_0000_0000
  {
    if lg < LG_MIN { Pow2Monotone(lg, LG_MIN); }
    var k := AtLeastMin(lg);
    if k < LG_MAX { Pow2Monotone(k, LG_MAX); }
    LimitIsPower();
  }

  /** `get_log2sz_top_range`: the top bit of a 32-bit size, rounded up. */
  method GetLog2Top(n: nat) returns (lg: nat)
    requires n < LIMIT
    ensures lg == CeilLog2(n)
  {
    if n == 0 {
      return 0;
    }
    LimitIsPower();
    var i := 31;
    while i > 0 && Quot(n, Pow2(i)) == 0
      invariant 0 <= i <= 31
      invariant n < Pow2(i + 1)
    {
      i := i - 1;
    }
    lg := i;
    if Pow2(lg) != n {
      lg := lg + 1;
    }
    if lg > 0 && Pow2(lg) == n { assert Pow2(lg - 1) < n; }
    CeilLog2Unique(n, lg);
  }

  lemma OneBlockRange(b: Blocks)
    requires AllFree(b)
    ensures FreeRange(b, 32, 64, 32, 5)
  {
    assert Pow2(5) == 32;
    Pow2Aligned(5, 5);
  }

  lemma WrappingRequest()
    ensures Sum32(0xffff_fff0, HEADER) == 8 && CeilLog2(8) == 3 && Pow2(LG_MAX) > 8
  {
    assert Pow2(3) == 8;
    CeilLog2Unique(8, 3);
    Pow2Monotone(3, LG_MAX);
  }

  /**
   A run in which the sum wraps: the arena is one block of 32 bytes, and a request for nearly 2^32
   bytes gets it.
   */
  method WrappingAlloc() returns (pool: Pool, p: nat)
    ensures pool.Valid() && p > HEADER && p - HEADER in BusyOf(pool.view)
    ensures p + 0xffff_fff0 > p - HEADER + Pow2(BusyOf(pool.view)[p - HEADER])
  {
    pool := new Pool();
    assert Rem(32, 32) == Rem(0, 32) && Rem(64, 32) == Rem(32, 32);
    var _ := pool.Add(32, 32);
    OneBlockRange(pool.view);
    WrappingRequest();
    p := pool.Alloc(0xffff_fff0);
  }
}
