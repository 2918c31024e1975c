/**
 The memory handover at start-up: alpha asks sigma0 for flexpages of decreasing size, sigma0
 carves them out of its list of conventional memory.
 */
module Handover {
  import opened Options
  import opened Arith

  /** A stretch of memory; all conventional memory has the same access rights. */
  datatype Mem = Mem(addr: nat, size: nat)

  function End(m: Mem): nat {
    m.addr + m.size
  }

  /** `Cfg_page_sz` as a power of two. */
  const PAGE_LOG: nat := 12
  /** The first request, 2 GB. */
  const FIRST_LOG: nat := 31

  // ---- weighing lists of regions -------------------------------------------------------------

  function Sum(s: seq<Mem>, weight: Mem -> nat): nat {
    if s == [] then 0 else Sum(s[..|s| - 1], weight) + weight(s[|s| - 1])
  }

  /** 1 if `m` covers address `x`. */
  function Cover(x: nat): Mem -> nat {
    (m: Mem) => if m.addr <= x < m.addr + m.size then 1 else 0
  }

  /** How many regions of the list cover `x`. */
  function Count(s: seq<Mem>, x: nat): nat {
    Sum(s, Cover(x))
  }

  function Size(): Mem -> nat {
    (m: Mem) => m.size
  }

  /** The bytes of all regions. */
  function Bytes(s: seq<Mem>): nat {
    Sum(s, Size())
  }

  lemma SumAppend(s: seq<Mem>, m: Mem, weight: Mem -> nat)
    ensures Sum(s + [m], weight) == Sum(s, weight) + weight(m)
  {
    assert (s + [m])[..|s|] == s;
  }

  lemma {:induction false} SumUpdate(s: seq<Mem>, i: nat, m: Mem, weight: Mem -> nat)
    requires i < |s|
    ensures Sum(s[i := m], weight) + weight(s[i]) == Sum(s, weight) + weight(m)
    decreases |s|
  {
    var n := |s| - 1;
    if i < n {
      SumUpdate(s[..n], i, m, weight);
      assert s[i := m][..n] == s[..n][i := m];
    } else {
      assert s[i := m][..n] == s[..n];
    }
  }

  lemma {:induction false} SumErase(s: seq<Mem>, i: nat, weight: Mem -> nat)
    requires i < |s|
    ensures Sum(s[..i] + s[i + 1..], weight) + weight(s[i]) == Sum(s, weight)
    decreases |s|
  {
    var n := |s| - 1;
    var t := s[..i] + s[i + 1..];
    if i < n {
      SumErase(s[..n], i, weight);
      assert t[..n - 1] == s[..n][..i] + s[..n][i + 1..];
      assert t[n - 1] == s[n];
    } else {
      assert t == s[..n];
    }
  }

  lemma {:induction false} SumAtLeast(s: seq<Mem>, i: nat, weight: Mem -> nat)
    requires i < |s|
    ensures weight(s[i]) <= Sum(s, weight)
    decreases |s|
  {
    if i < |s| - 1 { SumAtLeast(s[..|s| - 1], i, weight); }
  }

  /** If no address is covered twice, the regions are disjoint. */
  lemma CountedOnce(s: seq<Mem>, i: nat, j: nat)
    requires i < j < |s| && s[i].size > 0 && s[j].size > 0 && forall x :: Count(s, x) <= 1
    ensures End(s[i]) <= s[j].addr || End(s[j]) <= s[i].addr
  {
    var x := if s[i].addr < s[j].addr then s[j].addr else s[i].addr;
    var w := Cover(x);
    SumErase(s, i, w);
    var t := s[..i] + s[i + 1..];
    assert t[j - 1] == s[j];
    SumAtLeast(t, j - 1, w);
    assert Count(s, x) <= 1;
  }

  // ---- carving -------------------------------------------------------------------------------

  /** Where a flexpage of `size` bytes would lie in a region. */
  function PlaceIn(m: Mem, size: nat): nat
    requires size > 0
  {
    RoundUp(m.addr, size)
  }

  predicate Fits(m: Mem, size: nat)
    requires size > 0
  {
    PlaceIn(m, size) + size <= End(m)
  }

  /** `a` is a place for an aligned flexpage of 2^k bytes inside the region. */
  ghost predicate RoomAt(m: Mem, k: nat, a: nat) {
    Aligned(a, k) && m.addr <= a && a + Pow2(k) <= End(m)
  }

  /** The computed place is the lowest one, and the test fails exactly if there is none. */
  lemma {:induction false} FitsMeans(m: Mem, k: nat)
    ensures Fits(m, Pow2(k)) <==> exists a :: RoomAt(m, k, a)
    ensures Fits(m, Pow2(k)) ==> RoomAt(m, k, PlaceIn(m, Pow2(k)))
    ensures forall a :: RoomAt(m, k, a) ==> PlaceIn(m, Pow2(k)) <= a
  {
    AlignedIsMultiple(PlaceIn(m, Pow2(k)), k);
    assert Fits(m, Pow2(k)) ==> RoomAt(m, k, PlaceIn(m, Pow2(k)));
    forall a | RoomAt(m, k, a) ensures PlaceIn(m, Pow2(k)) <= a {
      AlignedIsMultiple(a, k);
      RoundUpLeast(m.addr, Pow2(k), a);
    }
  }

  /** No region has room for a flexpage of 2^k bytes. */
  ghost predicate NoRoom(s: seq<Mem>, k: nat) {
    forall i {:trigger s[i]} :: 0 <= i < |s| ==> !Fits(s[i], Pow2(k))
  }

  lemma {:induction false} PieceFits(m: Mem, p: Mem, k: nat)
    requires m.addr <= p.addr && End(p) <= End(m) && Fits(p, Pow2(k))
    ensures Fits(m, Pow2(k))
  {
    FitsMeans(p, k);
    FitsMeans(m, k);
    assert RoomAt(m, k, PlaceIn(p, Pow2(k)));
  }

  /** Cutting a piece out of a region makes no room for a larger one. */
  lemma {:induction false} CarvedNoRoom(s: seq<Mem>, i: nat, a: nat, size: nat, k: nat)
    requires NoRoom(s, k) && i < |s| && s[i].addr <= a && a + size <= End(s[i])
    ensures NoRoom(Carved(s, i, a, size), k)
  {
    var m, t := s[i], Carved(s, i, a, size);
    var l, r := Mem(m.addr, a - m.addr), Mem(a + size, End(m) - a - size);
    forall j | 0 <= j < |t| ensures !Fits(t[j], Pow2(k)) {
      assert t[j] == l || t[j] == r || t[j] in s;
      if t[j] == l || t[j] == r {
        if Fits(t[j], Pow2(k)) { PieceFits(m, t[j], k); }
      }
    }
  }

  /** The list after `[a, a + size)` was cut out of region `i`. */
  function Carved(s: seq<Mem>, i: nat, a: nat, size: nat): seq<Mem>
    requires i < |s| && s[i].addr <= a && a + size <= End(s[i])
  {
    var m := s[i];
    if a == m.addr && m.size == size then s[..i] + s[i + 1..]
    else if a == m.addr then s[i := Mem(a + size, m.size - size)]
    else if End(m) == a + size then s[i := Mem(m.addr, m.size - size)]
    else s[i := Mem(a + size, End(m) - a - size)] + [Mem(m.addr, a - m.addr)]
  }

  /** A weight that is the sum over the pieces of a region. */
  ghost predicate Additive(weight: Mem -> nat, m: Mem, a: nat, size: nat)
    requires m.addr <= a && a + size <= End(m)
  {
    && weight(Mem(m.addr, 0)) == 0 && weight(Mem(a + size, 0)) == 0
    && weight(m) == weight(Mem(m.addr, a - m.addr)) + weight(Mem(a, size)) + weight(Mem(a + size, End(m) - a - size))
  }

  /** Carving moves the weight of the cut piece out of the list and leaves the rest. */
  lemma {:induction false} CarvedSum(s: seq<Mem>, i: nat, a: nat, size: nat, weight: Mem -> nat)
    requires i < |s| && s[i].addr <= a && a + size <= End(s[i]) && Additive(weight, s[i], a, size)
    ensures Sum(Carved(s, i, a, size), weight) + weight(Mem(a, size)) == Sum(s, weight)
  {
    var m := s[i];
    var l, r := Mem(m.addr, a - m.addr), Mem(a + size, End(m) - a - size);
    if a == m.addr && m.size == size {
      SumErase(s, i, weight);
    } else if a == m.addr {
      SumUpdate(s, i, r, weight);
      assert Carved(s, i, a, size) == s[i := r];
    } else if End(m) == a + size {
      SumUpdate(s, i, l, weight);
      assert Carved(s, i, a, size) == s[i := l];
    } else {
      SumUpdate(s, i, r, weight);
      SumAppend(s[i := r], l, weight);
    }
  }

  /** Regions are non-empty and made of whole pages of `2^p` bytes. */
  ghost predicate Whole(s: seq<Mem>, p: nat) {
    forall i {:trigger s[i]} :: 0 <= i < |s| ==> WholeRegion(s[i], p)
  }

  ghost predicate WholeRegion(m: Mem, p: nat) {
    m.size > 0 && Aligned(m.addr, p) && Aligned(m.size, p)
  }

  ghost predicate Paged(s: seq<Mem>) {
    Whole(s, PAGE_LOG)
  }

  lemma {:induction false} CarvedWhole(s: seq<Mem>, i: nat, a: nat, size: nat, p: nat)
    requires Whole(s, p) && i < |s| && s[i].addr <= a && a + size <= End(s[i]) && size > 0
    requires Aligned(a, p) && Aligned(size, p)
    ensures Whole(Carved(s, i, a, size), p)
  {
    PiecesWhole(s[i], a, size, p);
  }

  lemma {:induction false} PiecesWhole(m: Mem, a: nat, size: nat, p: nat)
    requires WholeRegion(m, p) && m.addr <= a && a + size <= End(m) && Aligned(a, p) && Aligned(size, p)
    ensures a > m.addr ==> WholeRegion(Mem(m.addr, a - m.addr), p)
    ensures a + size < End(m) ==> WholeRegion(Mem(a + size, End(m) - a - size), p)
  {
    AlignedSum(m.addr, a - m.addr, p);
    AlignedSum(a, size, p);
    AlignedSum(m.addr, m.size, p);
    AlignedSum(a + size, End(m) - a - size, p);
  }

  // ---- sigma0 --------------------------------------------------------------------------------

  class Sigma0 {
    var conventional: seq<Mem>
    var convMemSize: nat

    /** `conv_mem_size` is the number of bytes left. */
    ghost predicate Valid()
      reads this
    {
      convMemSize == Bytes(conventional)
    }

    constructor (regions: seq<Mem>)
      ensures Valid() && conventional == regions
    {
      conventional, convMemSize := [], 0;
      new;
      for i := 0 to |regions|
        invariant Valid() && conventional == regions[..i]
      {
        SumAppend(conventional, regions[i], Size());
        conventional := conventional + [regions[i]];
        convMemSize := convMemSize + regions[i].size;
      }
    }

    /** A request for any memory of `2^k` bytes: granted from the first region with room, if any. */
    method Request(k: nat) returns (grant: Option<Mem>)
      requires Valid()
      modifies this
      ensures Valid()
      ensures grant.None? <==> NoRoom(old(conventional), k)
      ensures grant.None? ==> conventional == old(conventional)
      ensures grant.Some? ==>
                exists i :: 0 <= i < |old(conventional)|
                            && GrantedFrom(old(conventional), i, Pow2(k), grant.value, conventional)
    {
      var size := Pow2(k);
      grant := None;
      var it := 0;
      while it < |conventional|
        invariant it <= |conventional|
        invariant forall i {:trigger conventional[i]} :: 0 <= i < it ==> !Fits(conventional[i], size)
      {
        var m := conventional[it];
        if m.size >= size {
          var alignedVa := RoundUp(m.addr, size);
          var diff := alignedVa - m.addr;
          if m.size - diff >= size {
            ghost var s := conventional;
            SizeAdditive(m, alignedVa, size);
            CarvedSum(s, it, alignedVa, size, Size());
            convMemSize := convMemSize - size;
            grant := Some(Mem(alignedVa, size));
            Carve(it, diff, alignedVa, size);
            assert GrantedFrom(s, it, size, grant.value, conventional);
            return;
          }
        }
        it := it + 1;
      }
    }

    /** Removes a flexpage from region `it`, which may leave nothing, one piece or two. */
    method Carve(it: nat, diff: nat, alignedVa: nat, size: nat)
      requires it < |conventional| && alignedVa == conventional[it].addr + diff && diff + size <= conventional[it].size
      modifies this`conventional
      ensures conventional == Carved(old(conventional), it, alignedVa, size)
    {
      var m := conventional[it];
      if diff == 0 && m.size == size {
        conventional := conventional[..it] + conventional[it + 1..];
      } else if diff == 0 {
        conventional := conventional[it := Mem(m.addr + size, m.size - size)];
      } else if End(m) == alignedVa + size {
        conventional := conventional[it := Mem(m.addr, m.size - size)];
      } else {
        conventional := conventional + [Mem(m.addr, diff)];
        conventional := conventional[it := Mem(alignedVa + size, m.size - diff - size)];
      }
    }
  }

  /** From list `s` to `s'`, the flexpage `g` of `size` bytes was carved out of region `i`, the first with room. */
  ghost predicate GrantedFrom(s: seq<Mem>, i: nat, size: nat, g: Mem, s': seq<Mem>)
    requires size > 0 && i < |s|
  {
    && Fits(s[i], size) && g == Mem(PlaceIn(s[i], size), size) && s' == Carved(s, i, g.addr, size)
    && (forall j :: 0 <= j < i ==> !Fits(s[j], size))
  }

  lemma SizeAdditive(m: Mem, a: nat, size: nat)
    requires m.addr <= a && a + size <= End(m)
    ensures Additive(Size(), m, a, size)
  {
  }

  lemma CoverAdditive(m: Mem, a: nat, size: nat, x: nat)
    requires m.addr <= a && a + size <= End(m)
    ensures Additive(Cover(x), m, a, size)
  {
  }

  /** What one grant means: aligned, non-empty, taken out of the memory, address by address. */
  lemma {:induction false} GrantMeaning(s: seq<Mem>, i: nat, k: nat, g: Mem, s': seq<Mem>)
    requires i < |s| && GrantedFrom(s, i, Pow2(k), g, s')
    ensures g.size == Pow2(k) && Aligned(g.addr, k)
    ensures Bytes(s') + g.size == Bytes(s)
    ensures forall x :: Count(s', x) + Cover(x)(g) == Count(s, x)
    ensures Paged(s) && k >= PAGE_LOG ==> Paged(s')
  {
    AlignedIsMultiple(g.addr, k);
    SizeAdditive(s[i], g.addr, g.size);
    CarvedSum(s, i, g.addr, g.size, Size());
    forall x ensures Count(s', x) + Cover(x)(g) == Count(s, x) {
      CoverAdditive(s[i], g.addr, g.size, x);
      CarvedSum(s, i, g.addr, g.size, Cover(x));
    }
    if Paged(s) && k >= PAGE_LOG {
      AlignedDown(g.addr, k, PAGE_LOG);
      Pow2Aligned(k, PAGE_LOG);
      CarvedWhole(s, i, g.addr, g.size, PAGE_LOG);
    }
  }

  // ---- alpha ---------------------------------------------------------------------------------

  /** Every grant is a flexpage: a power of two from a page to 2 GB, aligned to its size. */
  ghost predicate Flexpage(g: Mem) {
    exists k: nat :: PAGE_LOG <= k <= FIRST_LOG && g.size == Pow2(k) && Aligned(g.addr, k)
  }

  /** Grants and remaining memory together are the initial memory, address by address. */
  ghost predicate Conserved(initial: seq<Mem>, left: seq<Mem>, grants: seq<Mem>) {
    && Bytes(left) + Bytes(grants) == Bytes(initial)
    && (forall x :: Count(left, x) + Count(grants, x) == Count(initial, x))
    && (forall i {:trigger grants[i]} :: 0 <= i < |grants| ==> Flexpage(grants[i]))
    && (Paged(initial) ==> Paged(left))
  }

  lemma {:induction false} GrantConserves(initial: seq<Mem>, s: seq<Mem>, grants: seq<Mem>, i: nat, k: nat, g: Mem,
                                          s': seq<Mem>)
    requires Conserved(initial, s, grants) && i < |s| && PAGE_LOG <= k <= FIRST_LOG && GrantedFrom(s, i, Pow2(k), g, s')
    ensures Conserved(initial, s', grants + [g]) && Bytes(s') < Bytes(s)
  {
    GrantMeaning(s, i, k, g, s');
    SumAppend(grants, g, Size());
    forall x ensures Count(s', x) + Count(grants + [g], x) == Count(initial, x) {
      SumAppend(grants, g, Cover(x));
      assert Count(s', x) + Cover(x)(g) == Count(s, x);
    }
    assert Flexpage(g);
  }

  /** A grant of 2^k bytes, made when no region had room for twice as much, or of the first size asked for. */
  ghost predicate Largest(s: seq<Mem>, g: Mem, s': seq<Mem>) {
    exists i: nat, k: nat :: LargestAt(s, g, s', i, k)
  }

  ghost predicate LargestAt(s: seq<Mem>, g: Mem, s': seq<Mem>, i: nat, k: nat) {
    && i < |s| && PAGE_LOG <= k <= 31 && GrantedFrom(s, i, Pow2(k), g, s')
    && (k == 31 || NoRoom(s, k + 1))
  }

  /** The lists between the grants: each grant takes the largest flexpage that is to be had. */
  ghost predicate LargestFirst(trace: seq<seq<Mem>>, grants: seq<Mem>) {
    && |trace| == |grants| + 1
    && (forall n: nat {:trigger LargestStep(trace, grants, n)} :: n < |grants| ==> LargestStep(trace, grants, n))
  }

  ghost predicate LargestStep(trace: seq<seq<Mem>>, grants: seq<Mem>, n: nat) {
    n < |grants| && n + 1 < |trace| && Largest(trace[n], grants[n], trace[n + 1])
  }

  lemma {:induction false} LargestGoesOn(trace: seq<seq<Mem>>, grants: seq<Mem>, g: Mem, s': seq<Mem>, i: nat, k: nat)
    requires LargestFirst(trace, grants) && LargestAt(trace[|grants|], g, s', i, k)
    ensures LargestFirst(trace + [s'], grants + [g]) && (k < 31 ==> NoRoom(s', k + 1))
  {
    assert Largest(trace[|grants|], g, s');
    var t', g' := trace + [s'], grants + [g];
    forall n: nat | n < |g'| ensures LargestStep(t', g', n) {
      assert n < |grants| ==> LargestStep(trace, grants, n);
    }
    if k < 31 { CarvedNoRoom(trace[|grants|], i, g.addr, g.size, k + 1); }
  }

  /** Between two requests: no flexpage larger than the one that is asked for now can be had. */
  ghost predicate Handing(initial: seq<Mem>, s: seq<Mem>, grants: seq<Mem>, trace: seq<seq<Mem>>, k: nat) {
    && k <= FIRST_LOG && Conserved(initial, s, grants)
    && LargestFirst(trace, grants) && trace[0] == initial && trace[|grants|] == s
    && (k < FIRST_LOG ==> NoRoom(s, k + 1))
  }

  lemma {:induction false} HandingStarts(initial: seq<Mem>)
    ensures Handing(initial, initial, [], [initial], FIRST_LOG)
  {
  }

  lemma {:induction false} HandingSmaller(initial: seq<Mem>, s: seq<Mem>, grants: seq<Mem>, trace: seq<seq<Mem>>,
                                          k: nat)
    requires Handing(initial, s, grants, trace, k) && k > 0 && NoRoom(s, k)
    ensures Handing(initial, s, grants, trace, k - 1)
  {
  }

  lemma {:induction false} HandingGoesOn(initial: seq<Mem>, s: seq<Mem>, grants: seq<Mem>, trace: seq<seq<Mem>>, k: nat,
                                         g: Mem, s': seq<Mem>)
    requires Handing(initial, s, grants, trace, k) && k >= PAGE_LOG
    requires exists i :: 0 <= i < |s| && GrantedFrom(s, i, Pow2(k), g, s')
    ensures Handing(initial, s', grants + [g], trace + [s'], k) && Bytes(s') < Bytes(s)
  {
    var i :| 0 <= i < |s| && GrantedFrom(s, i, Pow2(k), g, s');
    GrantConserves(initial, s, grants, i, k, g, s');
    LargestGoesOn(trace, grants, g, s', i, k);
  }

  /** A page-aligned region always has room for a page. */
  lemma PagedFits(s: seq<Mem>, i: nat)
    requires Paged(s) && i < |s|
    ensures Fits(s[i], Pow2(PAGE_LOG))
  {
    AlignedIsMultiple(s[i].addr, PAGE_LOG);
    RoundUpLeast(s[i].addr, Pow2(PAGE_LOG), s[i].addr);
    AlignedGap(s[i].size, PAGE_LOG);
  }

  /**
   `get_memory_from_sigma0`: asks for as large flexpages as there are, then for smaller ones, so
   that every grant is the largest one possible. When it stops, no page is left that could be
   granted; if all regions are made of whole pages, all memory has been handed over.
   */
  method GetMemory(sigma0: Sigma0) returns (grants: seq<Mem>, ghost trace: seq<seq<Mem>>)
    requires sigma0.Valid()
    modifies sigma0
    ensures sigma0.Valid() && Conserved(old(sigma0.conventional), sigma0.conventional, grants)
    ensures NoRoom(sigma0.conventional, PAGE_LOG) && LargestFirst(trace, grants)
    ensures trace[0] == old(sigma0.conventional) && trace[|grants|] == sigma0.conventional
    ensures Paged(old(sigma0.conventional)) ==> HandedOver(old(sigma0.conventional), grants) && sigma0.convMemSize == 0
  {
    ghost var initial := sigma0.conventional;
    grants, trace := [], [initial];
    var k := FIRST_LOG;
    HandingStarts(initial);
    while true
      invariant sigma0.Valid() && PAGE_LOG <= k && Handing(initial, sigma0.conventional, grants, trace, k)
      decreases k, sigma0.convMemSize
    {
      ghost var s := sigma0.conventional;
      var g := sigma0.Request(k);
      if g.None? {
        if k == PAGE_LOG {
          AllHandedOver(initial, s, grants);
          return;
        }
        HandingSmaller(initial, s, grants, trace, k);
        k := k - 1;
      } else {
        HandingGoesOn(initial, s, grants, trace, k, g.value, sigma0.conventional);
        grants, trace := grants + [g.value], trace + [sigma0.conventional];
      }
    }
  }

  /** The grants are exactly the initial memory: the same addresses, and as often. */
  ghost predicate HandedOver(initial: seq<Mem>, grants: seq<Mem>) {
    Bytes(grants) == Bytes(initial) && forall x :: Count(grants, x) == Count(initial, x)
  }

  lemma AllHandedOver(initial: seq<Mem>, left: seq<Mem>, grants: seq<Mem>)
    requires Conserved(initial, left, grants)
    requires NoRoom(left, PAGE_LOG)
    ensures Paged(initial) ==> HandedOver(initial, grants) && Bytes(left) == 0
  {
    if Paged(initial) {
      if left != [] { PagedFits(left, 0); }
      assert left == [];
      forall x ensures Count(grants, x) == Count(initial, x) {
        assert Count(left, x) + Count(grants, x) == Count(initial, x);
      }
    }
  }

  /** If the initial regions do not overlap, neither do any two grants, nor a grant and what is left. */
  lemma GrantsDisjoint(initial: seq<Mem>, left: seq<Mem>, grants: seq<Mem>, i: nat, j: nat)
    requires Conserved(initial, left, grants) && (forall x :: Count(initial, x) <= 1) && i < j < |grants|
    ensures End(grants[i]) <= grants[j].addr || End(grants[j]) <= grants[i].addr
  {
    assert Flexpage(grants[i]) && Flexpage(grants[j]);
    forall x ensures Count(grants, x) <= 1 {
      assert Count(left, x) + Count(grants, x) == Count(initial, x);
      assert Count(initial, x) <= 1;
    }
    CountedOnce(grants, i, j);
  }
}
