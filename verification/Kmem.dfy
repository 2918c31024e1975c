/** The kernel memory pool `Kmem` of kmem.h: Free and Busy regions over one initial chunk. */
module Kmem {
  import opened Arith
  import opened RegionSpec
  import opened AddressSpace

  const ALLOC_MIN: nat := 0x40

  datatype Kind = Free | Busy

  type Pool = seq<Region<Kind>>

  /** The regions cover `[lo, hi)` without gaps. */
  ghost predicate Tiled(s: Pool, lo: nat, hi: nat) {
    && Sorted(s) && lo < hi && s != []
    && s[0].addr == lo && End(s[|s| - 1]) == hi
    && (forall i {:trigger Touches(s, i)} :: 0 < i < |s| ==> Touches(s, i))
  }

  ghost predicate Touches(s: Pool, i: int)
    requires 0 < i < |s|
  {
    End(s[i - 1]) == s[i].addr
  }

  /** No two Free regions touch. */
  ghost predicate FreeApart(s: Pool) {
    forall i {:trigger FreePair(s, i)} :: !FreePair(s, i)
  }

  ghost predicate FreePair(s: Pool, i: int) {
    0 < i < |s| && s[i - 1].ty == Free && s[i].ty == Free
  }

  ghost function FreeBytes(s: Pool): nat {
    if s == [] then 0 else (if s[0].ty == Free then s[0].sz else 0) + FreeBytes(s[1..])
  }

  /** The live allocations: address and size of every Busy region. */
  ghost function Allocations(s: Pool): set<(nat, nat)> {
    set i | 0 <= i < |s| && s[i].ty == Busy :: (s[i].addr, s[i].sz)
  }

  lemma {:induction false} FreeBytesConcat(s: Pool, t: Pool)
    ensures FreeBytes(s + t) == FreeBytes(s) + FreeBytes(t)
  {
    if s == [] { assert s + t == t; }
    else { FreeBytesConcat(s[1..], t); assert (s + t)[1..] == s[1..] + t; }
  }

  lemma FreeBytesOne(r: Region<Kind>)
    ensures FreeBytes([r]) == if r.ty == Free then r.sz else 0
  {
    assert [r][1..] == [];
  }

  lemma {:induction false} FreeBytesSplice(s: Pool, i: nat, j: nat, mid: Pool)
    requires i <= j <= |s|
    ensures FreeBytes(Splice(s, i, j, mid)) + FreeBytes(s[i..j]) == FreeBytes(s) + FreeBytes(mid)
  {
    FreeBytesConcat(s[..i] + mid, s[j..]);
    FreeBytesConcat(s[..i], mid);
    FreeBytesConcat(s[..i], s[i..j] + s[j..]);
    FreeBytesConcat(s[i..j], s[j..]);
    assert s == s[..i] + (s[i..j] + s[j..]);
  }

  /** Replacing regions by others that cover the same range keeps the tiling. */
  lemma TiledSplice(s: Pool, i: nat, j: nat, mid: Pool, lo: nat, hi: nat)
    requires Tiled(s, lo, hi) && i < j <= |s| && mid != [] && Tiled(mid, s[i].addr, End(s[j - 1]))
    ensures Tiled(Splice(s, i, j, mid), lo, hi)
  {
    var t := Splice(s, i, j, mid);
    forall k | 0 <= k < |mid| ensures s[i].addr <= mid[k].addr && End(mid[k]) <= End(s[j - 1]) {
      if k > 0 { assert Before(mid, 0, k); }
      if k < |mid| - 1 { assert Before(mid, k, |mid| - 1); }
    }
    assert i > 0 ==> Before(s, i - 1, i);
    assert j < |s| ==> Before(s, j - 1, j);
    SpliceSorted(s, i, j, mid);
    forall k | 0 < k < |t| ensures Touches(t, k) {
      if k < i { assert Touches(s, k); }
      else if k == i { assert Touches(s, i); }
      else if k < i + |mid| { assert Touches(mid, k - i); }
      else if k == i + |mid| { assert Touches(s, j); }
      else { assert Touches(s, k - i - |mid| + j); }
    }
  }

  lemma AllocationsSplice(s: Pool, i: nat, j: nat, mid: Pool)
    requires i <= j <= |s|
    ensures Allocations(Splice(s, i, j, mid)) == Allocations(s[..i]) + Allocations(mid) + Allocations(s[j..])
    ensures Allocations(s) == Allocations(s[..i]) + Allocations(s[i..j]) + Allocations(s[j..])
  {
    AllocationsConcat(s[..i] + mid, s[j..]);
    AllocationsConcat(s[..i], mid);
    AllocationsConcat(s[..i] + s[i..j], s[j..]);
    AllocationsConcat(s[..i], s[i..j]);
    assert s == s[..i] + s[i..j] + s[j..];
  }

  lemma AllocationsConcat(s: Pool, t: Pool)
    ensures Allocations(s + t) == Allocations(s) + Allocations(t)
  {
    forall p ensures p in Allocations(s + t) <==> p in Allocations(s) || p in Allocations(t) {
      if i :| 0 <= i < |s| && s[i].ty == Busy && p == (s[i].addr, s[i].sz) { assert (s + t)[i] == s[i]; }
      if i :| 0 <= i < |t| && t[i].ty == Busy && p == (t[i].addr, t[i].sz) { assert (s + t)[|s| + i] == t[i]; }
      if i :| 0 <= i < |s + t| && (s + t)[i].ty == Busy && p == ((s + t)[i].addr, (s + t)[i].sz) {
        if i < |s| { assert s[i] == (s + t)[i]; } else { assert t[i - |s|] == (s + t)[i]; }
      }
    }
  }

  // ---- allocating ----------------------------------------------------------------------------

  /** A Free region with a Busy piece carved out of it. */
  function Carve(r: Region<Kind>, a: nat, sz: nat): Pool
    requires r.addr <= a && a + sz <= End(r)
  {
    (if r.addr < a then [Region(r.addr, a - r.addr, r.ty)] else [])
    + [Region(a, sz, Busy)]
    + (if a + sz < End(r) then [Region(a + sz, End(r) - (a + sz), r.ty)] else [])
  }

  lemma AllocIsCarve(s: Pool, pos: nat, a: nat, sz: nat)
    requires Inside(s, pos, a, sz)
    ensures SetOf(s, pos, a, sz, Busy, NotCombine) == Splice(s, pos, pos + 1, Carve(s[pos], a, sz))
  {
  }

  lemma CarveTiled(r: Region<Kind>, a: nat, sz: nat)
    requires r.addr <= a && a + sz <= End(r) && sz > 0 && r.ty == Free
    ensures Tiled(Carve(r, a, sz), r.addr, End(r))
  {
  }

  lemma {:induction false} CarveBytes(r: Region<Kind>, a: nat, sz: nat)
    requires r.addr <= a && a + sz <= End(r) && sz > 0 && r.ty == Free
    ensures FreeBytes(Carve(r, a, sz)) == r.sz - sz
  {
    var before := if r.addr < a then [Region(r.addr, a - r.addr, r.ty)] else [];
    var after := if a + sz < End(r) then [Region(a + sz, End(r) - (a + sz), r.ty)] else [];
    BytesAround(before, Region(a, sz, Busy), after);
    FreeBytesOne(Region(r.addr, a - r.addr, r.ty));
    FreeBytesOne(Region(a + sz, End(r) - (a + sz), r.ty));
  }

  lemma CarveAllocations(r: Region<Kind>, a: nat, sz: nat)
    requires r.addr <= a && a + sz <= End(r) && sz > 0 && r.ty == Free
    ensures Allocations(Carve(r, a, sz)) == {(a, sz)}
  {
    var m := Carve(r, a, sz);
    assert m[if r.addr < a then 1 else 0] == Region(a, sz, Busy);
    assert forall p :: p in Allocations(m) ==> p == (a, sz);
  }

  /** Allocation keeps the pool tiled and adds exactly one allocation. */
  lemma {:induction false} AllocKeeps(s: Pool, lo: nat, hi: nat, pos: nat, a: nat, sz: nat)
    requires Tiled(s, lo, hi) && FreeApart(s) && Inside(s, pos, a, sz) && s[pos].ty == Free
    ensures var t := SetOf(s, pos, a, sz, Busy, NotCombine);
            && Tiled(t, lo, hi) && FreeApart(t)
            && FreeBytes(t) + sz == FreeBytes(s)
            && Allocations(t) == Allocations(s) + {(a, sz)}
  {
    var m := Carve(s[pos], a, sz);
    AllocIsCarve(s, pos, a, sz);
    CarveTiled(s[pos], a, sz);
    CarveBytes(s[pos], a, sz);
    CarveAllocations(s[pos], a, sz);
    FreeBytesOne(s[pos]);
    TiledSplice(s, pos, pos + 1, m, lo, hi);
    FreeBytesSplice(s, pos, pos + 1, m);
    assert s[pos..pos + 1] == [s[pos]];
    AllocationsSplice(s, pos, pos + 1, m);
    assert Allocations(s[pos..pos + 1]) == {};
    AllocApart(s, pos, a, sz);
  }

  lemma AllocApart(s: Pool, pos: nat, a: nat, sz: nat)
    requires FreeApart(s) && Inside(s, pos, a, sz) && s[pos].ty == Free
    ensures FreeApart(Splice(s, pos, pos + 1, Carve(s[pos], a, sz)))
  {
    var m := Carve(s[pos], a, sz);
    var t, n := Splice(s, pos, pos + 1, m), |m|;
    forall k ensures !FreePair(t, k) {
      if 0 < k < pos { assert !FreePair(s, k); }
      else if k == pos && k > 0 { assert !FreePair(s, pos); }
      else if pos + n == k && k < |t| {
        assert !FreePair(s, pos + 1);
        assert t[k] == s[pos + 1] && t[k - 1] == m[n - 1];
      }
      else if pos + n < k < |t| { assert !FreePair(s, k - n + 1); }
    }
  }

  // ---- freeing -------------------------------------------------------------------------------

  /** First region and first kept region of the stretch that `free` turns into one Free region. */
  function FreeFrom(s: Pool, pos: nat): (i: nat)
    requires pos < |s|
    ensures i <= pos
  {
    if pos > 0 && s[pos - 1].ty == Free then pos - 1 else pos
  }

  function FreeTo(s: Pool, pos: nat): (j: nat)
    requires pos < |s|
    ensures pos < j <= |s|
  {
    if pos + 1 < |s| && s[pos + 1].ty == Free then pos + 2 else pos + 1
  }

  /** The pool after `free` of region `pos`. */
  ghost function Joined(s: Pool, pos: nat): Pool
    requires pos < |s| && s[FreeFrom(s, pos)].addr <= End(s[FreeTo(s, pos) - 1])
  {
    var i, j := FreeFrom(s, pos), FreeTo(s, pos);
    Splice(s, i, j, [Region(s[i].addr, End(s[j - 1]) - s[i].addr, Free)])
  }

  lemma FreeIsJoin(s: Pool, lo: nat, hi: nat, pos: nat)
    requires Tiled(s, lo, hi) && pos < |s| && s[pos].ty == Busy
    ensures s[FreeFrom(s, pos)].addr < End(s[FreeTo(s, pos) - 1])
    ensures SetOf(s, pos, s[pos].addr, s[pos].sz, Free, Combine) == Joined(s, pos)
  {
    assert pos > 0 ==> Touches(s, pos);
    assert pos + 1 < |s| ==> Touches(s, pos + 1);
    RemoveWhole(s, pos);
    var t, i, j := RemoveOf(s, pos, s[pos].addr, s[pos].sz), FreeFrom(s, pos), FreeTo(s, pos);
    AddParts(s, t, pos);
    var r := Region(s[i].addr, End(s[j - 1]) - s[i].addr, Free);
    SpliceAround(s, t, pos, i, j, [r]);
  }

  /** `t` is `s` without region `pos`. */
  ghost predicate HasGap(s: Pool, t: Pool, pos: nat) {
    && pos < |s| == |t| + 1
    && (forall k {:trigger GapAt(s, t, pos, k)} :: 0 <= k < |t| ==> GapAt(s, t, pos, k))
  }

  ghost predicate GapAt(s: Pool, t: Pool, pos: nat, k: int)
    requires |s| == |t| + 1 && 0 <= k < |t|
  {
    t[k] == s[if k < pos then k else k + 1]
  }

  lemma RemoveWhole(s: Pool, pos: nat)
    requires pos < |s|
    ensures HasGap(s, RemoveOf(s, pos, s[pos].addr, s[pos].sz), pos) && NextOf(s, pos, s[pos].addr) == pos
  {
    assert Pieces(s[pos], s[pos].addr, s[pos].sz) == [];
  }

  /** Region `pos` touches its neighbours. */
  ghost predicate TouchesBoth(s: Pool, pos: nat)
    requires pos < |s|
  {
    (pos > 0 ==> End(s[pos - 1]) == s[pos].addr) && (pos + 1 < |s| ==> End(s[pos]) == s[pos + 1].addr)
  }

  /** Without region `pos`, its neighbours and the gap are what `add` sees and merges. */
  lemma AddParts(s: Pool, t: Pool, pos: nat)
    requires HasGap(s, t, pos) && Sorted(s) && TouchesBoth(s, pos)
    ensures AddFrom(t, pos, s[pos].addr, Free, Combine) == FreeFrom(s, pos)
    ensures AddTo(t, pos, s[pos].addr, s[pos].sz, Free, Combine) == FreeTo(s, pos) - 1
    ensures var i, j := FreeFrom(s, pos), FreeTo(s, pos);
            && s[i].addr < End(s[j - 1])
            && AddRegion(t, pos, s[pos].addr, s[pos].sz, Free, Combine)
               == Region(s[i].addr, End(s[j - 1]) - s[i].addr, Free)
  {
    assert pos > 0 ==> GapAt(s, t, pos, pos - 1);
    assert pos + 1 < |s| ==> GapAt(s, t, pos, pos);
  }

  /** A splice around region `pos` is the same whether or not that region is still there. */
  lemma SpliceAround(s: Pool, t: Pool, pos: nat, i: nat, j: nat, mid: Pool)
    requires i <= pos < j <= |s| && HasGap(s, t, pos)
    ensures Splice(t, i, j - 1, mid) == Splice(s, i, j, mid)
  {
    forall k | 0 <= k < |Splice(s, i, j, mid)| ensures Splice(t, i, j - 1, mid)[k] == Splice(s, i, j, mid)[k] {
      SpliceAroundAt(s, t, pos, i, j, mid, k);
    }
  }

  lemma SpliceAroundAt(s: Pool, t: Pool, pos: nat, i: nat, j: nat, mid: Pool, k: nat)
    requires i <= pos < j <= |s| && HasGap(s, t, pos) && k < |Splice(s, i, j, mid)|
    ensures |Splice(t, i, j - 1, mid)| == |Splice(s, i, j, mid)|
    ensures Splice(t, i, j - 1, mid)[k] == Splice(s, i, j, mid)[k]
  {
    if k < i { assert GapAt(s, t, pos, k); }
    else if k >= i + |mid| { assert GapAt(s, t, pos, k - i - |mid| + j - 1); }
  }

  /** Freeing keeps the pool tiled, removes exactly one allocation and merges free neighbours. */
  lemma {:induction false} FreeKeeps(s: Pool, lo: nat, hi: nat, pos: nat)
    requires Tiled(s, lo, hi) && FreeApart(s) && pos < |s| && s[pos].ty == Busy
    ensures var t := SetOf(s, pos, s[pos].addr, s[pos].sz, Free, Combine);
            && Tiled(t, lo, hi) && FreeApart(t)
            && FreeBytes(t) == FreeBytes(s) + s[pos].sz
            && Allocations(t) == Allocations(s) - {(s[pos].addr, s[pos].sz)}
  {
    FreeIsJoin(s, lo, hi, pos);
    JoinTiled(s, lo, hi, pos);
    JoinBytes(s, lo, hi, pos);
    JoinAllocations(s, pos);
  }

  lemma {:induction false} JoinTiled(s: Pool, lo: nat, hi: nat, pos: nat)
    requires Tiled(s, lo, hi) && FreeApart(s) && pos < |s| && s[pos].ty == Busy
    requires s[FreeFrom(s, pos)].addr < End(s[FreeTo(s, pos) - 1])
    ensures Tiled(Joined(s, pos), lo, hi) && FreeApart(Joined(s, pos))
  {
    var i, j := FreeFrom(s, pos), FreeTo(s, pos);
    var r := Region(s[i].addr, End(s[j - 1]) - s[i].addr, Free);
    TiledSplice(s, i, j, [r], lo, hi);
    JoinApart(s, pos, r);
  }

  lemma {:induction false} JoinBytes(s: Pool, lo: nat, hi: nat, pos: nat)
    requires Tiled(s, lo, hi) && pos < |s| && s[pos].ty == Busy
    requires s[FreeFrom(s, pos)].addr < End(s[FreeTo(s, pos) - 1])
    ensures FreeBytes(Joined(s, pos)) == FreeBytes(s) + s[pos].sz
  {
    var i, j := FreeFrom(s, pos), FreeTo(s, pos);
    var r := Region(s[i].addr, End(s[j - 1]) - s[i].addr, Free);
    FreeBytesOne(r);
    FreeBytesSplice(s, i, j, [r]);
    StretchBytes(s, lo, hi, pos);
  }

  lemma JoinAllocations(s: Pool, pos: nat)
    requires Sorted(s) && pos < |s| && s[pos].ty == Busy
    requires s[FreeFrom(s, pos)].addr < End(s[FreeTo(s, pos) - 1])
    ensures Allocations(Joined(s, pos)) == Allocations(s) - {(s[pos].addr, s[pos].sz)}
  {
    var i, j := FreeFrom(s, pos), FreeTo(s, pos);
    var mid := [Region(s[i].addr, End(s[j - 1]) - s[i].addr, Free)];
    AllocationsSplice(s, i, j, mid);
    StretchAllocations(s, pos);
    AllocatedOnce(s, i, j, pos);
    assert Allocations(mid) == {};
  }

  lemma {:induction false} BytesAround(before: Pool, r: Region<Kind>, after: Pool)
    requires r.ty == Busy
    ensures FreeBytes(before + [r] + after) == FreeBytes(before) + FreeBytes(after)
  {
    FreeBytesConcat(before + [r], after);
    FreeBytesConcat(before, [r]);
    FreeBytesOne(r);
  }

  lemma {:induction false} StretchBytes(s: Pool, lo: nat, hi: nat, pos: nat)
    requires Tiled(s, lo, hi) && pos < |s| && s[pos].ty == Busy
    ensures var i, j := FreeFrom(s, pos), FreeTo(s, pos);
            FreeBytes(s[i..j]) + s[pos].sz == End(s[j - 1]) - s[i].addr
  {
    var i, j := FreeFrom(s, pos), FreeTo(s, pos);
    assert pos > 0 ==> Touches(s, pos);
    assert pos + 1 < |s| ==> Touches(s, pos + 1);
    BytesAround(s[i..pos], s[pos], s[pos + 1..j]);
    assert s[i..j] == s[i..pos] + [s[pos]] + s[pos + 1..j];
    if i < pos {
      assert s[i..pos] == [s[i]];
      FreeBytesOne(s[i]);
    }
    if pos + 1 < j {
      assert s[pos + 1..j] == [s[pos + 1]];
      FreeBytesOne(s[pos + 1]);
    }
  }

  lemma StretchAllocations(s: Pool, pos: nat)
    requires pos < |s| && s[pos].ty == Busy
    ensures Allocations(s[FreeFrom(s, pos)..FreeTo(s, pos)]) == {(s[pos].addr, s[pos].sz)}
  {
    var i, j := FreeFrom(s, pos), FreeTo(s, pos);
    var before, after := s[i..pos], s[pos + 1..j];
    assert s[i..j] == before + [s[pos]] + after;
    AllocationsConcat(before + [s[pos]], after);
    AllocationsConcat(before, [s[pos]]);
    NoAllocations(before);
    NoAllocations(after);
    OneAllocation(s[pos]);
  }

  lemma NoAllocations(s: Pool)
    requires forall k :: 0 <= k < |s| ==> s[k].ty == Free
    ensures Allocations(s) == {}
  {
  }

  lemma OneAllocation(r: Region<Kind>)
    requires r.ty == Busy
    ensures Allocations([r]) == {(r.addr, r.sz)}
  {
    assert [r][0] == r;
  }

  lemma AllocatedOnce(s: Pool, i: nat, j: nat, pos: nat)
    requires Sorted(s) && i <= pos < j <= |s|
    ensures (s[pos].addr, s[pos].sz) !in Allocations(s[..i]) + Allocations(s[j..])
  {
    forall k | 0 <= k < |s| && k != pos ensures s[k].addr != s[pos].addr {
      if k < pos { assert Before(s, k, pos); } else { assert Before(s, pos, k); }
    }
    assert forall k :: 0 <= k < i ==> s[..i][k] == s[k];
    assert forall k :: 0 <= k < |s[j..]| ==> s[j..][k] == s[j + k];
  }

  lemma JoinApart(s: Pool, pos: nat, r: Region<Kind>)
    requires FreeApart(s) && pos < |s| && s[pos].ty == Busy
    ensures FreeApart(Splice(s, FreeFrom(s, pos), FreeTo(s, pos), [r]))
  {
    var i, j := FreeFrom(s, pos), FreeTo(s, pos);
    var t := Splice(s, i, j, [r]);
    forall k ensures !FreePair(t, k) {
      if 0 < k < i { assert !FreePair(s, k); }
      else if k == i && k > 0 { assert !FreePair(s, i); }
      else if k == i + 1 && k < |t| { assert !FreePair(s, j); assert t[k] == s[j]; }
      else if i + 1 < k < |t| { assert !FreePair(s, k - i - 1 + j); }
    }
  }

  /** With nothing allocated, the pool is one Free region again. */
  lemma FreedIsOneRegion(s: Pool, lo: nat, hi: nat)
    requires Tiled(s, lo, hi) && FreeApart(s) && Allocations(s) == {}
    ensures s == [Region(lo, hi - lo, Free)]
  {
    forall i | 0 <= i < |s| ensures s[i].ty == Free {
      assert (s[i].addr, s[i].sz) !in Allocations(s);
    }
    assert |s| > 1 ==> FreePair(s, 1);
  }

  // ---- the pool ------------------------------------------------------------------------------

  /** `a` is an aligned place for `sz` bytes inside one Free region. */
  ghost predicate Place(s: Pool, sz: nat, align: nat, a: nat)
    requires align > 0
  {
    Multiple(a, align) && exists i: nat :: Inside(s, i, a, sz) && s[i].ty == Free
  }

  class Kmem {
    const memory: Space<Kind>
    var poolSz: nat
    ghost const lo: nat
    ghost const hi: nat

    ghost predicate Valid()
      reads this, memory
    {
      && 0 < lo && Tiled(memory.dlist, lo, hi) && FreeApart(memory.dlist)
      && poolSz == FreeBytes(memory.dlist)
    }

    /** `init`: the premapped chunk is the first Free region. */
    constructor (va: nat, sz: nat)
      requires 0 < va && 0 < sz
      ensures Valid() && fresh(memory) && lo == va && hi == va + sz
      ensures memory.dlist == [Region(va, sz, Free)] && poolSz == sz
    {
      poolSz := sz;
      lo, hi := va, va + sz;
      memory := new Space<Kind>();
      new;
      memory.Add(va, sz, Free, NotCombine);
      assert memory.dlist == [Region(va, sz, Free)];
    }

    /** `alloc`: the lowest aligned place in a Free region; 0 stands for the panic when there is none. */
    method Alloc(size: nat, align: nat) returns (r: nat)
      requires Valid() && size > 0 && align > 0
      modifies this, memory
      ensures Valid()
      ensures var sz := RoundUp(size, ALLOC_MIN);
              if exists a :: Place(old(memory.dlist), sz, align, a) then
                && r != 0 && Place(old(memory.dlist), sz, align, r)
                && (forall a :: Place(old(memory.dlist), sz, align, a) ==> r <= a)
                && poolSz + sz == old(poolSz)
                && Allocations(memory.dlist) == Allocations(old(memory.dlist)) + {(r, sz)}
              else r == 0 && memory.dlist == old(memory.dlist) && poolSz == old(poolSz)
    {
      var sz := RoundUp(size, ALLOC_MIN);
      ghost var s := memory.dlist;
      var it := 0;
      while it < |memory.dlist|
        invariant 0 <= it <= |s| && memory.dlist == s && poolSz == old(poolSz)
        invariant forall i: nat, a: nat :: i < it && Inside(s, i, a, sz) && s[i].ty == Free ==> !Multiple(a, align)
      {
        var d := memory.dlist[it];
        if d.ty == Free && d.sz >= sz {
          var a := RoundUp(d.addr, align);
          var diff := a - d.addr;
          if d.sz >= diff + sz {
            FirstPlace(s, it, sz, align, a);
            if it > 0 { assert Before(s, 0, it); }
            AllocKeeps(s, lo, hi, it, a, sz);
            memory.SetType(it, a, sz, Busy, NotCombine);
            poolSz := poolSz - sz;
            return a;
          }
        }
        NoPlaceHere(s, it, sz, align);
        it := it + 1;
      }
      return 0;
    }

    /** `free`: gives back one live allocation. */
    method FreeMem(va: nat)
      requires Valid() && exists sz :: (va, sz) in Allocations(memory.dlist)
      modifies this, memory
      ensures Valid() && poolSz > old(poolSz)
      ensures (va, poolSz - old(poolSz)) in Allocations(old(memory.dlist))
      ensures Allocations(memory.dlist) == Allocations(old(memory.dlist)) - {(va, poolSz - old(poolSz))}
    {
      var it := memory.Find(va);
      BusyAt(memory.dlist, lo, hi, va, it);
      FreeKeeps(memory.dlist, lo, hi, it);
      var sz := memory.dlist[it].sz;
      poolSz := poolSz + sz;
      memory.SetType(it, va, sz, Free, Combine);
    }
  }

  lemma BusyAt(s: Pool, lo: nat, hi: nat, va: nat, it: nat)
    requires Sorted(s) && (exists sz :: (va, sz) in Allocations(s)) && it <= |s|
    requires it < |s| ==> s[it].addr == va
    requires it == |s| ==> forall k :: 0 <= k < |s| ==> s[k].addr != va
    ensures it < |s| && s[it].ty == Busy && (va, s[it].sz) in Allocations(s)
  {
    var sz :| (va, sz) in Allocations(s);
    var k :| 0 <= k < |s| && s[k].ty == Busy && (va, sz) == (s[k].addr, s[k].sz);
    CoverUnique(s, k, if it < |s| then it else k, va);
  }

  lemma NoPlaceHere(s: Pool, it: nat, sz: nat, align: nat)
    requires it < |s| && align > 0 && sz > 0
    requires s[it].ty == Free && s[it].sz >= sz ==> s[it].sz < RoundUp(s[it].addr, align) - s[it].addr + sz
    ensures forall a: nat :: Inside(s, it, a, sz) && s[it].ty == Free ==> !Multiple(a, align)
  {
    forall a: nat | Inside(s, it, a, sz) && s[it].ty == Free && Multiple(a, align) ensures false {
      RoundUpLeast(s[it].addr, align, a);
    }
  }

  lemma FirstPlace(s: Pool, it: nat, sz: nat, align: nat, a: nat)
    requires Sorted(s) && align > 0 && sz > 0 && it < |s| && s[it].ty == Free
    requires a == RoundUp(s[it].addr, align) && Inside(s, it, a, sz)
    requires forall i: nat, b: nat :: i < it && Inside(s, i, b, sz) && s[i].ty == Free ==> !Multiple(b, align)
    ensures Place(s, sz, align, a) && forall b :: Place(s, sz, align, b) ==> a <= b
  {
    forall b | Place(s, sz, align, b) ensures a <= b {
      var i: nat :| Inside(s, i, b, sz) && s[i].ty == Free;
      if i == it { RoundUpLeast(s[it].addr, align, b); } else if it < i { assert Before(s, it, i); }
    }
  }
}
