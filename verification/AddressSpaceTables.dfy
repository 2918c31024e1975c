/**
 `Aspace` of kmem.h: the user part of a virtual address space, kept twice, as a region list and
 as a page table.
 */
module AddressSpaceTables {
  import opened Options
  import opened Arith
  import opened RegionSpec
  import opened AddressSpace
  import PT = PageTable

  /** `Aspace::Type`: access bits of kernel and user, and the cache attribute. */
  datatype Attr = Attr(acc: bv6, cached: bool)

  const AccUrwx: bv6 := 7
  const AccUrw: bv6 := 6
  const AccUw: bv6 := 2

  /** `Type::operator|=`: access bits add up, the cache attribute is the new one. */
  function Widen(ty: Attr, was: Attr): Attr {
    Attr(ty.acc | was.acc, ty.cached)
  }

  /** The access that `map` works with: on sparc, write access always allows reading. */
  function Requested(sparc: bool, access: bv6): bv6 {
    if sparc && access == AccUw then AccUrw else access
  }

  /** The type that a range ends up with when `map` grants `access` to it. */
  function Granted(sparc: bool, access: bv6, cachable: bool, was: Option<Attr>): Attr {
    var ty := Attr(Requested(sparc, access), cachable);
    if was.Some? then Widen(ty, was.value) else ty
  }

  /** Mapping never takes a right away. */
  lemma RightsGrow(sparc: bool, access: bv6, cachable: bool, was: Option<Attr>)
    ensures var ty := Granted(sparc, access, cachable, was);
            ty.acc & access == access && (was.Some? ==> ty.acc & was.value.acc == was.value.acc)
  {
  }

  /** List and table say the same about one address. */
  ghost predicate Agrees(e: Option<PT.Entry>, ty: Option<Attr>, mmu: bv6 -> nat) {
    && (e.Some? <==> ty.Some?)
    && (e.Some? && ty.Some? ==> e.value.acc == mmu(ty.value.acc) && e.value.cached == ty.value.cached)
    && (e.Some? ==> e.value.pa != 0)
  }

  /** List and table agree on every user address, and the list holds nothing else. */
  ghost predicate Coherent(g: PT.Shape, t: PT.Table, s: seq<Region<Attr>>, limit: nat, mmu: bv6 -> nat) {
    && PT.ValidShape(g) && PT.WellFormed(g, t) && limit <= PT.Span(g)
    && (forall x: nat {:trigger PT.At(g, t, x)} :: x < limit ==> Agrees(PT.At(g, t, x), At(s, x), mmu))
    && (forall x: nat {:trigger At(s, x)} :: At(s, x).Some? ==> x < limit)
  }

  /** The range lies inside one region or outside all of them. */
  ghost predicate OneOrNone(s: seq<Region<Attr>>, addr: nat, sz: nat) {
    Clear(s, addr, sz) || exists i: nat :: Inside(s, i, addr, sz)
  }

  lemma MapCoherent(g: PT.Shape, t: PT.Table, u: PT.Table, s: seq<Region<Attr>>, s': seq<Region<Attr>>, limit: nat,
                    mmu: bv6 -> nat, va: nat, sz: nat, pa: nat, ty: Attr)
    requires Coherent(g, t, s, limit, mmu) && va + sz <= limit && pa > 0
    requires SameBut(s, s', va, sz, Some(ty))
    requires PT.Changed(g, t, u, va, va + sz, PT.Linear(pa - va, mmu(ty.acc), ty.cached))
    ensures Coherent(g, u, s', limit, mmu)
  {
    forall x: nat | x < limit ensures Agrees(PT.At(g, u, x), At(s', x), mmu) {
      assert Agrees(PT.At(g, t, x), At(s, x), mmu);
    }
    forall x: nat | At(s', x).Some? ensures x < limit {
      assert At(s, x).Some? ==> x < limit;
    }
  }

  lemma InsertedType(s: seq<Region<Attr>>, va: nat, sz: nat, sparc: bool, access: bv6, cachable: bool, res: Attr)
    requires Sorted(s) && OneOrNone(s, va, sz) && sz > 0
    requires Clear(s, va, sz) ==> res == Attr(Requested(sparc, access), cachable)
    requires forall i: nat :: Inside(s, i, va, sz) ==> res == Widen(Attr(Requested(sparc, access), cachable), s[i].ty)
    ensures res == Granted(sparc, access, cachable, At(s, va))
  {
    if Clear(s, va, sz) {
      ClearAt(s, va, sz, va);
    } else {
      var i: nat :| Inside(s, i, va, sz);
      AtCovered(s, i, va);
    }
  }

  /**
   The rights at one address after `map`: those asked for, those it had before and, for write access
   on sparc, read; no others. The table translates it to `pa` with these rights.
   */
  ghost predicate RightsAt(was: Option<Attr>, ty: Option<Attr>, e: Option<PT.Entry>, mmu: bv6 -> nat,
                           pa: int, sparc: bool, access: bv6, cachable: bool) {
    var had: bv6 := if was.Some? then was.value.acc else 0;
    var read: bv6 := if sparc && access == 2 then 4 else 0;
    && ty == Some(Attr(access | read | had, cachable))
    && e == Some(PT.Entry(pa, mmu(access | read | had), cachable))
  }

  lemma RightsEverywhere(g: PT.Shape, t: PT.Table, u: PT.Table, s: seq<Region<Attr>>, s': seq<Region<Attr>>,
                         mmu: bv6 -> nat, va: nat, sz: nat, pa: nat, sparc: bool, access: bv6, cachable: bool, x: nat)
    requires PT.ValidShape(g) && PT.WellFormed(g, t) && PT.WellFormed(g, u)
    requires Sorted(s) && OneOrNone(s, va, sz) && va <= x < va + sz <= PT.Span(g)
    requires var ty := Granted(sparc, access, cachable, At(s, va));
             && SameBut(s, s', va, sz, Some(ty))
             && PT.Changed(g, t, u, va, va + sz, PT.Linear(pa - va, mmu(ty.acc), cachable))
    ensures RightsAt(At(s, x), At(s', x), PT.At(g, u, x), mmu, pa + x - va, sparc, access, cachable)
  {
    if Clear(s, va, sz) {
      ClearAt(s, va, sz, va);
      ClearAt(s, va, sz, x);
    } else {
      var i: nat :| Inside(s, i, va, sz);
      AtCovered(s, i, va);
      AtCovered(s, i, x);
    }
    var had: bv6 := if At(s, va).Some? then At(s, va).value.acc else 0;
    assert Granted(sparc, access, cachable, At(s, va)).acc
        == access | (if sparc && access == 2 then 4 else 0) | had;
  }

  lemma UnmapCoherent(g: PT.Shape, t: PT.Table, u: PT.Table, s: seq<Region<Attr>>, s': seq<Region<Attr>>, limit: nat,
                      mmu: bv6 -> nat, va: nat, sz: nat)
    requires Coherent(g, t, s, limit, mmu) && va + sz <= limit
    requires SameBut(s, s', va, sz, None)
    requires PT.Changed(g, t, u, va, va + sz, PT.Gone())
    ensures Coherent(g, u, s', limit, mmu)
  {
    forall x: nat | x < limit ensures Agrees(PT.At(g, u, x), At(s', x), mmu) {
      assert Agrees(PT.At(g, t, x), At(s, x), mmu);
    }
    forall x: nat | At(s', x).Some? ensures x < limit {
      assert At(s, x).Some? ==> x < limit;
    }
  }

  /** A range that meets regions without lying in one: the list keeps what the table loses. */
  lemma UnmapIncoherent(g: PT.Shape, t: PT.Table, u: PT.Table, s: seq<Region<Attr>>, limit: nat, mmu: bv6 -> nat,
                        va: nat, sz: nat)
    requires Coherent(g, t, s, limit, mmu) && va + sz <= limit && Sorted(s) && sz > 0
    requires PT.Changed(g, t, u, va, va + sz, PT.Gone())
    requires !Clear(s, va, sz)
    ensures !Coherent(g, u, s, limit, mmu)
  {
    var i :| 0 <= i < |s| && !(End(s[i]) <= va || va + sz <= s[i].addr);
    var x := if s[i].addr < va then va else s[i].addr;
    assert s[i].sz > 0;
    AtCovered(s, i, x);
    assert PT.At(g, u, x) == None;
    assert !Agrees(PT.At(g, u, x), At(s, x), mmu);
  }

  /** Clearing a range that is clear changes nothing. */
  lemma ClearSame(s: seq<Region<Attr>>, va: nat, sz: nat)
    requires Clear(s, va, sz)
    ensures SameBut(s, s, va, sz, None)
  {
    forall x: nat ensures At(s, x) == if va <= x < va + sz then None else At(s, x) {
      if va <= x < va + sz { ClearAt(s, va, sz, x); }
    }
  }

  lemma WalkCoherent(g: PT.Shape, t: PT.Table, s: seq<Region<Attr>>, limit: nat, mmu: bv6 -> nat, va: nat, sz: nat)
    requires Coherent(g, t, s, limit, mmu) && va + sz <= limit
    ensures PT.NoneAtZero(g, t, va, va + sz)
    ensures PT.AllMapped(g, t, va, va + sz) <==> Listed(s, va, sz)
  {
    forall x: nat | va <= x < va + sz ensures Agrees(PT.At(g, t, x), At(s, x), mmu) {
      assert Agrees(PT.At(g, t, x), At(s, x), mmu);
    }
    if PT.AllMapped(g, t, va, va + sz) {
      forall x: nat | va <= x < va + sz ensures At(s, x).Some? {
        assert PT.At(g, t, x).Some?;
      }
    }
  }

  /** Every address of the range is in the region list. */
  ghost predicate Listed(s: seq<Region<Attr>>, va: nat, sz: nat) {
    forall x: nat :: va <= x < va + sz ==> At(s, x).Some?
  }

  /** The whole range has one type, and that type allows `access` to the user. */
  ghost predicate Allowed(s: seq<Region<Attr>>, va: nat, sz: nat, access: bv6, ty: Attr) {
    Uniform(s, va, sz, ty) && access == access & (ty.acc & AccUrwx)
  }

  class Aspace {
    const shape: PT.Shape
    const limit: nat
    const mmu: bv6 -> nat
    const sparc: bool
    const uspace: Space<Attr>
    var roottb: PT.Table

    ghost predicate Valid()
      reads this, uspace
    {
      Sorted(uspace.dlist) && Coarsest(uspace.dlist) && Coherent(shape, roottb, uspace.dlist, limit, mmu)
    }

    /** A new space: nothing is mapped below `limit`, where the kernel part begins. */
    constructor (shape: PT.Shape, root: PT.Table, limit: nat, mmu: bv6 -> nat, sparc: bool)
      requires PT.ValidShape(shape) && PT.WellFormed(shape, root) && limit <= PT.Span(shape)
      requires forall x: nat :: x < limit ==> PT.At(shape, root, x).None?
      ensures Valid() && fresh(uspace) && uspace.dlist == [] && roottb == root
      ensures this.shape == shape && this.limit == limit && this.mmu == mmu && this.sparc == sparc
    {
      this.shape, this.limit, this.mmu, this.sparc, this.roottb := shape, limit, mmu, sparc, root;
      uspace := new Space();
    }

    /** `map`: enters pages in both; access rights of a range that is mapped already add up. */
    method Map(va: nat, pa: nat, sz: nat, access: bv6, cachable: bool)
      requires Valid() && va > 0 && pa > 0 && sz > 0 && va + sz <= limit
      requires PT.Paged(va) && PT.Paged(pa) && PT.Paged(sz)
      requires OneOrNone(uspace.dlist, va, sz) && PT.CanMap(shape, roottb, va, va + sz, pa - va, true)
      modifies this, uspace
      ensures Valid()
      ensures var ty := Granted(sparc, access, cachable, At(old(uspace.dlist), va));
              && SameBut(old(uspace.dlist), uspace.dlist, va, sz, Some(ty))
              && PT.Changed(shape, old(roottb), roottb, va, va + sz, PT.Linear(pa - va, mmu(ty.acc), cachable))
      ensures forall x: nat {:trigger At(uspace.dlist, x)} :: va <= x < va + sz ==>
                RightsAt(At(old(uspace.dlist), x), At(uspace.dlist, x), PT.At(shape, roottb, x), mmu,
                         pa + x - va, sparc, access, cachable)
    {
      var acc := Requested(sparc, access);
      var ty := uspace.Insert(va, sz, Attr(acc, cachable), Combine, Widen);
      InsertedType(old(uspace.dlist), va, sz, sparc, access, cachable, ty);
      roottb := PT.MapRange(shape, roottb, va, pa, sz, mmu(ty.acc), cachable, true);
      MapCoherent(shape, old(roottb), roottb, old(uspace.dlist), uspace.dlist, limit, mmu, va, sz, pa, ty);
      forall x: nat | va <= x < va + sz
        ensures RightsAt(At(old(uspace.dlist), x), At(uspace.dlist, x), PT.At(shape, roottb, x), mmu,
                         pa + x - va, sparc, access, cachable)
      {
        RightsEverywhere(shape, old(roottb), roottb, old(uspace.dlist), uspace.dlist, mmu, va, sz, pa,
                         sparc, access, cachable, x);
      }
    }

    /**
     `unmap`: the table always loses exactly the pages of the range. The list follows, and the
     two still agree, exactly when the range lies inside one region or outside all regions.
     */
    method Unmap(va: nat, sz: nat)
      requires Valid() && sz > 0 && va + sz <= limit
      requires PT.Natural(shape, va, sz) && PT.NoLargerPage(shape, roottb, va, sz)
      modifies this, uspace
      ensures Sorted(uspace.dlist) && Coarsest(uspace.dlist)
      ensures PT.Changed(shape, old(roottb), roottb, va, va + sz, PT.Gone())
      ensures Valid() <==> OneOrNone(old(uspace.dlist), va, sz)
      ensures OneOrNone(old(uspace.dlist), va, sz) ==> SameBut(old(uspace.dlist), uspace.dlist, va, sz, None)
    {
      uspace.Free(va, sz);
      roottb := PT.UnmapRange(shape, roottb, va, sz);
      UnmapResult(shape, old(roottb), roottb, old(uspace.dlist), uspace.dlist, limit, mmu, va, sz);
    }

    /** `walk`: non-zero exactly when every page of the range is in the list. */
    method Walk(va: nat, sz: nat) returns (r: int)
      requires Valid() && sz > 0 && va + sz <= limit
      ensures r != 0 <==> Listed(uspace.dlist, va, sz)
      ensures r != 0 ==> PT.At(shape, roottb, va).Some? && r == PT.At(shape, roottb, va).value.pa
    {
      WalkCoherent(shape, roottb, uspace.dlist, limit, mmu, va, sz);
      r := PT.WalkRange(shape, roottb, va, sz);
    }

    /** `is_inside_acc`: the flexpage has one type throughout and the type allows the access. */
    method IsInsideAcc(addr: nat, sz: nat, access: bv6) returns (ok: bool)
      requires Valid() && sz > 0
      ensures ok <==> exists ty :: Allowed(uspace.dlist, addr, sz, access, ty)
    {
      var it := uspace.FindRange(addr, sz);
      FoundIsUniform(uspace.dlist, addr, sz, it);
      if it == |uspace.dlist| {
        return false;
      }
      ok := access == access & (uspace.dlist[it].ty.acc & AccUrwx);
      assert ok ==> Allowed(uspace.dlist, addr, sz, access, uspace.dlist[it].ty);
    }

    /** `cached`: the cache attribute, or why there is none. */
    method Cached(addr: nat, sz: nat, access: bv6) returns (r: int)
      requires Valid() && sz > 0
      ensures r == -1 <==> forall ty :: !Uniform(uspace.dlist, addr, sz, ty)
      ensures -2 <= r <= 1 && (r >= 0 <==> exists ty :: Allowed(uspace.dlist, addr, sz, access, ty))
      ensures forall ty :: Allowed(uspace.dlist, addr, sz, access, ty) ==> r == if ty.cached then 1 else 0
    {
      var it := uspace.FindRange(addr, sz);
      FoundIsUniform(uspace.dlist, addr, sz, it);
      if it == |uspace.dlist| {
        return -1;
      }
      if access != access & (uspace.dlist[it].ty.acc & AccUrwx) {
        return -2;
      }
      assert Allowed(uspace.dlist, addr, sz, access, uspace.dlist[it].ty);
      r := if uspace.dlist[it].ty.cached then 1 else 0;
    }
  }

  lemma UnmapResult(g: PT.Shape, t: PT.Table, u: PT.Table, s: seq<Region<Attr>>, s': seq<Region<Attr>>, limit: nat,
                    mmu: bv6 -> nat, va: nat, sz: nat)
    requires Coherent(g, t, s, limit, mmu) && va + sz <= limit && Sorted(s) && sz > 0
    requires (exists i: nat :: Inside(s, i, va, sz)) ==> SameBut(s, s', va, sz, None)
    requires (forall i: nat :: !Inside(s, i, va, sz)) ==> s' == s
    requires PT.Changed(g, t, u, va, va + sz, PT.Gone())
    ensures Coherent(g, u, s', limit, mmu) <==> OneOrNone(s, va, sz)
    ensures OneOrNone(s, va, sz) ==> SameBut(s, s', va, sz, None)
  {
    if exists i: nat :: Inside(s, i, va, sz) {
      UnmapCoherent(g, t, u, s, s', limit, mmu, va, sz);
    } else if Clear(s, va, sz) {
      ClearSame(s, va, sz);
      UnmapCoherent(g, t, u, s, s', limit, mmu, va, sz);
    } else {
      UnmapIncoherent(g, t, u, s, limit, mmu, va, sz);
    }
  }

  /** What `find(addr, sz)` answers: it succeeds exactly when the range has one type. */
  lemma FoundIsUniform(s: seq<Region<Attr>>, addr: nat, sz: nat, it: nat)
    requires Sorted(s) && Coarsest(s) && sz > 0 && it <= |s|
    requires it < |s| ==> s[it].addr <= addr && addr + sz <= End(s[it])
    requires it == |s| ==> forall k :: 0 <= k < |s| ==> !(s[k].addr <= addr && addr + sz <= End(s[k]))
    ensures it < |s| <==> exists ty :: Uniform(s, addr, sz, ty)
    ensures it < |s| ==> forall ty :: Uniform(s, addr, sz, ty) <==> ty == s[it].ty
  {
    if it < |s| {
      assert Inside(s, it, addr, sz);
      UniformIsInside(s, addr, sz, s[it].ty);
    }
    forall ty ensures Uniform(s, addr, sz, ty) <==> it < |s| && ty == s[it].ty {
      UniformIsInside(s, addr, sz, ty);
      if it < |s| {
        assert At(s, addr) == Some(s[it].ty);
        if Uniform(s, addr, sz, ty) { assert At(s, addr) == Some(ty); }
      }
    }
  }

  // ---- a range across two regions ------------------------------------------------------------

  /** A range without any type lies outside all regions. */
  lemma NoneIsClear(s: seq<Region<Attr>>, va: nat, sz: nat)
    requires Sorted(s) && sz > 0 && forall x: nat :: va <= x < va + sz ==> At(s, x) == None
    ensures Clear(s, va, sz)
  {
    forall i | 0 <= i < |s| ensures End(s[i]) <= va || va + sz <= s[i].addr {
      if va < End(s[i]) && s[i].addr < va + sz {
        assert s[i].sz > 0;
        AtCovered(s, i, if s[i].addr < va then va else s[i].addr);
        assert false;
      }
    }
  }

  /** A range with two types is neither inside one region nor outside all. */
  lemma TwoTypes(s: seq<Region<Attr>>, va: nat, sz: nat, x: nat, y: nat)
    requires Sorted(s) && va <= x < va + sz && va <= y < va + sz
    requires At(s, x).Some? && At(s, y).Some? && At(s, x) != At(s, y)
    ensures !OneOrNone(s, va, sz)
  {
    if Clear(s, va, sz) { ClearAt(s, va, sz, x); }
    forall i: nat ensures !Inside(s, i, va, sz) {
      if Inside(s, i, va, sz) {
        AtCovered(s, i, x);
        AtCovered(s, i, y);
      }
    }
  }

  /** A table of one level with four pages. */
  function FourPages(): PT.Shape {
    PT.Level(4, PT.PAGE, PT.PAGE, PT.Terminator)
  }

  lemma FourPagesOk()
    ensures PT.ValidShape(FourPages()) && PT.Span(FourPages()) == 16384
    ensures PT.WellFormed(FourPages(), PT.Empty(FourPages()))
    ensures forall x: nat :: x < 16384 ==> PT.At(FourPages(), PT.Empty(FourPages()), x).None?
    ensures PT.Natural(FourPages(), 4096, 8192) && PT.Paged(4096) && PT.Paged(8192)
  {
    assert Times(4, 4096) == 4096 + Times(3, 4096) && Times(3, 4096) == 4096 + Times(2, 4096);
    assert Rem(8192, 4096) == Rem(4096, 4096) && Rem(4096, 4096) == Rem(0, 4096);
    forall x: nat | x < 16384 ensures PT.At(FourPages(), PT.Empty(FourPages()), x).None? { PT.EmptyAt(FourPages(), x); }
  }

  /** In such a table any page can be mapped one to one. */
  lemma CanMapPage(t: PT.Table, i: nat)
    requires PT.WellFormed(FourPages(), t) && 0 < i < 4 && PT.ValidShape(FourPages())
    ensures PT.CanMap(FourPages(), t, Times(i, 4096), Times(i, 4096) + 4096, 0, true)
  {
    var g, lo := FourPages(), Times(i, 4096);
    forall j | 0 <= j < |t.cells| && j < 4 && Times(j, 4096) < lo + 4096 && lo < Times(j, 4096) + 4096
      ensures PT.CellCanMap(g, t.cells[j], PT.Max(lo, Times(j, 4096)) - Times(j, 4096),
                            PT.Min(lo + 4096, Times(j, 4096) + 4096) - Times(j, 4096), Times(j, 4096), true)
    {
      TimesMono(i, j, 4096);
      TimesMono(j, i, 4096);
      QuotUnique(Times(j, 4096), 4096, j, 0);
      NoDirInLeaf(t.cells[j]);
    }
  }

  lemma NoDirInLeaf(c: PT.Cell)
    requires PT.CellFormed(FourPages(), c)
    ensures !c.Dir?
  {
  }

  /**
   A run in which list and table part: two neighbouring pages with different rights are unmapped
   by one call.
   */
  method TwoRegionsRun() returns (a: Aspace)
    ensures Sorted(a.uspace.dlist) && !a.Valid()
  {
    FourPagesOk();
    assert Times(1, 4096) == 4096 && Times(2, 4096) == 8192;
    a := new Aspace(FourPages(), PT.Empty(FourPages()), 16384, _ => 0, false);
    CanMapPage(a.roottb, 1);
    a.Map(4096, 4096, 4096, 4, true);
    CanMapPage(a.roottb, 2);
    NoneIsClear(a.uspace.dlist, 8192, 4096);
    a.Map(8192, 8192, 4096, 6, true);
    TwoTypes(a.uspace.dlist, 4096, 8192, 4096, 8192);
    a.Unmap(4096, 8192);
  }
}
