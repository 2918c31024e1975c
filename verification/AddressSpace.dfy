/** `Address_space_t` of kmem.h: an in-place list of regions and the searches over it. */
module AddressSpace {
  import opened Options
  import opened Arith
  import opened RegionSpec

  ghost predicate Clear<T>(s: seq<Region<T>>, addr: nat, sz: nat) {
    forall i :: 0 <= i < |s| ==> End(s[i]) <= addr || addr + sz <= s[i].addr
  }

  /** From `s` to `t`, exactly the range changes its meaning, to `v`. */
  ghost predicate SameBut<T>(s: seq<Region<T>>, t: seq<Region<T>>, addr: nat, sz: nat, v: Option<T>) {
    forall x: nat :: At(t, x) == if addr <= x < addr + sz then v else At(s, x)
  }

  /** Index of the first region at or behind `addr`. */
  function PosOf<T>(s: seq<Region<T>>, addr: nat): (i: nat)
    ensures i <= |s|
  {
    if s == [] || s[0].addr >= addr then 0 else 1 + PosOf(s[1..], addr)
  }

  lemma {:induction false} PosOfIs<T>(s: seq<Region<T>>, addr: nat, i: nat)
    requires i <= |s| && (forall k :: 0 <= k < i ==> s[k].addr < addr) && (i < |s| ==> s[i].addr >= addr)
    ensures PosOf(s, addr) == i
  {
    if i > 0 {
      assert s[0].addr < addr;
      PosOfIs(s[1..], addr, i - 1);
    }
  }

  lemma {:induction false} PosOfProps<T>(s: seq<Region<T>>, addr: nat)
    ensures forall k :: 0 <= k < PosOf(s, addr) ==> s[k].addr < addr
    ensures PosOf(s, addr) < |s| ==> s[PosOf(s, addr)].addr >= addr
  {
    if s != [] && s[0].addr < addr {
      PosOfProps(s[1..], addr);
      forall k | 0 <= k < PosOf(s, addr) ensures s[k].addr < addr {
        if k > 0 { assert s[k] == s[1..][k - 1]; }
      }
    }
  }

  lemma ClearHasRoom<T>(s: seq<Region<T>>, addr: nat, sz: nat)
    requires Sorted(s) && Clear(s, addr, sz) && sz > 0
    ensures HasRoom(s, PosOf(s, addr), addr, sz)
  {
    PosOfProps(s, addr);
    var pos := PosOf(s, addr);
    if pos > 0 { assert s[pos - 1].addr < addr; }
  }

  lemma InsideUnique<T>(s: seq<Region<T>>, i: nat, j: nat, addr: nat, sz: nat)
    requires Sorted(s) && Inside(s, i, addr, sz) && Inside(s, j, addr, sz)
    ensures i == j
  {
    CoverUnique(s, i, j, addr);
  }

  lemma ClearAt<T>(s: seq<Region<T>>, addr: nat, sz: nat, x: nat)
    requires Clear(s, addr, sz) && addr <= x < addr + sz
    ensures At(s, x) == None
  {
    forall i ensures !Covers(s, i, x) {}
  }

  // ---- uniform ranges ------------------------------------------------------------------------

  /** Every address of the range has type `ty`. */
  ghost predicate Uniform<T>(s: seq<Region<T>>, addr: nat, sz: nat, ty: T) {
    forall x :: addr <= x < addr + sz ==> At(s, x) == Some(ty)
  }

  /** In coarsest form, one region holds a range exactly when the whole range has one type. */
  lemma UniformIsInside<T>(s: seq<Region<T>>, addr: nat, sz: nat, ty: T)
    requires Sorted(s) && Coarsest(s) && sz > 0
    ensures Uniform(s, addr, sz, ty) <==> exists i: nat :: Inside(s, i, addr, sz) && s[i].ty == ty
  {
    if i: nat :| Inside(s, i, addr, sz) && s[i].ty == ty {
      forall x | addr <= x < addr + sz ensures At(s, x) == Some(ty) { AtCovered(s, i, x); }
    }
    if Uniform(s, addr, sz, ty) {
      assert At(s, addr) == Some(ty);
      var i :| Covers(s, i, addr);
      AtCovered(s, i, addr);
      if End(s[i]) < addr + sz { NextTouches(s, addr, sz, ty, i); }
      assert Inside(s, i, addr, sz);
    }
  }

  lemma NextTouches<T>(s: seq<Region<T>>, addr: nat, sz: nat, ty: T, i: nat)
    requires Sorted(s) && Uniform(s, addr, sz, ty) && Covers(s, i, addr) && End(s[i]) < addr + sz && s[i].ty == ty
    ensures Joinable(s, i + 1)
  {
    var x := End(s[i]);
    assert At(s, x) == Some(ty);
    var j :| Covers(s, j, x);
    AtCovered(s, j, x);
    assert j < i ==> Before(s, j, i);
    assert i < j ==> Before(s, i, j);
    assert i + 1 < j ==> Before(s, i + 1, j);
    assert i + 1 < j ==> Before(s, i, i + 1);
  }

  // ---- first fit -----------------------------------------------------------------------------

  /** `x` is an aligned place for `sz` bytes in `[lo, hi)` that meets no region of `s`. */
  ghost predicate Fit<T>(s: seq<Region<T>>, sz: nat, align: nat, lo: nat, hi: nat, x: nat)
    requires align > 0
  {
    Multiple(x, align) && lo <= x && x + sz <= hi && Clear(s, x, sz)
  }

  /** `r` is the lowest place, or 0 when there is none. */
  ghost predicate FirstFit<T>(s: seq<Region<T>>, sz: nat, align: nat, lo: nat, hi: nat, r: nat)
    requires align > 0
  {
    if exists x :: Fit(s, sz, align, lo, hi, x)
    then Fit(s, sz, align, lo, hi, r) && forall x :: Fit(s, sz, align, lo, hi, x) ==> r <= x
    else r == 0
  }

  /**
   Region `k` begins before the space, reaches behind the first candidate, and no other region is
   in the way of that candidate: `find_free` does not see that the place is taken.
   */
  ghost predicate Overlooked<T>(s: seq<Region<T>>, sz: nat, align: nat, lo: nat, hi: nat, k: nat)
    requires align > 0 && k < |s|
  {
    var c := RoundUp(lo, align);
    s[k].addr < lo && c < End(s[k]) && c + sz <= hi && (k + 1 < |s| ==> c + sz <= s[k + 1].addr)
  }

  ghost predicate NoneOverlooked<T>(s: seq<Region<T>>, sz: nat, align: nat, lo: nat, hi: nat)
    requires align > 0
  {
    forall k: nat {:trigger Overlooked(s, sz, align, lo, hi, k)} :: k < |s| ==> !Overlooked(s, sz, align, lo, hi, k)
  }

  /** Skipping regions only makes more places look free. */
  lemma SuffixFit<T>(s: seq<Region<T>>, sz: nat, align: nat, lo: nat, hi: nat, p: nat, x: nat)
    requires align > 0 && p <= |s| && Fit(s, sz, align, lo, hi, x)
    ensures Fit(s[p..], sz, align, lo, hi, x)
  {
    forall i | 0 <= i < |s[p..]| ensures End(s[p..][i]) <= x || x + sz <= s[p..][i].addr {
      assert s[p..][i] == s[p + i];
    }
  }

  /** With an overlooked region, the answer is a place inside that region. */
  lemma OverlookedIsReturned<T>(s: seq<Region<T>>, sz: nat, align: nat, lo: nat, hi: nat, k: nat, r: nat)
    requires align > 0 && sz > 0 && Sorted(s) && k < |s| && Overlooked(s, sz, align, lo, hi, k)
    requires FirstFit(s[PosOf(s, lo)..], sz, align, lo, hi, r)
    ensures r == RoundUp(lo, align) && s[k].addr < r < End(s[k]) && !Clear(s, r, sz)
  {
    var p, c := PosOf(s, lo), RoundUp(lo, align);
    forall j | 0 <= j <= k ensures s[j].addr < lo { if j < k { assert Before(s, j, k); } }
    assert k + 1 < |s| ==> Before(s, k, k + 1);
    PosOfIs(s, lo, k + 1);
    forall i | 0 <= i < |s[p..]| ensures c + sz <= s[p..][i].addr { if i > 0 { assert Before(s, p, p + i); } }
    assert Fit(s[p..], sz, align, lo, hi, c);
    RoundUpLeast(lo, align, r);
  }

  /** A place that is free behind the skipped regions is free of those as well, or one is overlooked. */
  lemma NotOverlooked<T>(s: seq<Region<T>>, sz: nat, align: nat, lo: nat, hi: nat, r: nat, k: nat)
    requires align > 0 && sz > 0 && Sorted(s) && NoneOverlooked(s, sz, align, lo, hi) && k < PosOf(s, lo)
    requires Fit(s[PosOf(s, lo)..], sz, align, lo, hi, r)
    requires forall x :: Fit(s[PosOf(s, lo)..], sz, align, lo, hi, x) ==> r <= x
    ensures End(s[k]) <= r
  {
    var p, c := PosOf(s, lo), RoundUp(lo, align);
    PosOfProps(s, lo);
    RoundUpLeast(lo, align, r);
    if k < p - 1 { assert Before(s, k, p - 1); }
    if r == c {
      FrontRoom(s, p, c, sz);
      assert !Overlooked(s, sz, align, lo, hi, p - 1);
    } else {
      assert !Fit(s[p..], sz, align, lo, hi, c);
      var i :| 0 <= i < |s[p..]| && !(End(s[p..][i]) <= c || c + sz <= s[p..][i].addr);
      assert s[p..][i] == s[p + i] && Before(s, p - 1, p + i);
    }
  }

  lemma FrontRoom<T>(s: seq<Region<T>>, p: nat, c: nat, sz: nat)
    requires Sorted(s) && 0 < p <= |s| && Clear(s[p..], c, sz)
    ensures c < End(s[p - 1]) && p < |s| ==> c + sz <= s[p].addr
  {
    if p < |s| { assert s[p..][0] == s[p] && Before(s, p - 1, p); }
  }

  /** Skipping the regions before the space is harmless exactly when none of them is overlooked. */
  lemma SkippedDoNotMatter<T>(s: seq<Region<T>>, sz: nat, align: nat, lo: nat, hi: nat, r: nat)
    requires align > 0 && sz > 0 && Sorted(s) && FirstFit(s[PosOf(s, lo)..], sz, align, lo, hi, r)
    ensures FirstFit(s, sz, align, lo, hi, r) <==> NoneOverlooked(s, sz, align, lo, hi)
  {
    var p := PosOf(s, lo);
    forall x: nat | Fit(s, sz, align, lo, hi, x) ensures Fit(s[p..], sz, align, lo, hi, x) {
      SuffixFit(s, sz, align, lo, hi, p, x);
    }
    if !NoneOverlooked(s, sz, align, lo, hi) {
      var k: nat :| k < |s| && Overlooked(s, sz, align, lo, hi, k);
      OverlookedIsReturned(s, sz, align, lo, hi, k, r);
    } else if Fit(s[p..], sz, align, lo, hi, r) && (forall x :: Fit(s[p..], sz, align, lo, hi, x) ==> r <= x) {
      forall i | 0 <= i < |s| ensures End(s[i]) <= r || r + sz <= s[i].addr {
        if i < p { NotOverlooked(s, sz, align, lo, hi, r, i); } else { assert s[i] == s[p..][i - p]; }
      }
      assert Fit(s, sz, align, lo, hi, r);
    }
  }

  /** Without a region across the start of the space, none is overlooked. */
  lemma NoStraddle<T>(s: seq<Region<T>>, sz: nat, align: nat, lo: nat, hi: nat)
    requires align > 0 && forall i :: 0 <= i < |s| ==> s[i].addr >= lo || End(s[i]) <= lo
    ensures NoneOverlooked(s, sz, align, lo, hi)
  {
  }

  /** A search step: no place below `cur` is left, and `cur` is the next aligned candidate. */
  ghost predicate Candidate<T>(s: seq<Region<T>>, sz: nat, align: nat, lo: nat, hi: nat, cur: nat, i: nat)
    requires align > 0 && i <= |s|
  {
    && Multiple(cur, align) && lo <= cur
    && (forall k :: 0 <= k < i ==> End(s[k]) <= cur)
    && (forall x :: lo <= x < cur ==> !Fit(s, sz, align, lo, hi, x))
  }

  lemma CandidateStep<T>(s: seq<Region<T>>, sz: nat, align: nat, lo: nat, hi: nat, cur: nat, i: nat)
    requires align > 0 && sz > 0 && Sorted(s) && i < |s| && Candidate(s, sz, align, lo, hi, cur, i)
    requires cur + sz > s[i].addr && lo <= s[i].addr
    ensures Candidate(s, sz, align, lo, hi, RoundUp(End(s[i]), align), i + 1)
  {
    var next := RoundUp(End(s[i]), align);
    forall k | 0 <= k < i + 1 ensures End(s[k]) <= next { if k < i { assert Before(s, k, i); } }
    forall x | lo <= x < next ensures !Fit(s, sz, align, lo, hi, x) {
      if Multiple(x, align) && x >= End(s[i]) { RoundUpLeast(End(s[i]), align, x); }
    }
  }

  lemma CandidateFound<T>(s: seq<Region<T>>, sz: nat, align: nat, lo: nat, hi: nat, cur: nat, i: nat)
    requires align > 0 && Sorted(s) && i <= |s| && Candidate(s, sz, align, lo, hi, cur, i)
    requires i < |s| ==> cur + sz <= s[i].addr
    ensures cur + sz <= hi ==> FirstFit(s, sz, align, lo, hi, cur)
    ensures cur + sz > hi ==> FirstFit(s, sz, align, lo, hi, 0)
  {
    forall k | 0 <= k < |s| ensures End(s[k]) <= cur || cur + sz <= s[k].addr { if i < k { assert Before(s, i, k); } }
    if cur + sz <= hi { assert Fit(s, sz, align, lo, hi, cur); }
  }

  lemma CandidateBeyond<T>(s: seq<Region<T>>, sz: nat, align: nat, lo: nat, hi: nat, cur: nat, i: nat)
    requires align > 0 && i <= |s| && Candidate(s, sz, align, lo, hi, cur, i) && cur + sz > hi
    ensures FirstFit(s, sz, align, lo, hi, 0)
  {
  }

  class Space<T(==)> {
    /** The descriptor list; a position is the index of an entry, its length stands for `end()`. */
    var dlist: seq<Region<T>>

    constructor ()
      ensures dlist == []
    {
      dlist := [];
    }

    // ---- positional operations ---------------------------------------------------------------

    /** The private `add`: puts a region before `pos`, merging neighbours of the same type if asked. */
    method AddBefore(pos: nat, addr: nat, sz: nat, ty: T, mode: Mode)
      requires HasRoom(dlist, pos, addr, sz)
      modifies this
      ensures dlist == AddOf(old(dlist), pos, addr, sz, ty, mode)
    {
      if mode == NotCombine {
        dlist := dlist[..pos] + [Region(addr, sz, ty)] + dlist[pos..];
        return;
      }
      var posCont := pos < |dlist| && addr + sz == dlist[pos].addr && ty == dlist[pos].ty;
      var prevCont := pos > 0 && End(dlist[pos - 1]) == addr && dlist[pos - 1].ty == ty;
      if posCont && prevCont {
        var prev := dlist[pos - 1].(sz := dlist[pos - 1].sz + sz + dlist[pos].sz);
        dlist := dlist[..pos - 1] + [prev] + dlist[pos + 1..];
      } else if posCont {
        var r := dlist[pos].(addr := dlist[pos].addr - sz, sz := dlist[pos].sz + sz);
        dlist := dlist[..pos] + [r] + dlist[pos + 1..];
      } else if prevCont {
        var prev := dlist[pos - 1].(sz := dlist[pos - 1].sz + sz);
        dlist := dlist[..pos - 1] + [prev] + dlist[pos..];
      } else {
        dlist := dlist[..pos] + [Region(addr, sz, ty)] + dlist[pos..];
      }
    }

    /** The private `remove`: cuts a piece out of region `pos` and returns the next position. */
    method RemovePiece(pos: nat, addr: nat, sz: nat) returns (next: nat)
      requires Inside(dlist, pos, addr, sz)
      modifies this
      ensures dlist == RemoveOf(old(dlist), pos, addr, sz) && next == NextOf(old(dlist), pos, addr)
    {
      var r := dlist[pos];
      next := pos;
      if r.addr == addr && End(r) == addr + sz {
        dlist := dlist[..pos] + dlist[pos + 1..];
      } else if r.addr == addr {
        dlist := dlist[pos := r.(addr := r.addr + sz, sz := r.sz - sz)];
      } else if End(r) == addr + sz {
        dlist := dlist[pos := r.(sz := r.sz - sz)];
        next := next + 1;
      } else {
        dlist := dlist[..pos] + [Region(r.addr, addr - r.addr, r.ty)] + dlist[pos..];
        dlist := dlist[pos + 1 := r.(addr := addr + sz, sz := End(r) - (addr + sz))];
        next := next + 1;
      }
    }

    /** `set_type`: gives a piece of region `pos` another type. */
    method SetType(pos: nat, addr: nat, sz: nat, ty: T, mode: Mode)
      requires Sorted(dlist) && Inside(dlist, pos, addr, sz) && dlist[pos].ty != ty
      modifies this
      ensures dlist == SetOf(old(dlist), pos, addr, sz, ty, mode) && Sorted(dlist)
      ensures SameBut(old(dlist), dlist, addr, sz, Some(ty))
    {
      SetMeaning(dlist, pos, addr, sz, ty, mode);
      RemoveSorted(dlist, pos, addr, sz);
      var it := RemovePiece(pos, addr, sz);
      AddBefore(it, addr, sz, ty, mode);
    }

    // ---- searching operations ----------------------------------------------------------------

    /** `add`: a new region that meets no other. */
    method Add(addr: nat, sz: nat, ty: T, mode: Mode)
      requires Sorted(dlist) && sz > 0 && Clear(dlist, addr, sz)
      modifies this
      ensures dlist == AddOf(old(dlist), PosOf(old(dlist), addr), addr, sz, ty, mode) && Sorted(dlist)
      ensures SameBut(old(dlist), dlist, addr, sz, Some(ty))
      ensures mode == Combine && Coarsest(old(dlist)) ==> Coarsest(dlist)
      ensures mode == NotCombine ==> Region(addr, sz, ty) in dlist
    {
      var it := 0;
      while it < |dlist| && dlist[it].addr < addr
        invariant 0 <= it <= |dlist| && forall k :: 0 <= k < it ==> dlist[k].addr < addr
      {
        it := it + 1;
      }
      PosOfIs(dlist, addr, it);
      ClearHasRoom(dlist, addr, sz);
      AddMeaning(dlist, it, addr, sz, ty, mode);
      AddBefore(it, addr, sz, ty, mode);
    }

    /**
     `insert`: a new region, or a piece of an existing one whose type is then widened by
     `join`. The result is the type the range ends up with.
     */
    method Insert(addr: nat, sz: nat, ty: T, mode: Mode, join: (T, T) -> T) returns (res: T)
      requires Sorted(dlist) && sz > 0
      requires Clear(dlist, addr, sz) || exists i: nat :: Inside(dlist, i, addr, sz)
      modifies this
      ensures Sorted(dlist) && (mode == Combine && Coarsest(old(dlist)) ==> Coarsest(dlist))
      ensures SameBut(old(dlist), dlist, addr, sz, Some(res))
      ensures mode == NotCombine ==> Region(addr, sz, res) in dlist
      ensures Clear(old(dlist), addr, sz) ==> res == ty
      ensures forall i: nat :: Inside(old(dlist), i, addr, sz) ==> res == join(ty, old(dlist)[i].ty)
    {
      ghost var s := dlist;
      res := ty;
      var it := 0;
      while it < |dlist|
        invariant 0 <= it <= |dlist| && dlist == s && res == ty
        invariant forall k :: 0 <= k < it ==> s[k].addr < addr && !Inside(s, k, addr, sz)
      {
        if addr >= dlist[it].addr && addr + sz <= End(dlist[it]) {
          res := join(res, dlist[it].ty);
          forall i: nat | Inside(s, i, addr, sz) ensures i == it { InsideUnique(s, i, it, addr, sz); }
          SetMeaning(s, it, addr, sz, res, mode);
          RemoveSorted(s, it, addr, sz);
          var next := RemovePiece(it, addr, sz);
          AddBefore(next, addr, sz, res, mode);
          return;
        }
        if dlist[it].addr >= addr {
          break;
        }
        it := it + 1;
      }
      NotInside(s, it, addr, sz);
      PosOfIs(s, addr, it);
      ClearHasRoom(s, addr, sz);
      AddMeaning(s, it, addr, sz, ty, mode);
      AddBefore(it, addr, sz, ty, mode);
    }

    /** `find(addr)`: the region that starts at `addr`. */
    method Find(addr: nat) returns (it: nat)
      requires Sorted(dlist)
      ensures it <= |dlist| && (it < |dlist| ==> dlist[it].addr == addr)
      ensures it == |dlist| ==> forall k :: 0 <= k < |dlist| ==> dlist[k].addr != addr
    {
      it := 0;
      while it < |dlist|
        invariant it <= |dlist| && forall k :: 0 <= k < it ==> dlist[k].addr < addr
      {
        if addr == dlist[it].addr {
          return;
        }
        if dlist[it].addr > addr {
          forall k | it < k < |dlist| ensures dlist[k].addr != addr { assert Before(dlist, it, k); }
          return |dlist|;
        }
        it := it + 1;
      }
    }

    /** `find(addr, sz)`: the region that holds the whole range. */
    method FindRange(addr: nat, sz: nat) returns (it: nat)
      requires Sorted(dlist)
      ensures it <= |dlist| && (it < |dlist| ==> dlist[it].addr <= addr && addr + sz <= End(dlist[it]))
      ensures it == |dlist| ==> forall k :: 0 <= k < |dlist| ==> !(dlist[k].addr <= addr && addr + sz <= End(dlist[k]))
    {
      it := 0;
      while it < |dlist|
        invariant it <= |dlist|
        invariant forall k :: 0 <= k < it ==> !(dlist[k].addr <= addr && addr + sz <= End(dlist[k]))
      {
        var e := addr + sz;
        if addr >= dlist[it].addr && e <= End(dlist[it]) {
          return;
        }
        if dlist[it].addr >= e {
          forall k | it < k < |dlist| ensures dlist[k].addr > addr { assert Before(dlist, it, k); }
          return |dlist|;
        }
        it := it + 1;
      }
    }

    /** `free(addr, sz)`: clears a range that lies inside one region; otherwise nothing happens. */
    method Free(addr: nat, sz: nat)
      requires Sorted(dlist) && sz > 0
      modifies this
      ensures Sorted(dlist) && (Coarsest(old(dlist)) ==> Coarsest(dlist))
      ensures (exists i: nat :: Inside(old(dlist), i, addr, sz)) ==> SameBut(old(dlist), dlist, addr, sz, None)
      ensures (forall i: nat :: !Inside(old(dlist), i, addr, sz)) ==> dlist == old(dlist)
    {
      ghost var s := dlist;
      var it := FindRange(addr, sz);
      if it != |dlist| {
        assert Inside(s, it, addr, sz);
        RemoveMeaning(s, it, addr, sz);
        var _ := RemovePiece(it, addr, sz);
      }
    }

    /**
     `find_free`: the lowest aligned place in the space. Regions that begin before the space
     are skipped, which is harmless exactly when none of them is overlooked.
     */
    method FindFree(sz: nat, align: nat, spaceStart: nat, spaceSz: nat) returns (r: nat)
      requires Sorted(dlist) && sz > 0 && align > 0
      ensures FirstFit(dlist[PosOf(dlist, spaceStart)..], sz, align, spaceStart, spaceStart + spaceSz, r)
      ensures FirstFit(dlist, sz, align, spaceStart, spaceStart + spaceSz, r)
              <==> NoneOverlooked(dlist, sz, align, spaceStart, spaceStart + spaceSz)
    {
      var it := 0;
      while it < |dlist| && dlist[it].addr < spaceStart
        invariant 0 <= it <= |dlist| && forall k :: 0 <= k < it ==> dlist[k].addr < spaceStart
      {
        it := it + 1;
      }
      PosOfIs(dlist, spaceStart, it);
      r := ScanFree(it, sz, align, spaceStart, spaceSz);
      SkippedDoNotMatter(dlist, sz, align, spaceStart, spaceStart + spaceSz, r);
    }

    /** The second loop of `find_free`, from region `first` on. */
    method ScanFree(first: nat, sz: nat, align: nat, spaceStart: nat, spaceSz: nat) returns (cur: nat)
      requires Sorted(dlist) && sz > 0 && align > 0 && first <= |dlist|
      requires first < |dlist| ==> dlist[first].addr >= spaceStart
      ensures FirstFit(dlist[first..], sz, align, spaceStart, spaceStart + spaceSz, cur)
    {
      ghost var s := dlist[first..];
      SuffixSorted(dlist, first);
      var spaceEnd := spaceStart + spaceSz;
      cur := RoundUp(spaceStart, align);
      var it := first;
      FirstCandidate(s, sz, align, spaceStart, spaceEnd);
      while it < |dlist|
        invariant first <= it <= |dlist| && Candidate(s, sz, align, spaceStart, spaceEnd, cur, it - first)
      {
        if cur >= spaceEnd || cur + sz > spaceEnd {
          CandidateBeyond(s, sz, align, spaceStart, spaceEnd, cur, it - first);
          return 0;
        }
        if cur + sz <= dlist[it].addr {
          break;
        }
        assert s[it - first] == dlist[it];
        if first < it { assert Before(dlist, first, it); }
        CandidateStep(s, sz, align, spaceStart, spaceEnd, cur, it - first);
        cur := RoundUp(dlist[it].addr + dlist[it].sz, align);
        it := it + 1;
      }
      assert it < |dlist| ==> s[it - first] == dlist[it];
      CandidateFound(s, sz, align, spaceStart, spaceEnd, cur, it - first);
      if cur != 0 && cur + sz > spaceEnd {
        cur := 0;
      }
    }

    /** `alloc`: takes the first fit. An overlooked region makes `add` fail its assertion. */
    method Alloc(sz: nat, align: nat, ty: T, mode: Mode, spaceStart: nat, spaceSz: nat) returns (r: nat)
      requires Sorted(dlist) && sz > 0 && align > 0
      requires NoneOverlooked(dlist, sz, align, spaceStart, spaceStart + spaceSz)
      modifies this
      ensures Sorted(dlist) && FirstFit(old(dlist), sz, align, spaceStart, spaceStart + spaceSz, r)
      ensures r == 0 ==> dlist == old(dlist)
      ensures r != 0 ==> dlist == AddOf(old(dlist), PosOf(old(dlist), r), r, sz, ty, mode) && Clear(old(dlist), r, sz)
    {
      r := FindFree(sz, align, spaceStart, spaceSz);
      if r != 0 {
        Add(r, sz, ty, mode);
      }
    }
  }

  lemma FirstCandidate<T>(s: seq<Region<T>>, sz: nat, align: nat, lo: nat, hi: nat)
    requires align > 0
    ensures Candidate(s, sz, align, lo, hi, RoundUp(lo, align), 0)
  {
    forall x | lo <= x < RoundUp(lo, align) ensures !Fit(s, sz, align, lo, hi, x) {
      if Multiple(x, align) { RoundUpLeast(lo, align, x); }
    }
  }

  lemma SuffixSorted<T>(s: seq<Region<T>>, p: nat)
    requires Sorted(s) && p <= |s|
    ensures Sorted(s[p..])
  {
    forall i, j | 0 <= i < j < |s[p..]| ensures Before(s[p..], i, j) { assert Before(s, p + i, p + j); }
  }

  /** When the loop of `insert` stops without a hit, no region holds the range. */
  lemma NotInside<T>(s: seq<Region<T>>, it: nat, addr: nat, sz: nat)
    requires Sorted(s) && sz > 0 && it <= |s| && (Clear(s, addr, sz) || exists i: nat :: Inside(s, i, addr, sz))
    requires forall k :: 0 <= k < it ==> !Inside(s, k, addr, sz)
    requires it < |s| ==> s[it].addr >= addr && !Inside(s, it, addr, sz)
    ensures Clear(s, addr, sz) && forall i: nat :: !Inside(s, i, addr, sz)
  {
    forall i: nat ensures !Inside(s, i, addr, sz) { if it < i < |s| { assert Before(s, it, i); } }
  }

  // ---- meanings of the compound operations ---------------------------------------------------

  function SetOf<T(==)>(s: seq<Region<T>>, pos: nat, addr: nat, sz: nat, ty: T, mode: Mode): seq<Region<T>>
    requires pos < |s| && s[pos].addr <= addr && addr + sz <= End(s[pos])
  {
    var next := NextOf(s, pos, addr);
    var t := RemoveOf(s, pos, addr, sz);
    if next <= |t| then AddOf(t, next, addr, sz, ty, mode) else t
  }

  /** In NotCombine mode the range is a region of its own. */
  lemma AddAlone<T>(s: seq<Region<T>>, pos: nat, addr: nat, sz: nat, ty: T)
    requires pos <= |s|
    ensures Region(addr, sz, ty) in AddOf(s, pos, addr, sz, ty, NotCombine)
  {
    assert AddOf(s, pos, addr, sz, ty, NotCombine)[pos] == Region(addr, sz, ty);
  }

  lemma AddMeaning<T>(s: seq<Region<T>>, pos: nat, addr: nat, sz: nat, ty: T, mode: Mode)
    requires Sorted(s) && HasRoom(s, pos, addr, sz)
    ensures var t := AddOf(s, pos, addr, sz, ty, mode);
            && Sorted(t) && (mode == Combine && Coarsest(s) ==> Coarsest(t))
            && (mode == NotCombine ==> Region(addr, sz, ty) in t)
            && SameBut(s, t, addr, sz, Some(ty))
  {
    AddSorted(s, pos, addr, sz, ty, mode);
    forall x: nat
      ensures At(AddOf(s, pos, addr, sz, ty, mode), x) == if addr <= x < addr + sz then Some(ty) else At(s, x)
    {
      AddAt(s, pos, addr, sz, ty, mode, x);
    }
    if mode == Combine && Coarsest(s) { AddCoarsest(s, pos, addr, sz, ty); }
    if mode == NotCombine { AddAlone(s, pos, addr, sz, ty); }
  }

  lemma RemoveMeaning<T>(s: seq<Region<T>>, pos: nat, addr: nat, sz: nat)
    requires Sorted(s) && Inside(s, pos, addr, sz)
    ensures var t := RemoveOf(s, pos, addr, sz);
            && Sorted(t) && HasRoom(t, NextOf(s, pos, addr), addr, sz) && (Coarsest(s) ==> Coarsest(t))
            && SameBut(s, t, addr, sz, None)
  {
    RemoveSorted(s, pos, addr, sz);
    forall x: nat ensures At(RemoveOf(s, pos, addr, sz), x) == if addr <= x < addr + sz then None else At(s, x) {
      RemoveAt(s, pos, addr, sz, x);
    }
    if Coarsest(s) { RemoveCoarsest(s, pos, addr, sz); }
  }

  lemma SetMeaning<T>(s: seq<Region<T>>, pos: nat, addr: nat, sz: nat, ty: T, mode: Mode)
    requires Sorted(s) && Inside(s, pos, addr, sz)
    ensures var t := SetOf(s, pos, addr, sz, ty, mode);
            && Sorted(t) && (mode == Combine && Coarsest(s) ==> Coarsest(t))
            && (mode == NotCombine ==> Region(addr, sz, ty) in t)
            && t == AddOf(RemoveOf(s, pos, addr, sz), NextOf(s, pos, addr), addr, sz, ty, mode)
            && SameBut(s, t, addr, sz, Some(ty))
  {
    RemoveMeaning(s, pos, addr, sz);
    AddMeaning(RemoveOf(s, pos, addr, sz), NextOf(s, pos, addr), addr, sz, ty, mode);
  }

  /** What `add` has entered, `find` finds: one region holds the range. */
  lemma AddIsInside<T>(s: seq<Region<T>>, addr: nat, sz: nat, ty: T, mode: Mode)
    requires Sorted(s) && sz > 0 && Clear(s, addr, sz)
    ensures HasRoom(s, PosOf(s, addr), addr, sz)
    ensures exists i: nat :: Inside(AddOf(s, PosOf(s, addr), addr, sz, ty, mode), i, addr, sz)
  {
    ClearHasRoom(s, addr, sz);
    assert Inside(AddOf(s, PosOf(s, addr), addr, sz, ty, mode), AddFrom(s, PosOf(s, addr), addr, ty, mode), addr, sz);
  }

  /** `free` undoes `alloc`: every address has its old type again. */
  lemma FreeUndoesAdd<T>(s: seq<Region<T>>, addr: nat, sz: nat, ty: T, mode: Mode, t: seq<Region<T>>, x: nat)
    requires Sorted(s) && sz > 0 && Clear(s, addr, sz)
    requires SameBut(AddOf(s, PosOf(s, addr), addr, sz, ty, mode), t, addr, sz, None)
    ensures At(t, x) == At(s, x)
  {
    ClearHasRoom(s, addr, sz);
    AddAt(s, PosOf(s, addr), addr, sz, ty, mode, x);
    if addr <= x < addr + sz { ClearAt(s, addr, sz, x); }
  }

  /** `alloc` and then `free` of what it returned. */
  method AllocThenFree<T(==)>(space: Space<T>, sz: nat, align: nat, ty: T, mode: Mode, start: nat, spaceSz: nat)
    returns (r: nat)
    requires Sorted(space.dlist) && sz > 0 && align > 0
    requires NoneOverlooked(space.dlist, sz, align, start, start + spaceSz)
    modifies space
    ensures Sorted(space.dlist) && FirstFit(old(space.dlist), sz, align, start, start + spaceSz, r)
    ensures forall x: nat :: At(space.dlist, x) == At(old(space.dlist), x)
  {
    ghost var s := space.dlist;
    r := space.Alloc(sz, align, ty, mode, start, spaceSz);
    if r != 0 {
      AddIsInside(s, r, sz, ty, mode);
      space.Free(r, sz);
      forall x: nat ensures At(space.dlist, x) == At(s, x) { FreeUndoesAdd(s, r, sz, ty, mode, space.dlist, x); }
    }
  }
}
