/**
 The sorted region list behind `Address_space_t` of kmem.h, as a sequence of regions and as
 a map from addresses to types.
 */
module RegionSpec {
  import opened Options
  import opened Arith

  datatype Region<+T> = Region(addr: nat, sz: nat, ty: T)

  /** How `add` treats neighbours of the same type. */
  datatype Mode = Combine | NotCombine

  function End<T>(r: Region<T>): nat {
    r.addr + r.sz
  }

  /** Regions are non-empty, in address order and do not overlap. */
  ghost predicate Sorted<T>(s: seq<Region<T>>) {
    && (forall i :: 0 <= i < |s| ==> s[i].sz > 0)
    && (forall i, j {:trigger Before(s, i, j)} :: 0 <= i < j < |s| ==> Before(s, i, j))
  }

  predicate Before<T>(s: seq<Region<T>>, i: int, j: int)
    requires 0 <= i < |s| && 0 <= j < |s|
  {
    End(s[i]) <= s[j].addr
  }

  predicate Covers<T>(s: seq<Region<T>>, i: int, x: nat) {
    0 <= i < |s| && s[i].addr <= x < End(s[i])
  }

  /** The type of address `x`: the meaning of a region list. */
  ghost function At<T>(s: seq<Region<T>>, x: nat): Option<T> {
    if exists i :: Covers(s, i, x) then var i :| Covers(s, i, x); Some(s[i].ty) else None
  }

  lemma AtCovered<T>(s: seq<Region<T>>, i: int, x: nat)
    requires Sorted(s) && Covers(s, i, x)
    ensures At(s, x) == Some(s[i].ty)
  {
    var j :| Covers(s, j, x) && At(s, x) == Some(s[j].ty);
    CoverUnique(s, i, j, x);
  }

  lemma CoverUnique<T>(s: seq<Region<T>>, i: int, j: int, x: nat)
    requires Sorted(s) && Covers(s, i, x) && Covers(s, j, x)
    ensures i == j
  {
    assert i < j ==> Before(s, i, j);
    assert j < i ==> Before(s, j, i);
  }

  predicate Joinable<T(==)>(s: seq<Region<T>>, i: int) {
    0 < i < |s| && End(s[i - 1]) == s[i].addr && s[i - 1].ty == s[i].ty
  }

  /** No two neighbours could be one region. */
  ghost predicate Coarsest<T>(s: seq<Region<T>>) {
    forall i :: !Joinable(s, i)
  }

  // ---- replacing a stretch of regions --------------------------------------------------------

  function Splice<T>(s: seq<Region<T>>, i: nat, j: nat, mid: seq<Region<T>>): seq<Region<T>>
    requires i <= j <= |s|
  {
    s[..i] + mid + s[j..]
  }

  /** `mid` fits in the room between region `i - 1` and region `j`. */
  ghost predicate FitsBetween<T>(s: seq<Region<T>>, i: nat, j: nat, mid: seq<Region<T>>)
    requires i <= j <= |s|
  {
    && (i > 0 ==> forall k :: 0 <= k < |mid| ==> End(s[i - 1]) <= mid[k].addr)
    && (j < |s| ==> forall k :: 0 <= k < |mid| ==> End(mid[k]) <= s[j].addr)
  }

  lemma SpliceSorted<T>(s: seq<Region<T>>, i: nat, j: nat, mid: seq<Region<T>>)
    requires Sorted(s) && Sorted(mid) && i <= j <= |s| && FitsBetween(s, i, j, mid)
    ensures Sorted(Splice(s, i, j, mid))
  {
    var t := Splice(s, i, j, mid);
    forall p, q | 0 <= p < q < |t| ensures Before(t, p, q) { SpliceBefore(s, i, j, mid, p, q); }
  }

  lemma SpliceBefore<T>(s: seq<Region<T>>, i: nat, j: nat, mid: seq<Region<T>>, p: nat, q: nat)
    requires Sorted(s) && Sorted(mid) && i <= j <= |s| && FitsBetween(s, i, j, mid)
    requires p < q < |Splice(s, i, j, mid)|
    ensures Before(Splice(s, i, j, mid), p, q)
  {
    var n := i + |mid|;
    if q < i { assert Before(s, p, q); }
    else if q < n {
      if p >= i { assert Before(mid, p - i, q - i); } else if p < i - 1 { assert Before(s, p, i - 1); }
    } else {
      var q' := q - n + j;
      if p < i { assert Before(s, p, q'); }
      else if p < n { if j < q' { assert Before(s, j, q'); } }
      else { assert Before(s, p - n + j, q'); }
    }
  }

  /** A splice changes the meaning only where the old and new stretches lie. */
  lemma SpliceAt<T>(s: seq<Region<T>>, i: nat, j: nat, mid: seq<Region<T>>, x: nat)
    requires Sorted(s) && Sorted(mid) && i <= j <= |s| && Sorted(Splice(s, i, j, mid))
    ensures At(Splice(s, i, j, mid), x) ==
              if At(mid, x).Some? then At(mid, x)
              else if exists k :: i <= k < j && Covers(s, k, x) then None
              else At(s, x)
  {
    var t := Splice(s, i, j, mid);
    if k :| Covers(mid, k, x) {
      assert t[i + k] == mid[k];
      AtCovered(t, i + k, x);
      AtCovered(mid, k, x);
    } else if k :| Covers(s, k, x) {
      if k < i { assert t[k] == s[k]; AtCovered(t, k, x); AtCovered(s, k, x); NoOther(s, i, j, k, x); }
      else if k >= j {
        assert t[k - j + i + |mid|] == s[k];
        AtCovered(t, k - j + i + |mid|, x);
        AtCovered(s, k, x);
        NoOther(s, i, j, k, x);
      } else { SpliceNone(s, i, j, mid, x, k); }
    } else {
      SpliceUncovered(s, i, j, mid, x);
    }
  }

  lemma NoOther<T>(s: seq<Region<T>>, i: nat, j: nat, k: nat, x: nat)
    requires Sorted(s) && Covers(s, k, x) && (k < i || j <= k)
    ensures !exists n :: i <= n < j && Covers(s, n, x)
  {
    forall n | i <= n < j ensures !Covers(s, n, x) { if Covers(s, n, x) { CoverUnique(s, n, k, x); } }
  }

  lemma SpliceNone<T>(s: seq<Region<T>>, i: nat, j: nat, mid: seq<Region<T>>, x: nat, k: nat)
    requires Sorted(s) && i <= k < j <= |s| && Covers(s, k, x)
    requires forall n :: !Covers(mid, n, x)
    ensures At(Splice(s, i, j, mid), x) == None
  {
    var t := Splice(s, i, j, mid);
    forall n ensures !Covers(t, n, x) {
      if 0 <= n < i { assert Before(s, n, k); }
      else if i <= n < i + |mid| { assert !Covers(mid, n - i, x); }
      else if i + |mid| <= n < |t| { assert Before(s, k, n - i - |mid| + j); }
    }
  }

  lemma SpliceUncovered<T>(s: seq<Region<T>>, i: nat, j: nat, mid: seq<Region<T>>, x: nat)
    requires i <= j <= |s|
    requires forall n :: !Covers(mid, n, x)
    requires forall n :: !Covers(s, n, x)
    ensures At(Splice(s, i, j, mid), x) == None
  {
    var t := Splice(s, i, j, mid);
    forall n ensures !Covers(t, n, x) {
      if 0 <= n < i { assert !Covers(s, n, x); }
      else if i <= n < i + |mid| { assert !Covers(mid, n - i, x); }
      else if i + |mid| <= n < |t| { assert !Covers(s, n - i - |mid| + j, x); }
    }
  }

  // ---- adding a region -----------------------------------------------------------------------

  /** Room for `[addr, addr + sz)` between region `pos - 1` and region `pos`. */
  ghost predicate HasRoom<T>(s: seq<Region<T>>, pos: nat, addr: nat, sz: nat) {
    && pos <= |s| && sz > 0
    && (pos > 0 ==> End(s[pos - 1]) <= addr)
    && (pos < |s| ==> addr + sz <= s[pos].addr)
  }

  predicate JoinsPrev<T(==)>(s: seq<Region<T>>, pos: nat, addr: nat, ty: T)
    requires pos <= |s|
  {
    pos > 0 && End(s[pos - 1]) == addr && s[pos - 1].ty == ty
  }

  predicate JoinsNext<T(==)>(s: seq<Region<T>>, pos: nat, addr: nat, sz: nat, ty: T)
    requires pos <= |s|
  {
    pos < |s| && addr + sz == s[pos].addr && s[pos].ty == ty
  }

  /** First region that `add` replaces, first one it keeps behind, and the region it leaves. */
  function AddFrom<T(==)>(s: seq<Region<T>>, pos: nat, addr: nat, ty: T, mode: Mode): (i: nat)
    requires pos <= |s|
    ensures i <= pos
  {
    if mode == Combine && JoinsPrev(s, pos, addr, ty) then pos - 1 else pos
  }

  function AddTo<T(==)>(s: seq<Region<T>>, pos: nat, addr: nat, sz: nat, ty: T, mode: Mode): (j: nat)
    requires pos <= |s|
    ensures pos <= j <= |s|
  {
    if mode == Combine && JoinsNext(s, pos, addr, sz, ty) then pos + 1 else pos
  }

  function AddRegion<T(==)>(s: seq<Region<T>>, pos: nat, addr: nat, sz: nat, ty: T, mode: Mode): Region<T>
    requires pos <= |s|
  {
    var i, j := AddFrom(s, pos, addr, ty, mode), AddTo(s, pos, addr, sz, ty, mode);
    Region(if i < pos then s[i].addr else addr,
           (if i < pos then s[i].sz else 0) + sz + (if pos < j then s[pos].sz else 0), ty)
  }

  /** The list after `add` before position `pos`. */
  function AddOf<T(==)>(s: seq<Region<T>>, pos: nat, addr: nat, sz: nat, ty: T, mode: Mode): seq<Region<T>>
    requires pos <= |s|
  {
    Splice(s, AddFrom(s, pos, addr, ty, mode), AddTo(s, pos, addr, sz, ty, mode),
           [AddRegion(s, pos, addr, sz, ty, mode)])
  }

  lemma AddSorted<T>(s: seq<Region<T>>, pos: nat, addr: nat, sz: nat, ty: T, mode: Mode)
    requires Sorted(s) && HasRoom(s, pos, addr, sz)
    ensures Sorted(AddOf(s, pos, addr, sz, ty, mode))
  {
    var i, j := AddFrom(s, pos, addr, ty, mode), AddTo(s, pos, addr, sz, ty, mode);
    var r := AddRegion(s, pos, addr, sz, ty, mode);
    assert i > 0 && i < pos ==> Before(s, i - 1, i);
    assert pos < j < |s| ==> Before(s, pos, j);
    SpliceSorted(s, i, j, [r]);
  }

  /** Adding a region gives its addresses its type and changes no other address. */
  lemma AddAt<T>(s: seq<Region<T>>, pos: nat, addr: nat, sz: nat, ty: T, mode: Mode, x: nat)
    requires Sorted(s) && HasRoom(s, pos, addr, sz)
    ensures At(AddOf(s, pos, addr, sz, ty, mode), x) == if addr <= x < addr + sz then Some(ty) else At(s, x)
  {
    var i, j := AddFrom(s, pos, addr, ty, mode), AddTo(s, pos, addr, sz, ty, mode);
    var r := AddRegion(s, pos, addr, sz, ty, mode);
    AddSorted(s, pos, addr, sz, ty, mode);
    SpliceAt(s, i, j, [r], x);
    if r.addr <= x < End(r) {
      AtCovered([r], 0, x);
      if x < addr { AtCovered(s, i, x); }
      if addr + sz <= x { AtCovered(s, pos, x); }
    } else {
      assert forall k :: !Covers([r], k, x);
      assert forall k :: i <= k < j ==> !Covers(s, k, x);
    }
  }

  /** Combining keeps the list in coarsest form. */
  lemma AddCoarsest<T>(s: seq<Region<T>>, pos: nat, addr: nat, sz: nat, ty: T)
    requires Sorted(s) && Coarsest(s) && HasRoom(s, pos, addr, sz)
    ensures Coarsest(AddOf(s, pos, addr, sz, ty, Combine))
  {
    var t := AddOf(s, pos, addr, sz, ty, Combine);
    forall k ensures !Joinable(t, k) { if 0 < k < |t| { AddNotJoinable(s, pos, addr, sz, ty, k); } }
  }

  lemma AddNotJoinable<T>(s: seq<Region<T>>, pos: nat, addr: nat, sz: nat, ty: T, k: nat)
    requires Sorted(s) && Coarsest(s) && HasRoom(s, pos, addr, sz)
    requires 0 < k < |AddOf(s, pos, addr, sz, ty, Combine)|
    ensures !Joinable(AddOf(s, pos, addr, sz, ty, Combine), k)
  {
    var i, j := AddFrom(s, pos, addr, ty, Combine), AddTo(s, pos, addr, sz, ty, Combine);
    var t := AddOf(s, pos, addr, sz, ty, Combine);
    if k < i { assert !Joinable(s, k); assert t[k - 1] == s[k - 1] && t[k] == s[k]; }
    else if k == i { assert !Joinable(s, i); assert t[k - 1] == s[i - 1]; }
    else if k == i + 1 { assert !Joinable(s, j); assert t[k] == s[j]; }
    else { assert !Joinable(s, k - i - 1 + j); assert t[k - 1] == s[k - i - 2 + j] && t[k] == s[k - i - 1 + j]; }
  }

  // ---- removing a piece ----------------------------------------------------------------------

  ghost predicate Inside<T>(s: seq<Region<T>>, pos: nat, addr: nat, sz: nat) {
    pos < |s| && sz > 0 && s[pos].addr <= addr && addr + sz <= End(s[pos])
  }

  /** What remains of region `r` without `[addr, addr + sz)`. */
  function Pieces<T>(r: Region<T>, addr: nat, sz: nat): seq<Region<T>>
    requires r.addr <= addr && addr + sz <= End(r)
  {
    (if r.addr < addr then [Region(r.addr, addr - r.addr, r.ty)] else [])
    + (if addr + sz < End(r) then [Region(addr + sz, End(r) - (addr + sz), r.ty)] else [])
  }

  /** The list after `remove` of a piece of region `pos`. */
  function RemoveOf<T>(s: seq<Region<T>>, pos: nat, addr: nat, sz: nat): seq<Region<T>>
    requires pos < |s| && s[pos].addr <= addr && addr + sz <= End(s[pos])
  {
    Splice(s, pos, pos + 1, Pieces(s[pos], addr, sz))
  }

  /** The position that `remove` returns: the first region behind the removed piece. */
  function NextOf<T>(s: seq<Region<T>>, pos: nat, addr: nat): nat
    requires pos < |s|
  {
    if s[pos].addr < addr then pos + 1 else pos
  }

  lemma RemoveSorted<T>(s: seq<Region<T>>, pos: nat, addr: nat, sz: nat)
    requires Sorted(s) && Inside(s, pos, addr, sz)
    ensures Sorted(RemoveOf(s, pos, addr, sz))
    ensures HasRoom(RemoveOf(s, pos, addr, sz), NextOf(s, pos, addr), addr, sz)
  {
    PiecesSorted(s[pos], addr, sz);
    PiecesFit(s, pos, addr, sz);
    SpliceSorted(s, pos, pos + 1, Pieces(s[pos], addr, sz));
    RemoveRoom(s, pos, addr, sz);
  }

  lemma PiecesFit<T>(s: seq<Region<T>>, pos: nat, addr: nat, sz: nat)
    requires Sorted(s) && Inside(s, pos, addr, sz)
    ensures FitsBetween(s, pos, pos + 1, Pieces(s[pos], addr, sz))
  {
    assert pos > 0 ==> Before(s, pos - 1, pos);
    assert pos + 1 < |s| ==> Before(s, pos, pos + 1);
    PiecesSorted(s[pos], addr, sz);
  }

  /** Removing a piece leaves room for it at the returned position. */
  lemma RemoveRoom<T>(s: seq<Region<T>>, pos: nat, addr: nat, sz: nat)
    requires Sorted(s) && Inside(s, pos, addr, sz)
    ensures HasRoom(RemoveOf(s, pos, addr, sz), NextOf(s, pos, addr), addr, sz)
  {
    var t, m := RemoveOf(s, pos, addr, sz), Pieces(s[pos], addr, sz);
    assert pos > 0 ==> Before(s, pos - 1, pos) && t[pos - 1] == s[pos - 1];
    assert pos + 1 < |s| ==> Before(s, pos, pos + 1) && t[pos + |m|] == s[pos + 1];
    assert forall k :: 0 <= k < |m| ==> t[pos + k] == m[k];
  }

  lemma PiecesSorted<T>(r: Region<T>, addr: nat, sz: nat)
    requires r.addr <= addr && addr + sz <= End(r) && sz > 0
    ensures Sorted(Pieces(r, addr, sz))
    ensures forall k :: 0 <= k < |Pieces(r, addr, sz)| ==>
              r.addr <= Pieces(r, addr, sz)[k].addr && End(Pieces(r, addr, sz)[k]) <= End(r)
  {
  }

  lemma PiecesAt<T>(r: Region<T>, addr: nat, sz: nat, x: nat)
    requires r.addr <= addr && addr + sz <= End(r) && sz > 0
    ensures At(Pieces(r, addr, sz), x) == if r.addr <= x < addr || addr + sz <= x < End(r) then Some(r.ty) else None
  {
    var mid := Pieces(r, addr, sz);
    PiecesSorted(r, addr, sz);
    if r.addr <= x < addr { AtCovered(mid, 0, x); }
    else if addr + sz <= x < End(r) { AtCovered(mid, |mid| - 1, x); }
    else { assert forall k :: !Covers(mid, k, x); }
  }

  /** Removing a piece clears its addresses and changes no other address. */
  lemma RemoveAt<T>(s: seq<Region<T>>, pos: nat, addr: nat, sz: nat, x: nat)
    requires Sorted(s) && Inside(s, pos, addr, sz)
    ensures At(RemoveOf(s, pos, addr, sz), x) == if addr <= x < addr + sz then None else At(s, x)
  {
    RemoveSorted(s, pos, addr, sz);
    PiecesSorted(s[pos], addr, sz);
    PiecesAt(s[pos], addr, sz, x);
    SpliceAt(s, pos, pos + 1, Pieces(s[pos], addr, sz), x);
    assert (exists k :: pos <= k < pos + 1 && Covers(s, k, x)) <==> Covers(s, pos, x);
    if Covers(s, pos, x) { AtCovered(s, pos, x); }
  }

  lemma RemoveCoarsest<T>(s: seq<Region<T>>, pos: nat, addr: nat, sz: nat)
    requires Sorted(s) && Coarsest(s) && Inside(s, pos, addr, sz)
    ensures Coarsest(RemoveOf(s, pos, addr, sz))
  {
    var t := RemoveOf(s, pos, addr, sz);
    forall k ensures !Joinable(t, k) { if 0 < k < |t| { RemoveNotJoinable(s, pos, addr, sz, k); } }
  }

  lemma RemoveNotJoinable<T>(s: seq<Region<T>>, pos: nat, addr: nat, sz: nat, k: nat)
    requires Sorted(s) && Coarsest(s) && Inside(s, pos, addr, sz) && 0 < k < |RemoveOf(s, pos, addr, sz)|
    ensures !Joinable(RemoveOf(s, pos, addr, sz), k)
  {
    var mid := Pieces(s[pos], addr, sz);
    var t, n := RemoveOf(s, pos, addr, sz), |mid|;
    assert pos > 0 ==> Before(s, pos - 1, pos);
    assert pos + 1 < |s| ==> Before(s, pos, pos + 1);
    if k < pos { assert !Joinable(s, k); }
    else if k == pos { assert !Joinable(s, pos) && !Joinable(s, pos + 1); }
    else if k < pos + n { assert t[k - 1] == mid[0] && t[k] == mid[1]; }
    else if k == pos + n { assert !Joinable(s, pos + 1); assert t[k - 1] == mid[n - 1] && t[k] == s[pos + 1]; }
    else { assert !Joinable(s, k - n + 1); assert t[k - 1] == s[k - n] && t[k] == s[k - n + 1]; }
  }
}
