/**
 `Ptable` of ptable.h: a radix table of any number of levels, as a tree of cells and as the
 flat map from virtual to physical addresses that it stands for.
 */
module PageTable {
  import opened Options
  import opened Arith

  /** `Cfg_page_sz`: the smallest page. */
  const PAGE: nat := 4096

  /** `mmu_isalign(x, Cfg_page_sz)`. */
  predicate Paged(x: nat) {
    Multiple(x, PAGE)
  }

  /** What one virtual address translates to. */
  datatype Entry = Entry(pa: int, acc: nat, cached: bool)

  datatype Cell = Inv | Dir(child: Table) | Map(pa: int, acc: nat, cached: bool)
  datatype Table = Table(cells: seq<Cell>)

  /**
   The levels from one table down: number of cells, bytes per cell, the alignment that
   `mmu_set_map` asserts for a frame, and the level below. Addresses are relative to the
   table's own start, which is what masking the upper bits in `get_cell` amounts to.
   */
  datatype Shape = Terminator | Level(n: nat, pg: nat, frame: nat, below: Shape)

  ghost predicate ValidShape(g: Shape) {
    g.Level? ==>
      && g.n > 0 && g.pg > 0 && g.frame > 0
      && (if g.below.Terminator? then g.pg == PAGE else Times(g.below.n, g.below.pg) == g.pg)
      && Paged(g.pg)
      && ValidShape(g.below)
  }

  ghost predicate WellFormed(g: Shape, t: Table) {
    && g.Level? && |t.cells| == g.n
    && (forall i {:trigger t.cells[i]} :: 0 <= i < g.n ==> CellFormed(g, t.cells[i]))
  }

  ghost predicate CellFormed(g: Shape, c: Cell)
    requires g.Level?
  {
    c.Dir? ==> WellFormed(g.below, c.child)
  }

  /** Bytes that a table of this shape translates. */
  ghost function Span(g: Shape): nat
    requires g.Level?
  {
    Times(g.n, g.pg)
  }

  /** The meaning of a cell at byte `off` of its range. */
  ghost function CellAt(g: Shape, c: Cell, off: nat): Option<Entry>
    requires ValidShape(g) && g.Level? && CellFormed(g, c) && off < g.pg
    decreases g, 0
  {
    match c
    case Inv => None
    case Map(pa, acc, cached) => Some(Entry(pa + off, acc, cached))
    case Dir(child) => At(g.below, child, off)
  }

  /** The meaning of a table at address `va`. */
  ghost function At(g: Shape, t: Table, va: nat): Option<Entry>
    requires ValidShape(g) && WellFormed(g, t) && va < Span(g)
    decreases g, 1
  {
    IndexInTable(g, va);
    CellAt(g, t.cells[Quot(va, g.pg)], Rem(va, g.pg))
  }

  lemma IndexInTable(g: Shape, va: nat)
    requires g.Level? && g.pg > 0 && va < Span(g)
    ensures Quot(va, g.pg) < g.n
  {
    QuotRem(va, g.pg);
    TimesMono(g.n, Quot(va, g.pg), g.pg);
  }

  /** Address `va` lies in cell `i`. */
  lemma InCell(g: Shape, i: nat, va: nat)
    requires g.Level? && g.pg > 0
    ensures Times(i, g.pg) <= va < Times(i, g.pg) + g.pg <==> Quot(va, g.pg) == i
    ensures Quot(va, g.pg) == i ==> Rem(va, g.pg) == va - Times(i, g.pg)
  {
    QuotRem(va, g.pg);
    if Times(i, g.pg) <= va < Times(i, g.pg) + g.pg { QuotUnique(va, g.pg, i, va - Times(i, g.pg)); }
  }

  // ---- changes -------------------------------------------------------------------------------

  /** From `t` to `u`, exactly the addresses in `[lo, hi)` change, to `v`. */
  ghost predicate Changed(g: Shape, t: Table, u: Table, lo: nat, hi: nat, v: nat -> Option<Entry>) {
    && ValidShape(g) && WellFormed(g, t) && WellFormed(g, u)
    && forall x: nat {:trigger At(g, u, x)} :: x < Span(g) ==>
         At(g, u, x) == if lo <= x < hi then v(x) else At(g, t, x)
  }

  lemma {:induction false} Compose(g: Shape, t: Table, u: Table, w: Table, lo: nat, mid: nat, hi: nat,
                                   v: nat -> Option<Entry>)
    requires Changed(g, t, u, lo, mid, v) && Changed(g, u, w, mid, hi, v) && lo <= mid <= hi
    ensures Changed(g, t, w, lo, hi, v)
  {
    forall x: nat | x < Span(g) ensures At(g, w, x) == if lo <= x < hi then v(x) else At(g, t, x) {
      assert At(g, u, x) == if lo <= x < mid then v(x) else At(g, t, x);
    }
  }

  /** From cell `c` to cell `d`, exactly the offsets in `[from, to)` change, to `v` of the offset. */
  ghost predicate CellChanged(g: Shape, c: Cell, d: Cell, from: nat, to: nat, v: nat -> Option<Entry>) {
    && ValidShape(g) && g.Level? && CellFormed(g, c) && CellFormed(g, d)
    && forall off: nat {:trigger CellAt(g, d, off)} :: off < g.pg ==>
         CellAt(g, d, off) == if from <= off < to then v(off) else CellAt(g, c, off)
  }

  /** Writing cell `i` changes the part `[lo, hi)` of that cell's range. */
  lemma {:induction false} WriteCell(g: Shape, t: Table, i: nat, c: Cell, lo: nat, hi: nat, v: nat -> Option<Entry>,
                                     w: nat -> Option<Entry>)
    requires ValidShape(g) && WellFormed(g, t) && i < g.n
    requires Times(i, g.pg) <= lo <= hi <= Times(i, g.pg) + g.pg
    requires CellChanged(g, t.cells[i], c, lo - Times(i, g.pg), hi - Times(i, g.pg), w)
    requires forall off: nat :: off < g.pg ==> w(off) == v(Times(i, g.pg) + off)
    ensures Changed(g, t, Table(t.cells[i := c]), lo, hi, v)
  {
    WriteFormed(g, t, i, c);
    forall x: nat | x < Span(g)
      ensures At(g, Table(t.cells[i := c]), x) == if lo <= x < hi then v(x) else At(g, t, x)
    {
      WriteCellIs(g, t, i, c, lo, hi, v, w, x);
    }
  }

  lemma {:induction false} WriteFormed(g: Shape, t: Table, i: nat, c: Cell)
    requires WellFormed(g, t) && i < g.n && CellFormed(g, c)
    ensures WellFormed(g, Table(t.cells[i := c]))
  {
  }

  lemma {:induction false} WriteCellIs(g: Shape, t: Table, i: nat, c: Cell, lo: nat, hi: nat, v: nat -> Option<Entry>,
                                       w: nat -> Option<Entry>, x: nat)
    requires ValidShape(g) && WellFormed(g, t) && i < g.n && x < Span(g) && WellFormed(g, Table(t.cells[i := c]))
    requires Times(i, g.pg) <= lo <= hi <= Times(i, g.pg) + g.pg
    requires CellChanged(g, t.cells[i], c, lo - Times(i, g.pg), hi - Times(i, g.pg), w)
    requires forall off: nat :: off < g.pg ==> w(off) == v(Times(i, g.pg) + off)
    ensures At(g, Table(t.cells[i := c]), x) == if lo <= x < hi then v(x) else At(g, t, x)
  {
    WriteCellAt(g, t, i, c, x);
    InCell(g, i, x);
    if Quot(x, g.pg) == i {
      var off := Rem(x, g.pg);
      assert CellAt(g, c, off)
          == if lo - Times(i, g.pg) <= off < hi - Times(i, g.pg) then w(off) else CellAt(g, t.cells[i], off);
    }
  }

  lemma {:induction false} WriteCellAt(g: Shape, t: Table, i: nat, c: Cell, x: nat)
    requires ValidShape(g) && WellFormed(g, t) && i < g.n && CellFormed(g, c) && x < Span(g)
    ensures WellFormed(g, Table(t.cells[i := c]))
    ensures At(g, Table(t.cells[i := c]), x) == if Quot(x, g.pg) == i then CellAt(g, c, Rem(x, g.pg)) else At(g, t, x)
    ensures Quot(x, g.pg) == i ==> At(g, t, x) == CellAt(g, t.cells[i], Rem(x, g.pg))
  {
    IndexInTable(g, x);
  }

  // ---- map -----------------------------------------------------------------------------------

  /** A table as `create_table` makes it. */
  function Empty(g: Shape): Table
    requires g.Level?
  {
    Table(seq(g.n, _ => Inv))
  }

  lemma EmptyAt(g: Shape, x: nat)
    requires ValidShape(g) && g.Level? && x < Span(g)
    ensures WellFormed(g, Empty(g)) && At(g, Empty(g), x) == None
  {
    IndexInTable(g, x);
  }

  /** The table that a cell leads to; an invalid cell gets a new one. */
  function ChildOf(g: Shape, c: Cell): Table
    requires g.Level? && g.below.Level? && !c.Map?
  {
    if c.Dir? then c.child else Empty(g.below)
  }

  /** Address `x` of the table translates to `x + base`. */
  ghost function Linear(base: int, acc: nat, cached: bool): nat -> Option<Entry> {
    x => Some(Entry(x + base, acc, cached))
  }

  ghost function Max(a: nat, b: nat): nat { if a < b then b else a }
  function Min(a: nat, b: nat): nat { if a < b then a else b }

  /**
   The range `[lo, hi)` can be mapped: no conflicting mapping makes `map` panic and frames
   are aligned as the hardware demands.
   */
  ghost predicate CanMap(g: Shape, t: Table, lo: nat, hi: nat, base: int, over: bool)
    requires ValidShape(g) && g.Level?
    decreases g, 1
  {
    forall i {:trigger t.cells[i]} ::
      0 <= i < |t.cells| && i < g.n && Times(i, g.pg) < hi && lo < Times(i, g.pg) + g.pg ==>
        CellCanMap(g, t.cells[i], Max(lo, Times(i, g.pg)) - Times(i, g.pg),
                   Min(hi, Times(i, g.pg) + g.pg) - Times(i, g.pg), base + Times(i, g.pg), over)
  }

  ghost predicate CellCanMap(g: Shape, c: Cell, from: nat, to: nat, base: int, over: bool)
    requires ValidShape(g) && g.Level?
    decreases g, 0
  {
    if from == 0 && to >= g.pg then !c.Dir? && (over || !c.Map?) && base >= 0 && Rem(base, g.frame) == 0
    else !c.Map? && (g.below.Level? ==> CanMap(g.below, ChildOf(g, c), from, to, base, over))
  }

  lemma {:induction false} PageOffset(va: nat, pg: nat)
    requires pg > 0 && Paged(pg) && Paged(va)
    ensures Paged(Rem(va, pg))
    decreases va
  {
    if va >= pg {
      PageSum(va, pg);
      PageOffset(va - pg, pg);
    }
  }

  /** Where the loop of `map` or `unmap` stands: at its start or on a cell boundary. */
  ghost predicate OnBoundary(g: Shape, vaddr: nat, va: nat)
    requires g.Level? && g.pg > 0
  {
    vaddr <= va && (va == vaddr || Rem(va, g.pg) == 0)
  }

  /** Cells at and behind `va` have not been touched yet. */
  ghost predicate Ahead(g: Shape, t: Table, u: Table, va: nat)
    requires g.Level? && g.pg > 0
  {
    && |u.cells| == |t.cells|
    && forall i {:trigger u.cells[i]} :: Quot(va, g.pg) <= i < |t.cells| ==> u.cells[i] == t.cells[i]
  }

  lemma NextCell(g: Shape, va: nat, len: nat)
    requires g.Level? && g.pg > 0 && Rem(va, g.pg) + len == g.pg
    ensures Quot(va + len, g.pg) == Quot(va, g.pg) + 1 && Rem(va + len, g.pg) == 0
  {
    QuotRem(va, g.pg);
    QuotUnique(va + len, g.pg, Quot(va, g.pg) + 1, 0);
  }

  /** One step of a loop over cells: the change inside cell `i` extends the change of the table. */
  lemma {:induction false} ExtendChange(g: Shape, t: Table, u: Table, vaddr: nat, va: nat, len: nat, c: Cell,
                                        v: nat -> Option<Entry>, w: nat -> Option<Entry>)
    requires Changed(g, t, u, vaddr, va, v) && vaddr <= va && va + len <= Span(g) && 0 < len
    requires Quot(va, g.pg) < g.n && Rem(va, g.pg) + len <= g.pg
    requires CellChanged(g, u.cells[Quot(va, g.pg)], c, Rem(va, g.pg), Rem(va, g.pg) + len, w)
    requires forall off: nat :: off < g.pg ==> w(off) == v(Times(Quot(va, g.pg), g.pg) + off)
    ensures Changed(g, t, Table(u.cells[Quot(va, g.pg) := c]), vaddr, va + len, v)
  {
    var i := Quot(va, g.pg);
    InCell(g, i, va);
    WriteCell(g, u, i, c, va, va + len, v, w);
    Compose(g, t, u, Table(u.cells[i := c]), vaddr, va, va + len, v);
  }

  /** Behind the written cell nothing has changed. */
  lemma {:induction false} StillAhead(g: Shape, t: Table, u: Table, va: nat, len: nat, c: Cell)
    requires ValidShape(g) && g.Level? && Ahead(g, t, u, va) && Quot(va, g.pg) < |u.cells|
    requires Rem(va, g.pg) + len == g.pg
    ensures Rem(va + len, g.pg) == 0 && Ahead(g, t, Table(u.cells[Quot(va, g.pg) := c]), va + len)
  {
    NextCell(g, va, len);
  }

  /** The cell under the loop of `map` is ready for its part of the range. */
  lemma {:induction false} CellReady(g: Shape, t: Table, vaddr: nat, va: nat, rest: nat, pa: nat, over: bool)
    requires ValidShape(g) && WellFormed(g, t) && CanMap(g, t, vaddr, va + rest, pa - va, over)
    requires OnBoundary(g, vaddr, va) && rest > 0 && Quot(va, g.pg) < g.n
    ensures var off := Rem(va, g.pg);
            CellCanMap(g, t.cells[Quot(va, g.pg)], off, Min(off + rest, g.pg), pa - off, over)
  {
    var i := Quot(va, g.pg);
    InCell(g, i, va);
    assert Max(vaddr, Times(i, g.pg)) == va;
    assert t.cells[i] == t.cells[i];
  }

  /** The range is mapped with the largest pages that fit: a cell is split only where the range ends in it. */
  ghost predicate LargestPages(g: Shape, u: Table, lo: nat, hi: nat)
    requires ValidShape(g) && g.Level?
    decreases g, 2
  {
    forall i: nat {:trigger PartLargest(g, u, lo, hi, i)} :: i < |u.cells| ==> PartLargest(g, u, lo, hi, i)
  }

  ghost predicate PartLargest(g: Shape, u: Table, lo: nat, hi: nat, i: nat)
    requires ValidShape(g) && g.Level?
    decreases g, 1
  {
    var start := Times(i, g.pg);
    i < |u.cells| && lo < hi && start < hi && lo < start + g.pg ==>
      CellLargest(g, u.cells[i], Max(lo, start) - start, Min(hi, start + g.pg) - start)
  }

  ghost predicate CellLargest(g: Shape, c: Cell, from: nat, to: nat)
    requires ValidShape(g) && g.Level?
    decreases g, 0
  {
    if from == 0 && to >= g.pg then c.Map?
    else c.Dir? && g.below.Level? && LargestPages(g.below, c.child, from, to)
  }

  /** The part of that which is done when the loop stands at `va`. */
  ghost predicate LargestSoFar(g: Shape, u: Table, lo: nat, hi: nat, va: nat)
    requires ValidShape(g) && g.Level?
  {
    forall i: nat {:trigger PartLargest(g, u, lo, hi, i)} ::
      i < |u.cells| && (va == hi || i < Quot(va, g.pg)) ==> PartLargest(g, u, lo, hi, i)
  }

  lemma {:induction false} LargestStarts(g: Shape, u: Table, lo: nat, hi: nat)
    requires ValidShape(g) && g.Level?
    ensures LargestSoFar(g, u, lo, hi, lo)
  {
    forall i: nat | i < |u.cells| && (lo == hi || i < Quot(lo, g.pg)) ensures PartLargest(g, u, lo, hi, i) {
      QuotRem(lo, g.pg);
      TimesMono(i, Quot(lo, g.pg), g.pg);
    }
  }

  lemma {:induction false} LargestGoesOn(g: Shape, u: Table, lo: nat, hi: nat, va: nat, c: Cell, len: nat)
    requires ValidShape(g) && g.Level? && OnBoundary(g, lo, va) && Quot(va, g.pg) < |u.cells|
    requires va < hi && len == Min(hi - va, g.pg - Rem(va, g.pg)) && LargestSoFar(g, u, lo, hi, va)
    requires CellLargest(g, c, Rem(va, g.pg), Rem(va, g.pg) + len)
    ensures LargestSoFar(g, Table(u.cells[Quot(va, g.pg) := c]), lo, hi, va + len)
  {
    var k, next := Quot(va, g.pg), va + len;
    var u' := Table(u.cells[k := c]);
    InCell(g, k, va);
    if next < hi { NextCell(g, va, len); }
    forall i: nat | i < |u'.cells| && (next == hi || i < Quot(next, g.pg)) ensures PartLargest(g, u', lo, hi, i) {
      if i < k { assert PartLargest(g, u, lo, hi, i); }
      if i > k { TimesMono(k, i, g.pg); }
    }
  }

  lemma {:induction false} LargestDone(g: Shape, u: Table, lo: nat, hi: nat)
    requires ValidShape(g) && g.Level? && LargestSoFar(g, u, lo, hi, hi)
    ensures LargestPages(g, u, lo, hi)
  {
    forall i: nat | i < |u.cells| ensures PartLargest(g, u, lo, hi, i) {}
  }

  /** The body of the loop in `map`: one whole page, or a part in the child table. */
  method MapCell(g: Shape, cell: Cell, off: nat, pa: nat, rest: nat, acc: nat, cached: bool, over: bool)
    returns (c: Cell, len: nat)
    requires ValidShape(g) && g.Level? && CellFormed(g, cell) && off < g.pg && 0 < rest
    requires Paged(off) && Paged(pa) && Paged(rest)
    requires CellCanMap(g, cell, off, Min(off + rest, g.pg), pa - off, over)
    ensures len == Min(rest, g.pg - off) && CellChanged(g, cell, c, off, off + len, Linear(pa - off, acc, cached))
    ensures CellLargest(g, c, off, off + len)
    decreases g, 0
  {
    if off == 0 && rest >= g.pg {
      return Map(pa, acc, cached), g.pg;
    }
    NeverBelowLeaf(g, off, rest);
    len := Min(rest, g.pg - off);
    PartAligned(g, off, rest);
    ChildFormed(g, cell);
    var child := MapRange(g.below, ChildOf(g, cell), off, pa, len, acc, cached, over);
    DirChanged(g, cell, child, off, off + len, Linear(pa - off, acc, cached));
    c := Dir(child);
  }

  /** Page-aligned ranges cover leaf cells as a whole, so no level below the leaves is ever needed. */
  lemma NeverBelowLeaf(g: Shape, off: nat, rest: nat)
    requires ValidShape(g) && g.Level? && off < g.pg && 0 < rest && Paged(off) && Paged(rest)
    ensures (off == 0 && rest >= g.pg) || g.below.Level?
  {
  }

  lemma ChildFormed(g: Shape, c: Cell)
    requires ValidShape(g) && g.Level? && g.below.Level? && CellFormed(g, c) && !c.Map?
    ensures WellFormed(g.below, ChildOf(g, c)) && Span(g.below) == g.pg
  {
  }

  lemma {:induction false} DirChanged(g: Shape, c: Cell, child: Table, from: nat, to: nat, v: nat -> Option<Entry>)
    requires ValidShape(g) && g.Level? && g.below.Level? && CellFormed(g, c) && !c.Map?
    requires Changed(g.below, ChildOf(g, c), child, from, to, v)
    ensures CellChanged(g, c, Dir(child), from, to, v)
  {
    forall off: nat | off < g.pg
      ensures CellAt(g, Dir(child), off) == if from <= off < to then v(off) else CellAt(g, c, off)
    {
      if c.Inv? { EmptyAt(g.below, off); }
      assert CellAt(g, Dir(child), off) == At(g.below, child, off);
    }
  }

  lemma {:induction false} PageSum(a: nat, b: nat)
    requires Paged(a) && Paged(b)
    ensures Paged(a + b) && (a >= b ==> Paged(a - b))
    decreases b
  {
    if b >= PAGE {
      PageSum(a, b - PAGE);
      if a >= b { PageSum(a - PAGE, b - PAGE); }
    }
  }

  lemma PartAligned(g: Shape, off: nat, rest: nat)
    requires ValidShape(g) && g.Level? && off < g.pg && Paged(off) && Paged(rest)
    ensures Paged(Min(rest, g.pg - off))
  {
    PageSum(g.pg, off);
  }

  lemma StepAligned(g: Shape, vaddr: nat, paddr: nat, va: nat, rest: nat)
    requires ValidShape(g) && g.Level? && Paged(vaddr) && Paged(paddr) && Paged(va) && Paged(rest) && vaddr <= va
    ensures var len := Min(rest, g.pg - Rem(va, g.pg));
            Paged(va + len) && Paged(rest - len) && Paged(paddr + va - vaddr) && Paged(Rem(va, g.pg))
  {
    PageOffset(va, g.pg);
    PartAligned(g, Rem(va, g.pg), rest);
    var len := Min(rest, g.pg - Rem(va, g.pg));
    PageSum(va, len);
    PageSum(rest, len);
    PageSum(paddr, va);
    PageSum(paddr + va, vaddr);
  }

  lemma StepInCell(g: Shape, t: Table, u: Table, va: nat, rest: nat)
    requires ValidShape(g) && WellFormed(g, t) && va + rest <= Span(g) && rest > 0 && Ahead(g, t, u, va)
    ensures Quot(va, g.pg) < g.n && |u.cells| == |t.cells| == g.n && u.cells[Quot(va, g.pg)] == t.cells[Quot(va, g.pg)]
    ensures va == Times(Quot(va, g.pg), g.pg) + Rem(va, g.pg)
  {
    IndexInTable(g, va);
    QuotRem(va, g.pg);
  }

  /** The state of the loop in `map` when it stands at `va` with `rest` bytes to go. */
  ghost predicate Mapping(g: Shape, t: Table, u: Table, vaddr: nat, paddr: nat, size: nat, va: nat, rest: nat,
                          acc: nat, cached: bool, over: bool)
  {
    && ValidShape(g) && WellFormed(g, t) && vaddr + size <= Span(g) && vaddr <= va && va + rest == vaddr + size
    && Paged(vaddr) && Paged(paddr) && Paged(va) && Paged(rest)
    && CanMap(g, t, vaddr, vaddr + size, paddr - vaddr, over)
    && (rest != 0 ==> OnBoundary(g, vaddr, va) && Ahead(g, t, u, va))
    && Changed(g, t, u, vaddr, va, Linear(paddr - vaddr, acc, cached))
  }

  lemma {:induction false} BeforeStep(g: Shape, t: Table, u: Table, vaddr: nat, paddr: nat, size: nat, va: nat,
                                      rest: nat, acc: nat, cached: bool, over: bool)
    requires Mapping(g, t, u, vaddr, paddr, size, va, rest, acc, cached, over) && rest > 0
    ensures Quot(va, g.pg) < |u.cells| && CellFormed(g, u.cells[Quot(va, g.pg)])
    ensures Paged(Rem(va, g.pg)) && Paged(paddr + va - vaddr)
    ensures var off := Rem(va, g.pg);
            CellCanMap(g, u.cells[Quot(va, g.pg)], off, Min(off + rest, g.pg), paddr + va - vaddr - off, over)
  {
    StepInCell(g, t, u, va, rest);
    StepAligned(g, vaddr, paddr, va, rest);
    var pa: nat := paddr + va - vaddr;
    assert vaddr + size == va + rest && paddr - vaddr == pa - va;
    CellReady(g, t, vaddr, va, rest, pa, over);
  }

  lemma {:induction false} AfterStep(g: Shape, t: Table, u: Table, vaddr: nat, paddr: nat, size: nat, va: nat,
                                     rest: nat, acc: nat, cached: bool, over: bool, c: Cell, len: nat)
    requires Mapping(g, t, u, vaddr, paddr, size, va, rest, acc, cached, over) && rest > 0
    requires Quot(va, g.pg) < |u.cells| && len == Min(rest, g.pg - Rem(va, g.pg))
    requires CellChanged(g, u.cells[Quot(va, g.pg)], c, Rem(va, g.pg), Rem(va, g.pg) + len,
                         Linear(paddr + va - vaddr - Rem(va, g.pg), acc, cached))
    requires LargestSoFar(g, u, vaddr, vaddr + size, va) && CellLargest(g, c, Rem(va, g.pg), Rem(va, g.pg) + len)
    ensures Mapping(g, t, Table(u.cells[Quot(va, g.pg) := c]), vaddr, paddr, size, va + len, rest - len, acc, cached,
                    over)
    ensures LargestSoFar(g, Table(u.cells[Quot(va, g.pg) := c]), vaddr, vaddr + size, va + len)
  {
    LargestGoesOn(g, u, vaddr, vaddr + size, va, c, len);
    StepInCell(g, t, u, va, rest);
    StepAligned(g, vaddr, paddr, va, rest);
    if len < rest { StillAhead(g, t, u, va, len, c); }
    ExtendChange(g, t, u, vaddr, va, len, c, Linear(paddr - vaddr, acc, cached),
                 Linear(paddr + va - vaddr - Rem(va, g.pg), acc, cached));
  }

  /** One turn of the loop in `map`. */
  method MapStep(g: Shape, ghost t: Table, u: Table, vaddr: nat, paddr: nat, ghost size: nat, va: nat, rest: nat,
                 acc: nat, cached: bool, over: bool)
    returns (u': Table, len: nat)
    requires Mapping(g, t, u, vaddr, paddr, size, va, rest, acc, cached, over) && rest > 0
    requires LargestSoFar(g, u, vaddr, vaddr + size, va)
    ensures 0 < len <= rest && Mapping(g, t, u', vaddr, paddr, size, va + len, rest - len, acc, cached, over)
    ensures LargestSoFar(g, u', vaddr, vaddr + size, va + len)
    decreases g, 1
  {
    BeforeStep(g, t, u, vaddr, paddr, size, va, rest, acc, cached, over);
    var i := Quot(va, g.pg);
    var c;
    c, len := MapCell(g, u.cells[i], Rem(va, g.pg), paddr + va - vaddr, rest, acc, cached, over);
    AfterStep(g, t, u, vaddr, paddr, size, va, rest, acc, cached, over, c, len);
    u' := Table(u.cells[i := c]);
  }

  /** `map`: enters a mapping with the largest pages that fit, level by level. */
  method MapRange(g: Shape, t: Table, vaddr: nat, paddr: nat, size: nat, acc: nat, cached: bool, over: bool)
    returns (u: Table)
    requires ValidShape(g) && WellFormed(g, t) && vaddr + size <= Span(g)
    requires Paged(vaddr) && Paged(paddr) && Paged(size)
    requires CanMap(g, t, vaddr, vaddr + size, paddr - vaddr, over)
    ensures Changed(g, t, u, vaddr, vaddr + size, Linear(paddr - vaddr, acc, cached))
    ensures LargestPages(g, u, vaddr, vaddr + size)
    decreases g, 2
  {
    u := t;
    var va: nat, rest: nat := vaddr, size;
    LargestStarts(g, u, vaddr, vaddr + size);
    while rest != 0
      invariant Mapping(g, t, u, vaddr, paddr, size, va, rest, acc, cached, over)
      invariant LargestSoFar(g, u, vaddr, vaddr + size, va)
      decreases rest
    {
      var len;
      u, len := MapStep(g, t, u, vaddr, paddr, size, va, rest, acc, cached, over);
      va, rest := va + len, rest - len;
    }
    LargestDone(g, u, vaddr, vaddr + size);
  }

  // ---- unmap ---------------------------------------------------------------------------------

  ghost function Gone(): nat -> Option<Entry> {
    x => None
  }

  /**
   A range that every level meets either as whole cells or inside one cell. Naturally aligned
   flexpages are such ranges, see `FlexpageIsNatural`.
   */
  ghost predicate Natural(g: Shape, lo: nat, size: nat) {
    && g.Level? && g.pg > 0
    && (Whole(g, lo, size) || (Rem(lo, g.pg) + size <= g.pg && Natural(g.below, Rem(lo, g.pg), size)))
  }

  predicate Whole(g: Shape, lo: nat, size: nat)
    requires g.Level? && g.pg > 0
  {
    Rem(lo, g.pg) == 0 && Rem(size, g.pg) == 0
  }

  /** No page strictly contains the range, which is what makes `unmap` panic. */
  ghost predicate NoLargerPage(g: Shape, t: Table, lo: nat, size: nat)
    requires ValidShape(g) && g.Level?
  {
    Whole(g, lo, size) || (Quot(lo, g.pg) < |t.cells| && NoLargerIn(g, t.cells[Quot(lo, g.pg)], Rem(lo, g.pg), size))
  }

  ghost predicate NoLargerIn(g: Shape, c: Cell, off: nat, size: nat)
    requires ValidShape(g) && g.Level?
  {
    !c.Map? && (c.Dir? && g.below.Level? ==> NoLargerPage(g.below, c.child, off, size))
  }

  /** What `unmap` needs of its part of one cell. */
  ghost predicate CellUnmappable(g: Shape, c: Cell, off: nat, rest: nat)
    requires ValidShape(g) && g.Level?
  {
    || (off == 0 && rest >= g.pg)
    || (off + rest <= g.pg && Natural(g.below, off, rest) && NoLargerIn(g, c, off, rest))
  }

  /** The body of the loop in `unmap`. */
  method UnmapCell(g: Shape, cell: Cell, off: nat, rest: nat) returns (c: Cell, len: nat)
    requires ValidShape(g) && g.Level? && CellFormed(g, cell) && off < g.pg && 0 < rest
    requires CellUnmappable(g, cell, off, rest)
    ensures len == Min(rest, g.pg - off) && CellChanged(g, cell, c, off, off + len, Gone())
    decreases g, 0
  {
    match cell
    case Dir(below) =>
      len := Min(rest, g.pg - off);
      PartNatural(g, off, rest);
      var child := UnmapRange(g.below, below, off, len);
      DirChanged(g, cell, child, off, off + len, Gone());
      c := Dir(child);
    case Map(_, _, _) =>
      return Inv, g.pg;
    case Inv =>
      return Inv, Min(rest, g.pg);
  }

  lemma PartNatural(g: Shape, off: nat, rest: nat)
    requires ValidShape(g) && g.Level? && g.below.Level? && off < g.pg
    requires (off == 0 && rest >= g.pg) || (off + rest <= g.pg && Natural(g.below, off, rest))
    ensures Span(g.below) == g.pg && Natural(g.below, off, Min(rest, g.pg - off))
    ensures off == 0 && rest >= g.pg ==> Whole(g.below, off, g.pg)
  {
    if off == 0 && rest >= g.pg { QuotUnique(g.pg, g.below.pg, g.below.n, 0); }
  }

  /** The state of the loop in `unmap`. */
  ghost predicate Unmapping(g: Shape, t: Table, u: Table, vaddr: nat, size: nat, va: nat, rest: nat) {
    && ValidShape(g) && WellFormed(g, t) && vaddr + size <= Span(g) && vaddr <= va && va + rest == vaddr + size
    && (rest == 0 || Whole(g, va, rest)
        || (u == t && va == vaddr && Natural(g, vaddr, size) && NoLargerPage(g, t, vaddr, size)))
    && Changed(g, t, u, vaddr, va, Gone())
  }

  lemma {:induction false} BeforeUnmap(g: Shape, t: Table, u: Table, vaddr: nat, size: nat, va: nat, rest: nat)
    requires Unmapping(g, t, u, vaddr, size, va, rest) && rest > 0
    ensures var i := Quot(va, g.pg);
            i < |u.cells| && CellFormed(g, u.cells[i]) && CellUnmappable(g, u.cells[i], Rem(va, g.pg), rest)
  {
    IndexInTable(g, va);
  }

  lemma {:induction false} AfterUnmap(g: Shape, t: Table, u: Table, vaddr: nat, size: nat, va: nat, rest: nat,
                                      c: Cell, len: nat)
    requires Unmapping(g, t, u, vaddr, size, va, rest) && rest > 0
    requires Quot(va, g.pg) < |u.cells| && len == Min(rest, g.pg - Rem(va, g.pg))
    requires CellChanged(g, u.cells[Quot(va, g.pg)], c, Rem(va, g.pg), Rem(va, g.pg) + len, Gone())
    ensures Unmapping(g, t, Table(u.cells[Quot(va, g.pg) := c]), vaddr, size, va + len, rest - len)
  {
    ExtendChange(g, t, u, vaddr, va, len, c, Gone(), Gone());
    if len < rest { NextCell(g, va, len); }
  }

  /** `unmap`: removes exactly the pages of the range, at whatever level they are. */
  method UnmapRange(g: Shape, t: Table, vaddr: nat, size: nat) returns (u: Table)
    requires ValidShape(g) && WellFormed(g, t) && vaddr + size <= Span(g)
    requires Natural(g, vaddr, size) && NoLargerPage(g, t, vaddr, size)
    ensures Changed(g, t, u, vaddr, vaddr + size, Gone())
    decreases g, 2
  {
    u := t;
    var va: nat, rest: nat := vaddr, size;
    while rest != 0
      invariant Unmapping(g, t, u, vaddr, size, va, rest)
      decreases rest
    {
      BeforeUnmap(g, t, u, vaddr, size, va, rest);
      var i := Quot(va, g.pg);
      var c, len := UnmapCell(g, u.cells[i], Rem(va, g.pg), rest);
      AfterUnmap(g, t, u, vaddr, size, va, rest, c, len);
      u := Table(u.cells[i := c]);
      va, rest := va + len, rest - len;
    }
  }

  /** The index fields of every level are bit fields. */
  ghost predicate PowerShape(g: Shape, low: nat) {
    g.Level? ==> (exists k: nat :: low <= k && g.pg == Pow2(k)) && PowerShape(g.below, low)
  }

  /** A naturally aligned flexpage of at least a page is a range that `unmap` handles. */
  lemma {:induction false} FlexpageIsNatural(g: Shape, lo: nat, k: nat)
    requires ValidShape(g) && g.Level? && PowerShape(g, 12)
    requires k >= 12 && Aligned(lo, k)
    ensures Natural(g, lo, Pow2(k))
    decreases g
  {
    var p: nat :| 12 <= p && g.pg == Pow2(p);
    if p <= k {
      AlignedDown(lo, k, p);
      RemOfAligned(lo, p, p);
      Pow2Aligned(k, p);
      RemOfAligned(Pow2(k), p, p);
    } else {
      Pow2Monotone(k, p);
      RemOfAligned(lo, p, k);
      var r := Rem(lo, g.pg);
      AlignedFits(r, k, p);
      assert Pow2(12) == 4096;
      Pow2Monotone(12, p);
      FlexpageIsNatural(g.below, r, k);
    }
  }

  /** The remainder by a power of two keeps every smaller alignment. */
  lemma {:induction false} RemOfAligned(a: nat, p: nat, k: nat)
    requires k <= p && Aligned(a, k)
    ensures Aligned(Rem(a, Pow2(p)), k)
    ensures k == p ==> Rem(a, Pow2(p)) == 0
    decreases a
  {
    if a >= Pow2(p) {
      Pow2Aligned(p, k);
      AlignedSum(Pow2(p), a - Pow2(p), k);
      RemOfAligned(a - Pow2(p), p, k);
    } else if k == p {
      AlignedGap(a, k);
    }
  }

  lemma AlignedFits(r: nat, k: nat, p: nat)
    requires Aligned(r, k) && k <= p && r < Pow2(p)
    ensures r + Pow2(k) <= Pow2(p)
  {
    Pow2Aligned(p, k);
    AlignedSum(r, Pow2(p) - r, k);
    AlignedGap(Pow2(p) - r, k);
  }

  // ---- walk ----------------------------------------------------------------------------------

  ghost predicate AllMapped(g: Shape, t: Table, lo: nat, hi: nat)
    requires ValidShape(g) && WellFormed(g, t) && hi <= Span(g)
  {
    forall x: nat {:trigger At(g, t, x)} :: lo <= x < hi ==> At(g, t, x).Some?
  }

  /** No address of the range translates to physical address zero. */
  ghost predicate NoneAtZero(g: Shape, t: Table, lo: nat, hi: nat)
    requires ValidShape(g) && WellFormed(g, t) && hi <= Span(g)
  {
    forall x: nat {:trigger At(g, t, x)} :: lo <= x < hi && At(g, t, x).Some? ==> At(g, t, x).value.pa != 0
  }

  /** What `walk` answers for a range. */
  ghost predicate WalkIs(g: Shape, t: Table, lo: nat, hi: nat, r: int)
    requires ValidShape(g) && WellFormed(g, t) && hi <= Span(g)
  {
    && (r != 0 <==> lo < hi && AllMapped(g, t, lo, hi))
    && (r != 0 ==> At(g, t, lo).Some? && r == At(g, t, lo).value.pa)
  }

  ghost predicate CellWalkIs(g: Shape, c: Cell, lo: nat, hi: nat, r: int)
    requires ValidShape(g) && g.Level? && CellFormed(g, c) && lo < hi <= g.pg
  {
    && (r != 0 <==> forall x: nat {:trigger CellAt(g, c, x)} :: lo <= x < hi ==> CellAt(g, c, x).Some?)
    && (r != 0 ==> CellAt(g, c, lo).Some? && r == CellAt(g, c, lo).value.pa)
  }

  ghost predicate CellNoZero(g: Shape, c: Cell, lo: nat, hi: nat)
    requires ValidShape(g) && g.Level? && CellFormed(g, c) && hi <= g.pg
  {
    forall x: nat {:trigger CellAt(g, c, x)} :: lo <= x < hi && CellAt(g, c, x).Some? ==> CellAt(g, c, x).value.pa != 0
  }

  method WalkCell(g: Shape, c: Cell, off: nat, len: nat) returns (r: int)
    requires ValidShape(g) && g.Level? && CellFormed(g, c) && 0 < len && off + len <= g.pg
    requires CellNoZero(g, c, off, off + len)
    ensures CellWalkIs(g, c, off, off + len, r)
    decreases g, 0
  {
    match c
    case Inv =>
      assert CellAt(g, c, off).None?;
      return 0;
    case Map(pa, _, _) =>
      assert CellAt(g, c, off).Some?;
      return pa + off;
    case Dir(child) =>
      ChildZero(g, c, off, off + len);
      r := WalkRange(g.below, child, off, len);
      ChildWalk(g, c, off, off + len, r);
  }

  lemma ChildZero(g: Shape, c: Cell, lo: nat, hi: nat)
    requires ValidShape(g) && g.Level? && c.Dir? && CellFormed(g, c) && hi <= g.pg && CellNoZero(g, c, lo, hi)
    ensures g.below.Level? && Span(g.below) == g.pg && NoneAtZero(g.below, c.child, lo, hi)
  {
    forall x: nat | lo <= x < hi && At(g.below, c.child, x).Some? ensures At(g.below, c.child, x).value.pa != 0 {
      assert CellAt(g, c, x) == At(g.below, c.child, x);
    }
  }

  lemma ChildWalk(g: Shape, c: Cell, lo: nat, hi: nat, r: int)
    requires ValidShape(g) && g.Level? && c.Dir? && CellFormed(g, c) && lo < hi <= g.pg
    requires g.below.Level? && Span(g.below) == g.pg && WalkIs(g.below, c.child, lo, hi, r)
    ensures CellWalkIs(g, c, lo, hi, r)
  {
    assert CellAt(g, c, lo) == At(g.below, c.child, lo);
    if r == 0 {
      var x: nat :| lo <= x < hi && At(g.below, c.child, x).None?;
      assert CellAt(g, c, x).None?;
    }
  }

  /** `walk`: the physical address of the first page if the whole range is mapped, else zero. */
  method WalkRange(g: Shape, t: Table, vaddr: nat, size: nat) returns (r: int)
    requires ValidShape(g) && WellFormed(g, t) && vaddr + size <= Span(g)
    requires NoneAtZero(g, t, vaddr, vaddr + size)
    ensures WalkIs(g, t, vaddr, vaddr + size, r)
    decreases g, 1
  {
    r := 0;
    var va: nat, rest: nat := vaddr, size;
    while rest != 0
      invariant vaddr <= va && va + rest == vaddr + size
      invariant WalkIs(g, t, vaddr, va, r) && (va > vaddr ==> r != 0)
      decreases rest
    {
      IndexInTable(g, va);
      var i, off := Quot(va, g.pg), Rem(va, g.pg);
      var len := Min(rest, g.pg - off);
      CellOfTable(g, t, va, len);
      var res := WalkCell(g, t.cells[i], off, len);
      WalkExtends(g, t, vaddr, va, len, r, res);
      if res == 0 {
        return 0;
      }
      if r == 0 { r := res; }
      va, rest := va + len, rest - len;
    }
  }

  /** Address `x`, in the same cell as `va`. */
  lemma {:induction false} SameCell(g: Shape, t: Table, va: nat, x: nat)
    requires ValidShape(g) && WellFormed(g, t) && x < Span(g) && Quot(va, g.pg) < g.n
    requires 0 <= Rem(va, g.pg) + x - va < g.pg
    ensures At(g, t, x) == CellAt(g, t.cells[Quot(va, g.pg)], Rem(va, g.pg) + x - va)
  {
    InCell(g, Quot(va, g.pg), va);
    InCell(g, Quot(va, g.pg), x);
  }

  lemma {:induction false} CellOfTable(g: Shape, t: Table, va: nat, len: nat)
    requires ValidShape(g) && WellFormed(g, t) && va + len <= Span(g) && 0 < len <= g.pg - Rem(va, g.pg)
    requires Quot(va, g.pg) < g.n && NoneAtZero(g, t, va, va + len)
    ensures CellNoZero(g, t.cells[Quot(va, g.pg)], Rem(va, g.pg), Rem(va, g.pg) + len)
  {
    var c, off := t.cells[Quot(va, g.pg)], Rem(va, g.pg);
    forall x: nat | off <= x < off + len && CellAt(g, c, x).Some? ensures CellAt(g, c, x).value.pa != 0 {
      SameCell(g, t, va, va + x - off);
    }
  }

  lemma {:induction false} WalkExtends(g: Shape, t: Table, vaddr: nat, va: nat, len: nat, r: int, res: int)
    requires ValidShape(g) && WellFormed(g, t) && vaddr <= va && va + len <= Span(g) && 0 < len <= g.pg - Rem(va, g.pg)
    requires WalkIs(g, t, vaddr, va, r) && (va > vaddr ==> r != 0) && Quot(va, g.pg) < g.n
    requires CellWalkIs(g, t.cells[Quot(va, g.pg)], Rem(va, g.pg), Rem(va, g.pg) + len, res)
    ensures res == 0 ==> !AllMapped(g, t, vaddr, va + len)
    ensures res != 0 ==> WalkIs(g, t, vaddr, va + len, if r == 0 then res else r)
  {
    var c, off := t.cells[Quot(va, g.pg)], Rem(va, g.pg);
    if res == 0 {
      var x: nat :| off <= x < off + len && CellAt(g, c, x).None?;
      SameCell(g, t, va, va + x - off);
    } else {
      SameCell(g, t, va, va);
      forall x: nat | vaddr <= x < va + len ensures At(g, t, x).Some? {
        if x >= va { SameCell(g, t, va, x); }
      }
    }
  }
}
