/** `list_t` of list.h: two doubly linked chains, busy and free, over one pool of nodes. */
module NodeList {

  // ---- the list as a value -------------------------------------------------------------------

  /** The busy nodes in list order, the free nodes in the order they are taken, and the data. */
  datatype Nodes<+T> = Nodes(busy: seq<nat>, free: seq<nat>, data: map<nat, T>)

  ghost predicate Distinct(s: seq<nat>) {
    forall i, j :: 0 <= i < j < |s| ==> s[i] != s[j]
  }

  ghost predicate Apart(s: seq<nat>, t: seq<nat>) {
    forall i, j {:trigger s[i], t[j]} :: 0 <= i < |s| && 0 <= j < |t| ==> s[i] != t[j]
  }

  ghost predicate NodesOk<T>(n: Nodes<T>) {
    && Distinct(n.busy) && Distinct(n.free) && Apart(n.busy, n.free) && 0 !in n.data
    && (forall x {:trigger x in n.data} :: x in n.data <==> x in n.busy || x in n.free)
  }

  function Without(s: seq<nat>, i: nat): seq<nat>
    requires i < |s|
  {
    s[..i] + s[i + 1..]
  }

  function With(s: seq<nat>, i: nat, x: nat): seq<nat>
    requires i <= |s|
  {
    s[..i] + [x] + s[i..]
  }

  /** The values of the list in order. */
  function Contents<T>(n: Nodes<T>): seq<T>
    requires forall i :: 0 <= i < |n.busy| ==> n.busy[i] in n.data
  {
    seq(|n.busy|, i requires 0 <= i < |n.busy| => n.data[n.busy[i]])
  }

  /** A new node with `val` before position `i`; the first free node is used. */
  function Inserted<T>(n: Nodes<T>, i: nat, val: T): Nodes<T>
    requires i <= |n.busy| && |n.free| > 0
  {
    Nodes(With(n.busy, i, n.free[0]), n.free[1..], n.data[n.free[0] := val])
  }

  function Pushed<T>(n: Nodes<T>, val: T): Nodes<T>
    requires |n.free| > 0
  {
    Inserted(n, |n.busy|, val)
  }

  /** The node at position `i` becomes the first free one. */
  function Erased<T>(n: Nodes<T>, i: nat): Nodes<T>
    requires i < |n.busy|
  {
    Nodes(Without(n.busy, i), [n.busy[i]] + n.free, n.data)
  }

  /** New nodes go to the end of the free chain, one by one. */
  function Stocked<T>(n: Nodes<T>, ids: seq<nat>, val: T): Nodes<T>
    decreases |ids|
  {
    if ids == [] then n else Stocked(Nodes(n.busy, n.free + [ids[0]], n.data[ids[0] := val]), ids[1..], val)
  }

  lemma {:induction false} StockedIs<T>(n: Nodes<T>, ids: seq<nat>, val: T)
    ensures Stocked(n, ids, val).busy == n.busy && Stocked(n, ids, val).free == n.free + ids
    decreases |ids|
  {
    if ids != [] {
      StockedIs(Nodes(n.busy, n.free + [ids[0]], n.data[ids[0] := val]), ids[1..], val);
      assert ids == [ids[0]] + ids[1..];
    }
  }

  /** What the allocator of a list answers when asked for memory. */
  datatype Chunk = NoChunk | Chunk(base: nat, sz: nat)

  /** `check_for_alloc`: a list without free nodes cuts new ones out of the chunk. */
  function Supplied<T>(n: Nodes<T>, chunk: Chunk, itemSize: nat, val: T): Nodes<T>
    requires itemSize > 0
  {
    if n.free == [] && chunk.Chunk? then Stocked(n, Cut(chunk.base, chunk.sz, itemSize), val) else n
  }

  lemma InsertedOk<T>(n: Nodes<T>, i: nat, val: T)
    requires NodesOk(n) && i <= |n.busy| && |n.free| > 0
    ensures NodesOk(Inserted(n, i, val))
    ensures Contents(Inserted(n, i, val)) == Contents(n)[..i] + [val] + Contents(n)[i..]
  {
    InsertedNodes(n, i, val);
    BusyHasData(n);
    BusyHasData(Inserted(n, i, val));
  }

  lemma InsertedNodes<T>(n: Nodes<T>, i: nat, val: T)
    requires NodesOk(n) && i <= |n.busy| && |n.free| > 0
    ensures NodesOk(Inserted(n, i, val))
  {
    var t := Inserted(n, i, val);
    InsertedDistinct(n, i, val);
    forall y ensures y in t.data <==> y in t.busy || y in t.free { InsertedMember(n, i, val, y); }
    assert n.free[0] in n.free;
  }

  lemma InsertedDistinct<T>(n: Nodes<T>, i: nat, val: T)
    requires NodesOk(n) && i <= |n.busy| && |n.free| > 0
    ensures var t := Inserted(n, i, val); Distinct(t.busy) && Distinct(t.free) && Apart(t.busy, t.free)
  {
    var t := Inserted(n, i, val);
    forall k | 0 <= k < |t.busy| && k != i ensures t.busy[k] == n.busy[if k < i then k else k - 1] {}
    forall k | 0 <= k < |t.free| ensures t.free[k] == n.free[k + 1] {}
  }

  lemma InsertedMember<T>(n: Nodes<T>, i: nat, val: T, y: nat)
    requires NodesOk(n) && i <= |n.busy| && |n.free| > 0
    ensures var t := Inserted(n, i, val); y in t.data <==> y in t.busy || y in t.free
  {
    assert n.free == [n.free[0]] + n.free[1..];
    assert n.busy == n.busy[..i] + n.busy[i..];
    assert y in n.data <==> y in n.busy || y in n.free;
  }

  lemma ErasedOk<T>(n: Nodes<T>, i: nat)
    requires NodesOk(n) && i < |n.busy|
    ensures NodesOk(Erased(n, i))
    ensures forall k :: 0 <= k < |n.busy| ==> n.busy[k] in n.data
    ensures Contents(Erased(n, i)) == Contents(n)[..i] + Contents(n)[i + 1..]
  {
    ErasedNodes(n, i);
    BusyHasData(n);
    ErasedContents(n.busy, i, [n.busy[i]] + n.free, n.free, n.data);
  }

  lemma ErasedContents<T>(busy: seq<nat>, i: nat, free': seq<nat>, free: seq<nat>, data: map<nat, T>)
    requires i < |busy| && forall k :: 0 <= k < |busy| ==> busy[k] in data
    ensures forall k :: 0 <= k < |Without(busy, i)| ==> Without(busy, i)[k] in data
    ensures var c := Contents(Nodes(busy, free, data));
            Contents(Nodes(Without(busy, i), free', data)) == c[..i] + c[i + 1..]
  {
  }

  lemma ErasedNodes<T>(n: Nodes<T>, i: nat)
    requires NodesOk(n) && i < |n.busy|
    ensures NodesOk(Erased(n, i))
  {
    ErasedDistinct(n, i);
    forall y ensures y in n.data <==> y in Without(n.busy, i) || y in [n.busy[i]] + n.free { ErasedMember(n, i, y); }
  }

  lemma BusyHasData<T>(n: Nodes<T>)
    requires NodesOk(n)
    ensures forall k :: 0 <= k < |n.busy| ==> n.busy[k] in n.data
  {
    forall k | 0 <= k < |n.busy| ensures n.busy[k] in n.data { assert n.busy[k] in n.busy; }
  }

  lemma ErasedMember<T>(n: Nodes<T>, i: nat, y: nat)
    requires NodesOk(n) && i < |n.busy|
    ensures y in n.data <==> y in Without(n.busy, i) || y in [n.busy[i]] + n.free
  {
    assert n.busy == n.busy[..i] + [n.busy[i]] + n.busy[i + 1..];
    assert y in n.data <==> y in n.busy || y in n.free;
  }

  lemma ErasedDistinct<T>(n: Nodes<T>, i: nat)
    requires Distinct(n.busy) && Distinct(n.free) && Apart(n.busy, n.free) && i < |n.busy|
    ensures var t := Erased(n, i); Distinct(t.busy) && Distinct(t.free) && Apart(t.busy, t.free)
  {
    var t := Erased(n, i);
    forall k | 0 <= k < |t.busy| ensures t.busy[k] == n.busy[if k < i then k else k + 1] {}
    forall k | 0 < k < |t.free| ensures t.free[k] == n.free[k - 1] {}
  }

  /** Both chains together always hold the same nodes. */
  lemma NodesConserved<T>(n: Nodes<T>, i: nat, val: T)
    ensures i <= |n.busy| && |n.free| > 0 ==>
              multiset(Inserted(n, i, val).busy) + multiset(Inserted(n, i, val).free)
              == multiset(n.busy) + multiset(n.free)
    ensures i < |n.busy| ==>
              multiset(Erased(n, i).busy) + multiset(Erased(n, i).free) == multiset(n.busy) + multiset(n.free)
  {
    if i <= |n.busy| && |n.free| > 0 { TakenConserved(n.busy, n.free, i); }
    if i < |n.busy| { GivenConserved(n.busy, n.free, i); }
  }

  lemma TakenConserved(busy: seq<nat>, free: seq<nat>, i: nat)
    requires i <= |busy| && |free| > 0
    ensures multiset(With(busy, i, free[0])) + multiset(free[1..]) == multiset(busy) + multiset(free)
  {
    WithMultiset(busy, i, free[0]);
    assert free == [free[0]] + free[1..];
  }

  lemma GivenConserved(busy: seq<nat>, free: seq<nat>, i: nat)
    requires i < |busy|
    ensures multiset(Without(busy, i)) + multiset([busy[i]] + free) == multiset(busy) + multiset(free)
  {
    assert busy == busy[..i] + [busy[i]] + busy[i + 1..];
  }

  lemma WithMultiset(s: seq<nat>, i: nat, x: nat)
    requires i <= |s|
    ensures multiset(With(s, i, x)) == multiset(s) + multiset{x}
  {
    assert s == s[..i] + s[i..];
  }

  /** A node that stays in the list stays the same node with the same data. */
  lemma IdentityKept<T>(n: Nodes<T>, i: nat, k: nat)
    requires NodesOk(n) && i < |n.busy| && k < |n.busy| && k != i
    ensures var t := Erased(n, i);
            var k' := if k < i then k else k - 1;
            && t.busy[k'] == n.busy[k] && n.busy[k] in n.data && n.busy[k] in t.data
            && t.data[n.busy[k]] == n.data[n.busy[k]]
  {
    assert n.busy[k] in n.busy;
  }

  /** `clear`: every node goes to the front of the free chain. */
  function Cleared<T>(n: Nodes<T>): Nodes<T>
    decreases |n.busy|
  {
    if n.busy == [] then n else Cleared(Erased(n, 0))
  }

  function Reverse(s: seq<nat>): seq<nat> {
    if s == [] then [] else Reverse(s[1..]) + [s[0]]
  }

  lemma {:induction false} ClearedIs<T>(n: Nodes<T>)
    ensures Cleared(n) == Nodes([], Reverse(n.busy) + n.free, n.data)
    decreases |n.busy|
  {
    if n.busy != [] {
      ClearedIs(Erased(n, 0));
      assert Erased(n, 0).busy == n.busy[1..];
      assert Reverse(n.busy[1..]) + ([n.busy[0]] + n.free) == Reverse(n.busy) + n.free;
    }
  }

  // ---- sorted insertion ----------------------------------------------------------------------

  /** `less` orders values as `operator <` does: its negation is total and transitive. */
  ghost predicate Ordering<T(!new)>(less: (T, T) -> bool) {
    && (forall a, b :: less(a, b) ==> !less(b, a))
    && (forall a, b, c :: !less(a, b) && !less(b, c) ==> !less(a, c))
  }

  ghost predicate Sorted<T>(s: seq<T>, less: (T, T) -> bool) {
    forall i, j :: 0 <= i < j < |s| ==> !less(s[j], s[i])
  }

  /** `find_pos`: the first position whose value is not less than `val`. */
  function SortPos<T>(s: seq<T>, less: (T, T) -> bool, val: T): (i: nat)
    ensures i <= |s| && (forall k :: 0 <= k < i ==> less(s[k], val)) && (i < |s| ==> !less(s[i], val))
  {
    if s == [] || !less(s[0], val) then 0 else
      var i := 1 + SortPos(s[1..], less, val);
      assert forall k :: 0 < k < i ==> s[k] == s[1..][k - 1];
      i
  }

  lemma SortPosIs<T>(s: seq<T>, less: (T, T) -> bool, val: T, i: nat)
    requires i <= |s| && (forall k :: 0 <= k < i ==> less(s[k], val)) && (i < |s| ==> !less(s[i], val))
    ensures SortPos(s, less, val) == i
  {
  }

  lemma InsertedSorted<T(!new)>(s: seq<T>, less: (T, T) -> bool, val: T)
    requires Sorted(s, less) && Ordering(less)
    ensures var i := SortPos(s, less, val); Sorted(s[..i] + [val] + s[i..], less)
  {
    var i := SortPos(s, less, val);
    var t := s[..i] + [val] + s[i..];
    forall a, b | 0 <= a < b < |t| ensures !less(t[b], t[a]) {
      if a < i && b == i { assert less(s[a], val); }
      else if a == i && b > i {
        assert !less(s[i], val);
        assert b - 1 > i ==> !less(s[b - 1], s[i]);
      }
    }
  }

  /** `insert_sort` keeps a sorted list sorted. */
  lemma InsertSortSorted<T(!new)>(n: Nodes<T>, less: (T, T) -> bool, val: T)
    requires NodesOk(n) && |n.free| > 0 && Ordering(less)
    ensures forall k :: 0 <= k < |n.busy| ==> n.busy[k] in n.data
    ensures var t := Inserted(n, SortPos(Contents(n), less, val), val);
            NodesOk(t) && (Sorted(Contents(n), less) ==> Sorted(Contents(t), less))
  {
    BusyHasData(n);
    InsertedOk(n, SortPos(Contents(n), less, val), val);
    if Sorted(Contents(n), less) { InsertedSorted(Contents(n), less, val); }
  }

  // ---- chains --------------------------------------------------------------------------------

  /** A node at an address; address 0 is the null pointer. */
  datatype Item<T> = Item(prev: nat, next: nat, data: T)
  datatype Xlist = Xlist(begin: nat, last: nat, sz: nat)
  datatype Where = Next | Prev

  ghost predicate NodeOk<T>(m: map<nat, Item<T>>, s: seq<nat>, i: int)
    requires 0 <= i < |s|
  {
    && s[i] != 0 && s[i] in m
    && m[s[i]].prev == (if i == 0 then 0 else s[i - 1])
    && m[s[i]].next == (if i == |s| - 1 then 0 else s[i + 1])
  }

  /** The chain holds exactly the nodes `s`, linked both ways. */
  ghost predicate ChainOk<T>(m: map<nat, Item<T>>, x: Xlist, s: seq<nat>) {
    && x.sz == |s| && Distinct(s)
    && x.begin == (if s == [] then 0 else s[0])
    && x.last == (if s == [] then 0 else s[|s| - 1])
    && (forall i {:trigger NodeOk(m, s, i)} :: 0 <= i < |s| ==> NodeOk(m, s, i))
  }

  /** Only links of nodes in `s` may differ. */
  ghost predicate OnlyLinks<T>(m: map<nat, Item<T>>, m': map<nat, Item<T>>, s: seq<nat>) {
    && m'.Keys == m.Keys
    && (forall k {:trigger m'[k]} :: k in m ==> m'[k].data == m[k].data && (k !in s ==> m'[k] == m[k]))
  }

  lemma OtherChain<T>(m: map<nat, Item<T>>, m': map<nat, Item<T>>, s: seq<nat>, x: Xlist, t: seq<nat>)
    requires ChainOk(m, x, t) && OnlyLinks(m, m', s) && Apart(t, s)
    ensures ChainOk(m', x, t)
  {
    forall i | 0 <= i < |t| ensures NodeOk(m', t, i) {
      assert NodeOk(m, t, i);
      assert t[i] !in s;
    }
  }

  /** The links after `Xlist::remove`. */
  function Unlinked<T>(m: map<nat, Item<T>>, item: nat): map<nat, Item<T>>
    requires item in m
  {
    var it := m[item];
    var m1 := if it.next != 0 && it.next in m then m[it.next := m[it.next].(prev := it.prev)] else m;
    if it.prev != 0 && it.prev in m1 then m1[it.prev := m1[it.prev].(next := it.next)] else m1
  }

  function Shrunk<T>(m: map<nat, Item<T>>, x: Xlist, item: nat): Xlist
    requires item in m && x.sz > 0
  {
    Xlist(if item == x.begin then m[item].next else x.begin, if item == x.last then m[item].prev else x.last, x.sz - 1)
  }

  lemma UnlinkOk<T>(m: map<nat, Item<T>>, x: Xlist, s: seq<nat>, i: nat)
    requires ChainOk(m, x, s) && i < |s|
    ensures s[i] in m && ChainOk(Unlinked(m, s[i]), Shrunk(m, x, s[i]), Without(s, i))
    ensures OnlyLinks(m, Unlinked(m, s[i]), s)
  {
    LinkedIn(m, x, s, i);
    assert NodeOk(m, s, i);
    forall k | 0 <= k < |Without(s, i)| ensures NodeOk(Unlinked(m, s[i]), Without(s, i), k) {
      UnlinkNode(m, x, s, i, k);
    }
  }

  lemma UnlinkNode<T>(m: map<nat, Item<T>>, x: Xlist, s: seq<nat>, i: nat, k: nat)
    requires ChainOk(m, x, s) && i < |s| && k < |s| - 1
    ensures s[i] in m && NodeOk(Unlinked(m, s[i]), Without(s, i), k)
  {
    assert NodeOk(m, s, i);
    assert i > 0 ==> NodeOk(m, s, i - 1);
    assert i < |s| - 1 ==> NodeOk(m, s, i + 1);
    assert k < i ==> NodeOk(m, s, k);
    assert k >= i ==> NodeOk(m, s, k + 1);
  }

  /** The links after `Xlist::add`. */
  function Linked<T>(m: map<nat, Item<T>>, x: Xlist, pos: nat, where: Where, item: nat): map<nat, Item<T>>
    requires item in m && (x.sz > 0 ==> pos in m)
  {
    if x.sz == 0 then m[item := m[item].(prev := 0, next := 0)]
    else if where == Next then
      var next := m[pos].next;
      var m1 := if next != 0 && next in m then m[next := m[next].(prev := item)] else m;
      m1[item := m1[item].(next := next, prev := pos)][pos := m1[pos].(next := item)]
    else
      var prev := m[pos].prev;
      var m1 := if prev != 0 && prev in m then m[prev := m[prev].(next := item)] else m;
      m1[item := m1[item].(prev := prev, next := pos)][pos := m1[pos].(prev := item)]
  }

  function Grown(x: Xlist, pos: nat, where: Where, item: nat): Xlist {
    if x.sz == 0 then Xlist(item, item, 1)
    else if where == Next then Xlist(x.begin, if pos == x.last then item else x.last, x.sz + 1)
    else Xlist(if pos == x.begin then item else x.begin, x.last, x.sz + 1)
  }

  lemma WithDistinct(s: seq<nat>, p: nat, item: nat)
    requires Distinct(s) && p <= |s| && item !in s
    ensures Distinct(With(s, p, item))
  {
  }

  /** Linking after node `i`. */
  lemma LinkNextOk<T>(m: map<nat, Item<T>>, x: Xlist, s: seq<nat>, i: nat, item: nat)
    requires ChainOk(m, x, s) && i < |s| && item in m && item != 0 && item !in s
    ensures s[i] in m
    ensures ChainOk(Linked(m, x, s[i], Next, item), Grown(x, s[i], Next, item), With(s, i + 1, item))
    ensures OnlyLinks(m, Linked(m, x, s[i], Next, item), s + [item])
  {
    assert NodeOk(m, s, i);
    WithDistinct(s, i + 1, item);
    var t := With(s, i + 1, item);
    var m' := Linked(m, x, s[i], Next, item);
    forall k | 0 <= k < |t| ensures NodeOk(m', t, k) { LinkNextNode(m, x, s, i, item, k); }
    assert i < |s| - 1 ==> NodeOk(m, s, i + 1);
  }

  lemma LinkNextNode<T>(m: map<nat, Item<T>>, x: Xlist, s: seq<nat>, i: nat, item: nat, k: nat)
    requires ChainOk(m, x, s) && i < |s| && item in m && item != 0 && item !in s && k <= |s|
    ensures s[i] in m && NodeOk(Linked(m, x, s[i], Next, item), With(s, i + 1, item), k)
  {
    assert NodeOk(m, s, i);
    assert i < |s| - 1 ==> NodeOk(m, s, i + 1);
    assert k < i + 1 ==> NodeOk(m, s, k);
    assert k > i + 1 ==> NodeOk(m, s, k - 1);
  }

  /** Linking before node `i`. */
  lemma LinkPrevOk<T>(m: map<nat, Item<T>>, x: Xlist, s: seq<nat>, i: nat, item: nat)
    requires ChainOk(m, x, s) && i < |s| && item in m && item != 0 && item !in s
    ensures s[i] in m
    ensures ChainOk(Linked(m, x, s[i], Prev, item), Grown(x, s[i], Prev, item), With(s, i, item))
    ensures OnlyLinks(m, Linked(m, x, s[i], Prev, item), s + [item])
  {
    assert NodeOk(m, s, i);
    WithDistinct(s, i, item);
    var t := With(s, i, item);
    var m' := Linked(m, x, s[i], Prev, item);
    forall k | 0 <= k < |t| ensures NodeOk(m', t, k) { LinkPrevNode(m, x, s, i, item, k); }
    assert i > 0 ==> NodeOk(m, s, i - 1);
  }

  lemma LinkPrevNode<T>(m: map<nat, Item<T>>, x: Xlist, s: seq<nat>, i: nat, item: nat, k: nat)
    requires ChainOk(m, x, s) && i < |s| && item in m && item != 0 && item !in s && k <= |s|
    ensures s[i] in m && NodeOk(Linked(m, x, s[i], Prev, item), With(s, i, item), k)
  {
    assert NodeOk(m, s, i);
    assert i > 0 ==> NodeOk(m, s, i - 1);
    assert k < i ==> NodeOk(m, s, k);
    assert k > i ==> NodeOk(m, s, k - 1);
  }

  lemma LinkFirstOk<T>(m: map<nat, Item<T>>, x: Xlist, pos: nat, where: Where, item: nat)
    requires ChainOk(m, x, []) && item in m && item != 0
    ensures ChainOk(Linked(m, x, pos, where, item), Grown(x, pos, where, item), With([], 0, item))
    ensures OnlyLinks(m, Linked(m, x, pos, where, item), [item])
  {
    assert With([], 0, item) == [item];
    assert NodeOk(Linked(m, x, pos, where, item), [item], 0);
  }

  // ---- both chains over one pool -------------------------------------------------------------

  ghost predicate Keeps<T>(m: map<nat, Item<T>>, n: Nodes<T>) {
    m.Keys == n.data.Keys && forall x {:trigger m[x]} {:trigger n.data[x]} :: x in m ==> m[x].data == n.data[x]
  }

  /** The chains in memory hold exactly the nodes of `n`, with its data. */
  ghost predicate PoolOk<T>(m: map<nat, Item<T>>, busy: Xlist, free: Xlist, n: Nodes<T>) {
    && ChainOk(m, busy, n.busy) && ChainOk(m, free, n.free) && Apart(n.busy, n.free) && Keeps(m, n)
    && (forall x {:trigger x in m} :: x in m <==> x in n.busy || x in n.free)
  }

  /** The same, but node `item` is in neither chain. */
  ghost predicate LooseOk<T>(m: map<nat, Item<T>>, busy: Xlist, free: Xlist, n: Nodes<T>, item: nat) {
    && ChainOk(m, busy, n.busy) && ChainOk(m, free, n.free) && Apart(n.busy, n.free) && Keeps(m, n)
    && item != 0 && item in m && item !in n.busy && item !in n.free
    && (forall x {:trigger x in m} :: x in m <==> x in n.busy || x in n.free || x == item)
  }

  lemma PoolNodesOk<T>(m: map<nat, Item<T>>, busy: Xlist, free: Xlist, n: Nodes<T>)
    requires PoolOk(m, busy, free, n)
    ensures NodesOk(n)
  {
    forall x ensures x in n.data <==> x in n.busy || x in n.free { assert x in m <==> x in n.data; }
    ChainNotNull(m, busy, n.busy);
    ChainNotNull(m, free, n.free);
    assert 0 in m <==> 0 in n.data;
  }

  lemma ChainNotNull<T>(m: map<nat, Item<T>>, x: Xlist, s: seq<nat>)
    requires ChainOk(m, x, s)
    ensures 0 !in s
  {
    forall i | 0 <= i < |s| ensures s[i] != 0 { assert NodeOk(m, s, i); }
  }

  lemma LinksKeep<T>(m: map<nat, Item<T>>, m': map<nat, Item<T>>, s: seq<nat>, n: Nodes<T>)
    requires Keeps(m, n) && OnlyLinks(m, m', s)
    ensures Keeps(m', n)
  {
  }

  lemma WithoutMembers(s: seq<nat>, i: nat)
    requires Distinct(s) && i < |s|
    ensures forall x :: x in s <==> x in Without(s, i) || x == s[i]
    ensures s[i] !in Without(s, i)
  {
    assert s == s[..i] + [s[i]] + s[i + 1..];
    forall k | 0 <= k < |Without(s, i)| ensures Without(s, i)[k] == s[if k < i then k else k + 1] {}
  }

  lemma WithMembers(s: seq<nat>, i: nat, item: nat)
    requires i <= |s|
    ensures forall x :: x in With(s, i, item) <==> x in s || x == item
  {
    assert s == s[..i] + s[i..];
  }

  lemma ApartMembers(s: seq<nat>, t: seq<nat>)
    ensures Apart(s, t) <==> forall x {:trigger x in s} {:trigger x in t} :: !(x in s && x in t)
  {
    if !Apart(s, t) {
      var i, j :| 0 <= i < |s| && 0 <= j < |t| && s[i] == t[j];
      assert s[i] in s && s[i] in t;
    }
  }

  /** A node leaves the busy chain. */
  lemma LoosenBusy<T>(m: map<nat, Item<T>>, busy: Xlist, free: Xlist, n: Nodes<T>, i: nat)
    requires PoolOk(m, busy, free, n) && i < |n.busy|
    ensures n.busy[i] in m
    ensures LooseOk(Unlinked(m, n.busy[i]), Shrunk(m, busy, n.busy[i]), free, n.(busy := Without(n.busy, i)), n.busy[i])
  {
    UnlinkOk(m, busy, n.busy, i);
    var m' := Unlinked(m, n.busy[i]);
    LinksKeep(m, m', n.busy, n);
    ApartMembers(n.free, n.busy);
    ApartMembers(n.busy, n.free);
    OtherChain(m, m', n.busy, free, n.free);
    WithoutMembers(n.busy, i);
    ApartMembers(Without(n.busy, i), n.free);
    assert NodeOk(m, n.busy, i);
  }

  /** The first node leaves the free chain. */
  lemma LoosenFree<T>(m: map<nat, Item<T>>, busy: Xlist, free: Xlist, n: Nodes<T>)
    requires PoolOk(m, busy, free, n) && |n.free| > 0
    ensures n.free[0] in m && free.begin == n.free[0]
    ensures LooseOk(Unlinked(m, n.free[0]), busy, Shrunk(m, free, n.free[0]), n.(free := Without(n.free, 0)), n.free[0])
  {
    UnlinkOk(m, free, n.free, 0);
    var m' := Unlinked(m, n.free[0]);
    LinksKeep(m, m', n.free, n);
    ApartMembers(n.busy, n.free);
    OtherChain(m, m', n.free, busy, n.busy);
    WithoutMembers(n.free, 0);
    ApartMembers(n.busy, Without(n.free, 0));
    assert NodeOk(m, n.free, 0);
  }

  lemma LoosenFirst<T>(m: map<nat, Item<T>>, busy: Xlist, free: Xlist, n: Nodes<T>)
    requires PoolOk(m, busy, free, n) && |n.free| > 0
    ensures n.free[0] in m && free.begin == n.free[0]
    ensures LooseOk(Unlinked(m, n.free[0]), busy, Shrunk(m, free, n.free[0]), n.(free := n.free[1..]), n.free[0])
  {
    LoosenFree(m, busy, free, n);
    assert Without(n.free, 0) == n.free[1..];
  }

  /** Position `pos`, side `where`, is the place before node `i` of the chain. */
  ghost predicate PlaceIs(s: seq<nat>, pos: nat, where: Where, i: nat) {
    && i <= |s|
    && (s != [] && where == Next ==> i > 0 && pos == s[i - 1])
    && (s != [] && where == Prev ==> i < |s| && pos == s[i])
  }

  lemma LinkAt<T>(m: map<nat, Item<T>>, x: Xlist, s: seq<nat>, pos: nat, where: Where, i: nat, item: nat)
    requires ChainOk(m, x, s) && PlaceIs(s, pos, where, i) && item in m && item != 0 && item !in s
    ensures x.sz > 0 ==> pos in m && pos != item
    ensures ChainOk(Linked(m, x, pos, where, item), Grown(x, pos, where, item), With(s, i, item))
    ensures OnlyLinks(m, Linked(m, x, pos, where, item), s + [item])
  {
    if s == [] { LinkFirstOk(m, x, pos, where, item); }
    else if where == Next { LinkNextOk(m, x, s, i - 1, item); }
    else { LinkPrevOk(m, x, s, i, item); }
  }

  /** A loose node enters the busy chain. */
  lemma TieBusy<T>(m: map<nat, Item<T>>, busy: Xlist, free: Xlist, n: Nodes<T>, item: nat, pos: nat, where: Where,
                   i: nat)
    requires LooseOk(m, busy, free, n, item) && PlaceIs(n.busy, pos, where, i)
    ensures busy.sz > 0 ==> pos in m && pos != item
    ensures PoolOk(Linked(m, busy, pos, where, item), Grown(busy, pos, where, item), free,
                   n.(busy := With(n.busy, i, item)))
  {
    LinkAt(m, busy, n.busy, pos, where, i, item);
    var m' := Linked(m, busy, pos, where, item);
    LinksKeep(m, m', n.busy + [item], n);
    ApartMembers(n.busy, n.free);
    ApartMembers(n.free, n.busy + [item]);
    OtherChain(m, m', n.busy + [item], free, n.free);
    WithMembers(n.busy, i, item);
    ApartMembers(With(n.busy, i, item), n.free);
  }

  /** A loose node enters the free chain. */
  lemma TieFree<T>(m: map<nat, Item<T>>, busy: Xlist, free: Xlist, n: Nodes<T>, item: nat, pos: nat, where: Where,
                   i: nat)
    requires LooseOk(m, busy, free, n, item) && PlaceIs(n.free, pos, where, i)
    ensures free.sz > 0 ==> pos in m && pos != item
    ensures PoolOk(Linked(m, free, pos, where, item), busy, Grown(free, pos, where, item),
                   n.(free := With(n.free, i, item)))
  {
    LinkAt(m, free, n.free, pos, where, i, item);
    var m' := Linked(m, free, pos, where, item);
    LinksKeep(m, m', n.free + [item], n);
    ApartMembers(n.busy, n.free);
    ApartMembers(n.busy, n.free + [item]);
    OtherChain(m, m', n.free + [item], busy, n.busy);
    WithMembers(n.free, i, item);
    ApartMembers(n.busy, With(n.free, i, item));
  }

  /** Writing the data of a node leaves the links alone. */
  lemma StoreOk<T>(m: map<nat, Item<T>>, busy: Xlist, free: Xlist, n: Nodes<T>, item: nat, val: T)
    requires PoolOk(m, busy, free, n) && item in m
    ensures PoolOk(m[item := m[item].(data := val)], busy, free, n.(data := n.data[item := val]))
  {
    DataOnly(m, m[item := m[item].(data := val)], busy, n.busy);
    DataOnly(m, m[item := m[item].(data := val)], free, n.free);
  }

  lemma DataOnly<T>(m: map<nat, Item<T>>, m': map<nat, Item<T>>, x: Xlist, s: seq<nat>)
    requires ChainOk(m, x, s)
    requires m'.Keys == m.Keys
    requires forall k {:trigger m'[k]} :: k in m ==> m'[k].prev == m[k].prev && m'[k].next == m[k].next
    ensures ChainOk(m', x, s)
  {
    forall i | 0 <= i < |s| ensures NodeOk(m', s, i) { assert NodeOk(m, s, i); }
  }

  /** New memory: one more node, in neither chain yet. */
  lemma NewNode<T>(m: map<nat, Item<T>>, busy: Xlist, free: Xlist, n: Nodes<T>, item: nat, val: T)
    requires PoolOk(m, busy, free, n) && item !in m && item != 0
    ensures LooseOk(m[item := Item(0, 0, val)], busy, free, n.(data := n.data[item := val]), item)
  {
    var m' := m[item := Item(0, 0, val)];
    Extended(m, m', busy, n.busy);
    Extended(m, m', free, n.free);
  }

  lemma Extended<T>(m: map<nat, Item<T>>, m': map<nat, Item<T>>, x: Xlist, s: seq<nat>)
    requires ChainOk(m, x, s) && forall k :: k in m ==> k in m' && m'[k] == m[k]
    ensures ChainOk(m', x, s)
  {
    forall i | 0 <= i < |s| ensures NodeOk(m', s, i) { assert NodeOk(m, s, i); }
  }

  // ---- the list in memory --------------------------------------------------------------------

  class List<T> {
    var items: map<nat, Item<T>>
    var busy: Xlist
    var free: Xlist
    /** `Item_size`. */
    const itemSize: nat
    /** What the chains hold. */
    ghost var nodes: Nodes<T>

    ghost predicate Valid()
      reads this
    {
      itemSize > 0 && PoolOk(items, busy, free, nodes)
    }

    /** Memory that the list does not have yet, for one node at least. */
    ghost predicate Usable(chunk: Chunk)
      reads this
    {
      && chunk.Chunk? && chunk.base > 0 && chunk.sz >= itemSize
      && (forall x {:trigger x in items} :: chunk.base <= x < chunk.base + chunk.sz ==> x !in items)
    }

    constructor (itemSize: nat)
      requires itemSize > 0
      ensures Valid() && nodes == Nodes([], [], map[]) && this.itemSize == itemSize
    {
      this.itemSize := itemSize;
      items := map[];
      busy, free := Xlist(0, 0, 0), Xlist(0, 0, 0);
      nodes := Nodes([], [], map[]);
    }

    /** `Xlist::remove`, the links: `item` leaves its chain. */
    method Unlink(item: nat)
      requires item in items
      requires items[item].next != 0 ==> items[item].next in items
      requires items[item].prev != 0 ==> items[item].prev in items
      modifies this`items
      ensures items == Unlinked(old(items), item)
    {
      var it := items[item];
      if it.next != 0 {
        items := items[it.next := items[it.next].(prev := it.prev)];
      }
      if it.prev != 0 {
        items := items[it.prev := items[it.prev].(next := it.next)];
      }
    }

    /** `Xlist::add`, the links: `item` enters chain `x` beside `pos`. */
    method Link(x: Xlist, pos: nat, where: Where, item: nat)
      requires item in items && (x.sz > 0 ==> pos in items && pos != item)
      requires x.sz > 0 && where == Next && items[pos].next != 0 ==>
                items[pos].next in items && items[pos].next !in {pos, item}
      requires x.sz > 0 && where == Prev && items[pos].prev != 0 ==>
                items[pos].prev in items && items[pos].prev !in {pos, item}
      modifies this`items
      ensures items == Linked(old(items), x, pos, where, item)
    {
      if x.sz == 0 {
        items := items[item := items[item].(prev := 0, next := 0)];
      } else if where == Next {
        var next := items[pos].next;
        if next != 0 {
          items := items[next := items[next].(prev := item)];
        }
        items := items[item := items[item].(next := next)];
        items := items[pos := items[pos].(next := item)];
        items := items[item := items[item].(prev := pos)];
      } else {
        var prev := items[pos].prev;
        if prev != 0 {
          items := items[prev := items[prev].(next := item)];
        }
        items := items[item := items[item].(prev := prev)];
        items := items[pos := items[pos].(prev := item)];
        items := items[item := items[item].(next := pos)];
      }
    }

    method TakeFree() returns (item: nat)
      requires Valid() && |nodes.free| > 0
      modifies this
      ensures nodes == old(nodes).(free := old(nodes).free[1..]) && item == old(nodes).free[0]
      ensures LooseOk(items, busy, free, nodes, item)
    {
      LoosenFirst(items, busy, free, nodes);
      item := free.begin;
      LinkedIn(items, free, nodes.free, 0);
      free := Shrunk(items, free, item);
      Unlink(item);
      nodes := nodes.(free := nodes.free[1..]);
    }

    method PutBusy(pos: nat, where: Where, item: nat, val: T, ghost i: nat)
      requires itemSize > 0 && LooseOk(items, busy, free, nodes, item) && PlaceIs(nodes.busy, pos, where, i)
      modifies this
      ensures Valid() && nodes == Nodes(With(old(nodes).busy, i, item), old(nodes).free, old(nodes).data[item := val])
    {
      TieBusy(items, busy, free, nodes, item, pos, where, i);
      if busy.sz > 0 { PlaceLinks(items, busy, nodes.busy, pos, where, i, item); }
      Link(busy, pos, where, item);
      busy := Grown(busy, pos, where, item);
      nodes := nodes.(busy := With(nodes.busy, i, item));
      StoreOk(items, busy, free, nodes, item, val);
      items := items[item := items[item].(data := val)];
      nodes := nodes.(data := nodes.data[item := val]);
    }

    /** `check_for_alloc`. A list without a free node and without an allocator panics. */
    method CheckForAlloc(chunk: Chunk, val: T)
      requires Valid() && (nodes.free != [] || Usable(chunk))
      modifies this
      ensures Valid() && nodes == Supplied(old(nodes), chunk, itemSize, val)
      ensures nodes.busy == old(nodes).busy && nodes.free != []
    {
      if free.sz == 0 {
        StockedIs(nodes, Cut(chunk.base, chunk.sz, itemSize), val);
        AddMem(chunk.base, chunk.sz, val);
      }
    }

    /** `push_back`. */
    method PushBack(val: T, chunk: Chunk)
      requires Valid() && (nodes.free != [] || Usable(chunk))
      modifies this
      ensures Valid() && Supplied(old(nodes), chunk, itemSize, val).free != []
      ensures nodes == Pushed(Supplied(old(nodes), chunk, itemSize, val), val)
    {
      CheckForAlloc(chunk, val);
      var item := TakeFree();
      PutBusy(busy.last, Next, item, val, |nodes.busy|);
    }

    /** `insert_before`: a new node before node `pos`, which is node number `i`. */
    method InsertBefore(pos: nat, val: T, chunk: Chunk, ghost i: nat) returns (item: nat)
      requires Valid() && (nodes.free != [] || Usable(chunk)) && PlaceIs(nodes.busy, pos, Prev, i)
      modifies this
      ensures Valid() && Supplied(old(nodes), chunk, itemSize, val).free != []
      ensures i <= |Supplied(old(nodes), chunk, itemSize, val).busy|
      ensures nodes == Inserted(Supplied(old(nodes), chunk, itemSize, val), i, val) && item == nodes.busy[i]
    {
      CheckForAlloc(chunk, val);
      item := TakeFree();
      PutBusy(pos, Prev, item, val, i);
    }

    /** `insert_after`. */
    method InsertAfter(pos: nat, val: T, chunk: Chunk, ghost i: nat) returns (item: nat)
      requires Valid() && (nodes.free != [] || Usable(chunk)) && PlaceIs(nodes.busy, pos, Next, i)
      modifies this
      ensures Valid() && Supplied(old(nodes), chunk, itemSize, val).free != []
      ensures i <= |Supplied(old(nodes), chunk, itemSize, val).busy|
      ensures nodes == Inserted(Supplied(old(nodes), chunk, itemSize, val), i, val) && item == nodes.busy[i]
    {
      CheckForAlloc(chunk, val);
      item := TakeFree();
      PutBusy(pos, Next, item, val, i);
    }

    /** `find_pos`: the first node whose value is not less than `val`. */
    method FindPos(val: T, less: (T, T) -> bool) returns (pos: nat)
      requires Valid()
      ensures forall k :: 0 <= k < |nodes.busy| ==> nodes.busy[k] in nodes.data
      ensures var i := SortPos(Contents(nodes), less, val);
              if i < |nodes.busy| then pos == nodes.busy[i] != 0 else pos == 0
    {
      PoolNodesOk(items, busy, free, nodes);
      BusyHasData(nodes);
      ghost var i := 0;
      pos := busy.begin;
      while pos != 0
        invariant i <= |nodes.busy| && pos == if i < |nodes.busy| then nodes.busy[i] else 0
        invariant forall k :: 0 <= k < i ==> less(Contents(nodes)[k], val)
        decreases |nodes.busy| - i
      {
        assert NodeOk(items, nodes.busy, i);
        if !less(items[pos].data, val) {
          break;
        }
        pos := items[pos].next;
        i := i + 1;
      }
      assert i < |nodes.busy| ==> NodeOk(items, nodes.busy, i);
      SortPosIs(Contents(nodes), less, val, i);
    }

    /** `insert_sort`: before the first value that is not less; a sorted list stays sorted. */
    method InsertSort(val: T, less: (T, T) -> bool, chunk: Chunk) returns (item: nat)
      requires Valid() && (nodes.free != [] || Usable(chunk))
      modifies this
      ensures var n := Supplied(old(nodes), chunk, itemSize, val);
              && n.free != [] && (forall k :: 0 <= k < |n.busy| ==> n.busy[k] in n.data)
              && nodes == Inserted(n, SortPos(Contents(n), less, val), val)
              && item == nodes.busy[SortPos(Contents(n), less, val)]
      ensures Valid()
    {
      CheckForAlloc(chunk, val);
      var pos := FindPos(val, less);
      ghost var i := SortPos(Contents(nodes), less, val);
      item := TakeFree();
      if pos == 0 {
        pos := busy.last;
        PutBusy(pos, Next, item, val, i);
      } else {
        PutBusy(pos, Prev, item, val, i);
      }
    }

    method DropBusy(pos: nat, ghost i: nat) returns (next: nat)
      requires Valid() && i < |nodes.busy| && pos == nodes.busy[i]
      modifies this
      ensures nodes == old(nodes).(busy := Without(old(nodes).busy, i)) && LooseOk(items, busy, free, nodes, pos)
      ensures next == if i + 1 < |old(nodes).busy| then old(nodes).busy[i + 1] else 0
    {
      LoosenBusy(items, busy, free, nodes, i);
      LinkedIn(items, busy, nodes.busy, i);
      ghost var rest := nodes.(busy := Without(nodes.busy, i));
      next := items[pos].next;
      busy := Shrunk(items, busy, pos);
      Unlink(pos);
      nodes := rest;
    }

    method PutFree(pos: nat, where: Where, item: nat, ghost i: nat)
      requires itemSize > 0 && LooseOk(items, busy, free, nodes, item) && PlaceIs(nodes.free, pos, where, i)
      modifies this
      ensures Valid() && nodes == old(nodes).(free := With(old(nodes).free, i, item)) && items.Keys == old(items).Keys
    {
      TieFree(items, busy, free, nodes, item, pos, where, i);
      if free.sz > 0 { PlaceLinks(items, free, nodes.free, pos, where, i, item); }
      Link(free, pos, where, item);
      free := Grown(free, pos, where, item);
      nodes := nodes.(free := With(nodes.free, i, item));
    }

    /** `erase`: returns the node that followed. */
    method Erase(pos: nat, ghost i: nat) returns (next: nat)
      requires Valid() && i < |nodes.busy| && pos == nodes.busy[i]
      modifies this
      ensures Valid() && nodes == Erased(old(nodes), i)
      ensures next == if i < |nodes.busy| then nodes.busy[i] else 0
    {
      NextOfDropped(nodes.busy, i);
      next := DropBusy(pos, i);
      assert With(nodes.free, 0, pos) == [pos] + nodes.free;
      PutFree(free.begin, Prev, pos, 0);
    }

    /** `clear`. */
    method Clear()
      requires Valid()
      modifies this
      ensures Valid() && nodes == Nodes([], Reverse(old(nodes).busy) + old(nodes).free, old(nodes).data)
    {
      var it := busy.begin;
      FirstNotNull(items, busy, nodes.busy);
      while it != 0
        invariant Valid() && it == (if nodes.busy == [] then 0 else nodes.busy[0]) && (it == 0 <==> nodes.busy == [])
        invariant Cleared(nodes) == Cleared(old(nodes))
        decreases |nodes.busy|
      {
        it := Erase(it, 0);
        FirstNotNull(items, busy, nodes.busy);
      }
      ClearedIs(old(nodes));
    }

    /** One node of `add_mem`: new memory goes to the end of the free chain. */
    method AddItem(item: nat, val: T)
      requires Valid() && item != 0 && item !in items
      modifies this
      ensures Valid() && nodes == Nodes(old(nodes).busy, old(nodes).free + [item], old(nodes).data[item := val])
      ensures items.Keys == old(items).Keys + {item}
    {
      NewNode(items, busy, free, nodes, item, val);
      items := items[item := Item(0, 0, val)];
      nodes := nodes.(data := nodes.data[item := val]);
      assert With(nodes.free, |nodes.free|, item) == nodes.free + [item];
      PutFree(free.last, Next, item, |nodes.free|);
    }

    /** `add_mem`: cuts `sz` bytes at `base` into nodes. */
    method AddMem(base: nat, sz: nat, val: T)
      requires Valid() && base > 0
      requires forall x {:trigger x in items} :: base <= x < base + sz ==> x !in items
      modifies this
      ensures Valid() && nodes == Stocked(old(nodes), Cut(base, sz, itemSize), val)
    {
      var addr: nat, rest: nat := base, sz;
      while rest >= itemSize
        invariant Valid() && addr + rest == base + sz && addr >= base
        invariant forall x {:trigger x in items} :: addr <= x < base + sz ==> x !in items
        invariant Stocked(nodes, Cut(addr, rest, itemSize), val) == Stocked(old(nodes), Cut(base, sz, itemSize), val)
        decreases rest
      {
        CutStep(addr, rest, itemSize);
        AddItem(addr, val);
        addr, rest := addr + itemSize, rest - itemSize;
      }
    }
  }

  lemma CutStep(base: nat, sz: nat, itemSize: nat)
    requires 0 < itemSize <= sz
    ensures Cut(base, sz, itemSize) != [] && Cut(base, sz, itemSize)[0] == base
    ensures Cut(base, sz, itemSize)[1..] == Cut(base + itemSize, sz - itemSize, itemSize)
  {
  }

  /** The addresses of the nodes that fit into a piece of memory. */
  function Cut(base: nat, sz: nat, itemSize: nat): seq<nat>
    requires itemSize > 0
    decreases sz
  {
    if sz < itemSize then [] else [base] + Cut(base + itemSize, sz - itemSize, itemSize)
  }

  lemma LinkedIn<T>(m: map<nat, Item<T>>, x: Xlist, s: seq<nat>, i: nat)
    requires ChainOk(m, x, s) && i < |s|
    ensures s[i] in m && m[s[i]].next == (if i + 1 < |s| then s[i + 1] else 0)
    ensures m[s[i]].next != 0 ==> m[s[i]].next in m
    ensures m[s[i]].prev != 0 ==> m[s[i]].prev in m
  {
    assert NodeOk(m, s, i);
    assert i > 0 ==> NodeOk(m, s, i - 1);
    assert i + 1 < |s| ==> NodeOk(m, s, i + 1);
  }

  lemma NextOfDropped(s: seq<nat>, i: nat)
    requires i < |s|
    ensures (if i + 1 < |s| then s[i + 1] else 0) == if i < |Without(s, i)| then Without(s, i)[i] else 0
  {
  }

  lemma FirstNotNull<T>(m: map<nat, Item<T>>, x: Xlist, s: seq<nat>)
    requires ChainOk(m, x, s)
    ensures x.begin == 0 <==> s == []
  {
    assert s != [] ==> NodeOk(m, s, 0);
  }

  lemma PlaceLinks<T>(m: map<nat, Item<T>>, x: Xlist, s: seq<nat>, pos: nat, where: Where, i: nat, item: nat)
    requires ChainOk(m, x, s) && PlaceIs(s, pos, where, i) && item !in s && x.sz > 0
    ensures pos in m && pos != item
    ensures where == Next && m[pos].next != 0 ==> m[pos].next in m && m[pos].next !in {pos, item}
    ensures where == Prev && m[pos].prev != 0 ==> m[pos].prev in m && m[pos].prev !in {pos, item}
  {
    var k := if where == Next then i - 1 else i;
    assert NodeOk(m, s, k);
    assert k > 0 ==> NodeOk(m, s, k - 1);
    assert k + 1 < |s| ==> NodeOk(m, s, k + 1);
  }
}
