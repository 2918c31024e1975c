/**
 The free lists of memory_pool.h: one doubly linked list per size class, threaded through
 the block links of the in-band descriptors.
 */
module BuddyLists {

  const SIZES: nat := 27

  datatype Links = Links(bprev: nat, bnext: nat)
  type LinkMemory = map<nat, Links>

  /** The block links in memory and the list heads; zero is the null pointer. */
  datatype FreeLists = FreeLists(lnk: LinkMemory, heads: seq<nat>)

  ghost predicate NodeOk(m: LinkMemory, s: seq<nat>, i: int)
    requires 0 <= i < |s|
  {
    && s[i] in m && s[i] != 0
    && m[s[i]].bprev == (if i == 0 then 0 else s[i - 1])
    && m[s[i]].bnext == (if i == |s| - 1 then 0 else s[i + 1])
  }

  ghost predicate Distinct(s: seq<nat>) {
    forall i, j :: 0 <= i < j < |s| ==> s[i] != s[j]
  }

  /** `s` is the doubly linked block list that starts at `head`. */
  ghost predicate ListOk(m: LinkMemory, head: nat, s: seq<nat>) {
    && head == (if s == [] then 0 else s[0])
    && (forall i {:trigger NodeOk(m, s, i)} :: 0 <= i < |s| ==> NodeOk(m, s, i))
    && Distinct(s)
  }

  ghost predicate Disjoint(lists: seq<seq<nat>>) {
    forall j, k, x :: 0 <= j < |lists| && 0 <= k < |lists| && x in lists[j] && x in lists[k] ==> j == k
  }

  ghost predicate ListsOk(f: FreeLists, lists: seq<seq<nat>>) {
    && |f.heads| == |lists| == SIZES
    && (forall k {:trigger lists[k]} :: 0 <= k < SIZES ==> ListOk(f.lnk, f.heads[k], lists[k]))
    && Disjoint(lists)
  }

  ghost predicate Unlisted(lists: seq<seq<nat>>, x: nat) {
    forall k :: 0 <= k < |lists| ==> x !in lists[k]
  }

  // ---- the two link operations ---------------------------------------------------------------

  /** `add_block`: `d` becomes the head of list `k`. It relies on null links in `d`. */
  function Push(f: FreeLists, k: nat, d: nat): FreeLists
    requires k < |f.heads| && d in f.lnk && (f.heads[k] == 0 || f.heads[k] in f.lnk)
  {
    var h := f.heads[k];
    if h == 0 then f.(heads := f.heads[k := d])
    else
      var l := f.lnk[d := f.lnk[d].(bnext := h)];
      FreeLists(l[h := l[h].(bprev := d)], f.heads[k := d])
  }

  predicate Linked(m: LinkMemory, d: nat) {
    d in m && (m[d].bprev == 0 || m[d].bprev in m) && (m[d].bnext == 0 || m[d].bnext in m)
  }

  /** `remove_block`: `d` leaves list `k` and its links become null. */
  function Pull(f: FreeLists, k: nat, d: nat): FreeLists
    requires k < |f.heads| && Linked(f.lnk, d) && (f.lnk[d].bprev != 0 || f.heads[k] in f.lnk)
  {
    var p, n := f.lnk[d].bprev, f.lnk[d].bnext;
    var l := if p != 0 then f.lnk[p := f.lnk[p].(bnext := n)] else f.lnk;
    var h := if p != 0 then f.heads else f.heads[k := f.lnk[f.heads[k]].bnext];
    var l' := if n != 0 then l[n := l[n].(bprev := p)] else l;
    FreeLists(l'[d := Links(0, 0)], h)
  }

  // ---- what they do to the lists -------------------------------------------------------------

  function PushOf(lists: seq<seq<nat>>, k: nat, d: nat): seq<seq<nat>>
    requires k < |lists|
  {
    lists[k := [d] + lists[k]]
  }

  function Without(s: seq<nat>, x: nat): seq<nat> {
    if s == [] then [] else if s[0] == x then s[1..] else [s[0]] + Without(s[1..], x)
  }

  function PullOf(lists: seq<seq<nat>>, k: nat, d: nat): seq<seq<nat>>
    requires k < |lists|
  {
    lists[k := Without(lists[k], d)]
  }

  lemma {:induction false} WithoutAt(s: seq<nat>, i: nat)
    requires i < |s| && Distinct(s)
    ensures Without(s, s[i]) == s[..i] + s[i + 1..]
  {
    if i > 0 {
      assert s[1..][i - 1] == s[i];
      WithoutAt(s[1..], i - 1);
      assert [s[0]] + (s[1..][..i - 1] + s[1..][i..]) == s[..i] + s[i + 1..];
    }
  }

  lemma {:induction false} WithoutMembers(s: seq<nat>, d: nat, x: nat)
    requires Distinct(s)
    ensures x in Without(s, d) <==> x in s && x != d
  {
    if s != [] {
      if s[0] == d {
        assert x in s <==> x == d || x in s[1..];
      } else {
        WithoutMembers(s[1..], d, x);
        assert x in s <==> x == s[0] || x in s[1..];
      }
    }
  }

  /** Links outside `s` are the same in `m` and `n`. */
  ghost predicate SameLinksBut(m: LinkMemory, n: LinkMemory, s: set<nat>) {
    forall a :: a in m && a !in s ==> a in n && n[a] == m[a]
  }

  lemma ListFrame(m: LinkMemory, n: LinkMemory, head: nat, s: seq<nat>, touched: set<nat>)
    requires ListOk(m, head, s) && SameLinksBut(m, n, touched)
    requires forall x :: x in touched ==> x !in s
    ensures ListOk(n, head, s)
  {
    forall i | 0 <= i < |s| ensures NodeOk(n, s, i) { assert NodeOk(m, s, i); }
  }

  lemma PushList(f: FreeLists, s: seq<nat>, k: nat, d: nat)
    requires k < |f.heads| && ListOk(f.lnk, f.heads[k], s)
    requires d in f.lnk && f.lnk[d] == Links(0, 0) && d !in s && d != 0
    ensures f.heads[k] == 0 || f.heads[k] in f.lnk
    ensures ListOk(Push(f, k, d).lnk, d, [d] + s)
    ensures SameLinksBut(f.lnk, Push(f, k, d).lnk, {d} + set x | x in s)
  {
    if s != [] { assert NodeOk(f.lnk, s, 0); }
    var t, n := [d] + s, Push(f, k, d).lnk;
    forall i | 0 <= i < |t| ensures NodeOk(n, t, i) {
      if i > 0 { assert t[i] == s[i - 1] && NodeOk(f.lnk, s, i - 1); }
    }
  }

  lemma PushOk(f: FreeLists, lists: seq<seq<nat>>, k: nat, d: nat)
    requires k < SIZES && ListsOk(f, lists) && Unlisted(lists, d) && d != 0
    requires d in f.lnk && f.lnk[d] == Links(0, 0)
    ensures f.heads[k] == 0 || f.heads[k] in f.lnk
    ensures ListsOk(Push(f, k, d), PushOf(lists, k, d))
    ensures SameLinksBut(f.lnk, Push(f, k, d).lnk, {d} + set x | x in lists[k])
    ensures Push(f, k, d).lnk.Keys == f.lnk.Keys
  {
    PushList(f, lists[k], k, d);
    var g, ls := Push(f, k, d), PushOf(lists, k, d);
    forall j | 0 <= j < SIZES && j != k ensures ListOk(g.lnk, g.heads[j], ls[j]) {
      ListFrame(f.lnk, g.lnk, f.heads[j], lists[j], {d} + set x | x in lists[k]);
    }
  }

  lemma Neighbours(f: FreeLists, s: seq<nat>, k: nat, i: nat)
    requires k < |f.heads| && ListOk(f.lnk, f.heads[k], s) && i < |s|
    ensures Linked(f.lnk, s[i]) && (f.lnk[s[i]].bprev != 0 || f.heads[k] in f.lnk)
    ensures f.lnk[s[i]].bprev == (if i == 0 then 0 else s[i - 1]) && (f.lnk[s[i]].bprev == 0 <==> i == 0)
    ensures f.lnk[s[i]].bnext == (if i == |s| - 1 then 0 else s[i + 1]) && (f.lnk[s[i]].bnext == 0 <==> i == |s| - 1)
  {
    assert NodeOk(f.lnk, s, i);
    assert i > 0 ==> NodeOk(f.lnk, s, i - 1);
    assert i + 1 < |s| ==> NodeOk(f.lnk, s, i + 1);
  }

  lemma PullNode(f: FreeLists, s: seq<nat>, k: nat, i: nat, p: nat)
    requires k < |f.heads| && ListOk(f.lnk, f.heads[k], s) && i < |s|
    requires Linked(f.lnk, s[i]) && (f.lnk[s[i]].bprev != 0 || f.heads[k] in f.lnk)
    requires p < |s| - 1
    ensures NodeOk(Pull(f, k, s[i]).lnk, s[..i] + s[i + 1..], p)
  {
    Neighbours(f, s, k, i);
    var t, q := s[..i] + s[i + 1..], if p < i then p else p + 1;
    assert t[p] == s[q] && NodeOk(f.lnk, s, q) && s[q] != s[i];
    assert s[q] == f.lnk[s[i]].bprev <==> q == i - 1;
    assert s[q] == f.lnk[s[i]].bnext <==> q == i + 1;
  }

  lemma PullList(f: FreeLists, s: seq<nat>, k: nat, d: nat)
    requires k < |f.heads| && ListOk(f.lnk, f.heads[k], s) && d in s
    ensures Linked(f.lnk, d) && (f.lnk[d].bprev != 0 || f.heads[k] in f.lnk)
    ensures ListOk(Pull(f, k, d).lnk, Pull(f, k, d).heads[k], Without(s, d))
    ensures SameLinksBut(f.lnk, Pull(f, k, d).lnk, set x | x in s)
    ensures Pull(f, k, d).lnk.Keys == f.lnk.Keys
  {
    var i :| 0 <= i < |s| && s[i] == d;
    Neighbours(f, s, k, i);
    WithoutAt(s, i);
    var t, n := s[..i] + s[i + 1..], Pull(f, k, d).lnk;
    forall p | 0 <= p < |t| ensures NodeOk(n, t, p) { PullNode(f, s, k, i, p); }
  }

  lemma PullOk(f: FreeLists, lists: seq<seq<nat>>, k: nat, d: nat)
    requires k < SIZES && ListsOk(f, lists) && d in lists[k]
    ensures Linked(f.lnk, d) && (f.lnk[d].bprev != 0 || f.heads[k] in f.lnk)
    ensures ListsOk(Pull(f, k, d), PullOf(lists, k, d)) && Unlisted(PullOf(lists, k, d), d)
    ensures SameLinksBut(f.lnk, Pull(f, k, d).lnk, set x | x in lists[k])
    ensures Pull(f, k, d).lnk.Keys == f.lnk.Keys && Pull(f, k, d).lnk[d] == Links(0, 0)
    ensures forall x :: x in PullOf(lists, k, d)[k] <==> x in lists[k] && x != d
    ensures d != 0
  {
    PullList(f, lists[k], k, d);
    var g, ls := Pull(f, k, d), PullOf(lists, k, d);
    forall x ensures x in ls[k] <==> x in lists[k] && x != d { WithoutMembers(lists[k], d, x); }
    forall j | 0 <= j < SIZES && j != k ensures ListOk(g.lnk, g.heads[j], ls[j]) {
      ListFrame(f.lnk, g.lnk, f.heads[j], lists[j], set x | x in lists[k]);
    }
    var i :| 0 <= i < |lists[k]| && lists[k][i] == d;
    assert NodeOk(f.lnk, lists[k], i);
  }

  /** Writing links at an address that is in no list. */
  lemma WriteOk(f: FreeLists, lists: seq<seq<nat>>, e: nat, links: Links)
    requires ListsOk(f, lists) && Unlisted(lists, e)
    ensures ListsOk(FreeLists(f.lnk[e := links], f.heads), lists)
  {
    var g := FreeLists(f.lnk[e := links], f.heads);
    forall k | 0 <= k < SIZES ensures ListOk(g.lnk, g.heads[k], lists[k]) {
      ListFrame(f.lnk, g.lnk, f.heads[k], lists[k], {e});
    }
  }

  /** Links change only at `e` and in listed blocks, and only `e` can be new. */
  ghost predicate LinksKept(f: LinkMemory, g: LinkMemory, lists: seq<seq<nat>>, e: nat) {
    && f.Keys <= g.Keys <= f.Keys + {e}
    && (forall x :: x != e && Unlisted(lists, x) && x in f ==> g[x] == f[x])
  }

  // ---- the list work of split and combine ----------------------------------------------------

  ghost function CutLists(lists: seq<seq<nat>>, k: nat, d: nat, e: nat): seq<seq<nat>>
    requires 0 < k < |lists|
  {
    PushOf(PushOf(PullOf(lists, k, d), k - 1, d), k - 1, e)
  }

  /** `split`: block `d` leaves list `k`; it and the new block `e` lead list `k - 1`. */
  lemma CutOk(f: FreeLists, lists: seq<seq<nat>>, k: nat, d: nat, e: nat)
    returns (f1: FreeLists, f2: FreeLists, f3: FreeLists)
    requires 0 < k < SIZES && ListsOk(f, lists) && d in lists[k] && Unlisted(lists, e) && e != 0
    ensures Linked(f.lnk, d) && (f.lnk[d].bprev != 0 || f.heads[k] in f.lnk) && f1 == Pull(f, k, d)
    ensures f2 == f1.(lnk := f1.lnk[e := Links(0, 0)])
    ensures |f2.heads| == SIZES && d in f2.lnk && (f2.heads[k - 1] == 0 || f2.heads[k - 1] in f2.lnk)
    ensures f3 == Push(f2, k - 1, d)
    ensures |f3.heads| == SIZES && e in f3.lnk && f3.heads[k - 1] in f3.lnk
    ensures ListsOk(Push(f3, k - 1, e), CutLists(lists, k, d, e))
    ensures LinksKept(f.lnk, Push(f3, k - 1, e).lnk, lists, e)
  {
    f1, f2 := TakeAndWrite(f, lists, k, d, e);
    f3 := PushBoth(f2, PullOf(lists, k, d), k - 1, d, e);
    KeptTwice(f.lnk, f2.lnk, Push(f3, k - 1, e).lnk, lists, PullOf(lists, k, d), d, e);
  }

  /** Block `d` leaves its list, and the links of `e` are cleared. */
  lemma TakeAndWrite(f: FreeLists, lists: seq<seq<nat>>, k: nat, d: nat, e: nat)
    returns (f1: FreeLists, f2: FreeLists)
    requires k < SIZES && ListsOk(f, lists) && d in lists[k] && Unlisted(lists, e) && e != 0
    ensures Linked(f.lnk, d) && (f.lnk[d].bprev != 0 || f.heads[k] in f.lnk) && f1 == Pull(f, k, d)
    ensures f2 == f1.(lnk := f1.lnk[e := Links(0, 0)]) && d != 0 && d != e
    ensures ListsOk(f2, PullOf(lists, k, d)) && Unlisted(PullOf(lists, k, d), d) && Unlisted(PullOf(lists, k, d), e)
    ensures d in f2.lnk && f2.lnk[d] == Links(0, 0) && LinksKept(f.lnk, f2.lnk, lists, e)
    ensures forall x :: Unlisted(lists, x) ==> Unlisted(PullOf(lists, k, d), x)
  {
    PullOk(f, lists, k, d);
    f1 := Pull(f, k, d);
    WriteOk(f1, PullOf(lists, k, d), e, Links(0, 0));
    f2 := f1.(lnk := f1.lnk[e := Links(0, 0)]);
  }

  /** Both halves go to the head of one list. */
  lemma PushBoth(f: FreeLists, lists: seq<seq<nat>>, k: nat, d: nat, e: nat) returns (g: FreeLists)
    requires k < SIZES && ListsOk(f, lists) && Unlisted(lists, d) && Unlisted(lists, e) && d != 0 && e != 0 && d != e
    requires d in f.lnk && f.lnk[d] == Links(0, 0) && e in f.lnk && f.lnk[e] == Links(0, 0)
    ensures f.heads[k] == 0 || f.heads[k] in f.lnk
    ensures g == Push(f, k, d) && |g.heads| == SIZES && e in g.lnk && g.heads[k] in g.lnk
    ensures ListsOk(Push(g, k, e), PushOf(PushOf(lists, k, d), k, e))
    ensures Push(g, k, e).lnk.Keys == f.lnk.Keys
    ensures SameLinksBut(f.lnk, Push(g, k, e).lnk, {d, e} + set x | x in lists[k])
  {
    PushOk(f, lists, k, d);
    g := Push(f, k, d);
    PushOk(g, PushOf(lists, k, d), k, e);
  }

  lemma KeptTwice(f: LinkMemory, g: LinkMemory, h: LinkMemory, lists: seq<seq<nat>>, ls: seq<seq<nat>>, d: nat, e: nat)
    requires LinksKept(f, g, lists, e) && h.Keys == g.Keys && |lists| == |ls| == SIZES && !Unlisted(lists, d)
    requires exists k: nat :: k < SIZES && SameLinksBut(g, h, {d, e} + set x | x in ls[k])
    requires forall x :: Unlisted(lists, x) ==> Unlisted(ls, x)
    ensures LinksKept(f, h, lists, e)
  {
  }

  ghost function JoinLists(lists: seq<seq<nat>>, k: nat, l: nat, r: nat): seq<seq<nat>>
    requires k + 1 < |lists|
  {
    PushOf(PullOf(PullOf(lists, k, l), k, r), k + 1, l)
  }

  /** `combine`: both buddies leave list `k` and the left one leads list `k + 1`. */
  lemma JoinOk(f: FreeLists, lists: seq<seq<nat>>, k: nat, l: nat, r: nat) returns (f1: FreeLists, f2: FreeLists)
    requires k + 1 < SIZES && ListsOk(f, lists) && l in lists[k] && r in lists[k] && l != r
    ensures Linked(f.lnk, l) && (f.lnk[l].bprev != 0 || f.heads[k] in f.lnk) && f1 == Pull(f, k, l)
    ensures |f1.heads| == SIZES && Linked(f1.lnk, r) && (f1.lnk[r].bprev != 0 || f1.heads[k] in f1.lnk)
    ensures f2 == Pull(f1, k, r)
    ensures |f2.heads| == SIZES && l in f2.lnk && (f2.heads[k + 1] == 0 || f2.heads[k + 1] in f2.lnk)
    ensures ListsOk(Push(f2, k + 1, l), JoinLists(lists, k, l, r))
    ensures LinksKept(f.lnk, Push(f2, k + 1, l).lnk, lists, l)
  {
    f1, f2 := PullBoth(f, lists, k, l, r);
    PushOk(f2, PullOf(PullOf(lists, k, l), k, r), k + 1, l);
  }

  /** Both buddies leave one list. */
  lemma PullBoth(f: FreeLists, lists: seq<seq<nat>>, k: nat, l: nat, r: nat) returns (f1: FreeLists, f2: FreeLists)
    requires k < SIZES && ListsOk(f, lists) && l in lists[k] && r in lists[k] && l != r
    ensures Linked(f.lnk, l) && (f.lnk[l].bprev != 0 || f.heads[k] in f.lnk) && f1 == Pull(f, k, l)
    ensures |f1.heads| == SIZES && Linked(f1.lnk, r) && (f1.lnk[r].bprev != 0 || f1.heads[k] in f1.lnk)
    ensures f2 == Pull(f1, k, r) && |f2.heads| == SIZES && l != 0 && l in f2.lnk && f2.lnk[l] == Links(0, 0)
    ensures ListsOk(f2, PullOf(PullOf(lists, k, l), k, r)) && Unlisted(PullOf(PullOf(lists, k, l), k, r), l)
    ensures f2.lnk.Keys == f.lnk.Keys && SameLinksBut(f.lnk, f2.lnk, set x | x in lists[k])
    ensures forall x :: Unlisted(lists, x) ==> Unlisted(PullOf(PullOf(lists, k, l), k, r), x)
  {
    PullOk(f, lists, k, l);
    f1 := Pull(f, k, l);
    PullOk(f1, PullOf(lists, k, l), k, r);
    f2 := Pull(f1, k, r);
  }

  lemma CutMembers(f: FreeLists, lists: seq<seq<nat>>, k: nat, d: nat, e: nat, j: nat, x: nat)
    requires 0 < k < SIZES && ListsOk(f, lists) && d in lists[k] && j < SIZES
    ensures x in CutLists(lists, k, d, e)[j] <==>
              if j == k then x in lists[k] && x != d
              else if j == k - 1 then x == e || x == d || x in lists[j]
              else x in lists[j]
  {
    WithoutMembers(lists[k], d, x);
  }

  lemma JoinMembers(f: FreeLists, lists: seq<seq<nat>>, k: nat, l: nat, r: nat, j: nat, x: nat)
    requires k + 1 < SIZES && ListsOk(f, lists) && l in lists[k] && r in lists[k] && l != r && j < SIZES
    ensures x in JoinLists(lists, k, l, r)[j] <==>
              if j == k then x in lists[k] && x != l && x != r
              else if j == k + 1 then x == l || x in lists[j]
              else x in lists[j]
  {
    PullOk(f, lists, k, l);
    assert Distinct(PullOf(lists, k, l)[k]);
    WithoutMembers(lists[k], l, x);
    WithoutMembers(Without(lists[k], l), r, x);
  }
}
