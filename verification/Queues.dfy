/** The scheduler queues of threads.h and thread.h as values: what each queue must hold. */
module Queues {
  import opened NodeList

  /** `Kcfg::Threads_max`, also the capacity of every queue. */
  const THREADS: nat := 128
  /** `Prio_max + 1`. */
  const PRIOS: nat := 256
  /** `Kcfg::Timeslice_usec`. */
  const TIMESLICE: nat := 50000
  /** The deadline `-1`: no timeout. */
  const NEVER: nat := 0xffff_ffff_ffff_ffff

  datatype State =
    | Idle | Inactive | Active | Ready
    | SendIpc | SendPfault | SendException
    | ReceiveIpc | ReceivePfault | ReceiveException

  /** `L4_thrid_t` without local ids: a global id is a number and a version. */
  datatype Id = Nil | Any | AnyLocal | Global(num: nat, ver: nat)

  /** Where a thread goes on when it runs again: in user mode, or in the receive phase of `do_ipc`. */
  datatype Pc = User | RcvPhase(fromSpec: Id, limit: RelTime, swIrq: bool)

  /** `L4_time_t` as `do_ipc` uses it. */
  datatype RelTime = Zero | Never | After(usec: nat)

  datatype Thread = Thread(
    state: State, prio: nat, timeout: nat, timeslice: nat, iter: nat,
    globid: Id, task: nat, to: Id, from: Id, signal: bool, failed: bool, pc: Pc)

  datatype Queue = NoQ | ReadyQ(prio: nat) | SendQ | SndWaitQ | RcvWaitQ

  predicate IsQueue(q: Queue) {
    q != NoQ && (q.ReadyQ? ==> q.prio < PRIOS)
  }

  /** The one queue that a thread belongs in. */
  function QueueOf(t: Thread): Queue {
    match t.state
    case Ready => ReadyQ(t.prio)
    case SendIpc => if t.timeout != NEVER then SndWaitQ else SendQ
    case SendPfault => SendQ
    case SendException => SendQ
    case ReceiveIpc => if t.timeout != NEVER then RcvWaitQ else NoQ
    case _ => NoQ
  }

  datatype Sys = Sys(thr: seq<Thread>, que: map<Queue, Nodes<nat>>, bits: seq<nat>)

  // ---- ready bits ----------------------------------------------------------------------------

  /** `(w >> j) & 1`. */
  predicate Bit(w: nat, j: nat) {
    if j == 0 then w % 2 == 1 else Bit(w / 2, j - 1)
  }

  /** `w | (1 << k)`. */
  function SetBit(w: nat, k: nat): nat {
    if k == 0 then w / 2 * 2 + 1 else SetBit(w / 2, k - 1) * 2 + w % 2
  }

  /** `w & ~(1 << k)`. */
  function ClearBit(w: nat, k: nat): nat {
    if k == 0 then w / 2 * 2 else ClearBit(w / 2, k - 1) * 2 + w % 2
  }

  lemma Halves(h: nat, b: nat)
    requires b < 2
    ensures (h * 2 + b) / 2 == h && (h * 2 + b) % 2 == b
  {
  }

  lemma {:induction false} SetBitAt(w: nat, k: nat, j: nat)
    ensures Bit(SetBit(w, k), j) <==> j == k || Bit(w, j)
    decreases k
  {
    if k > 0 {
      Halves(SetBit(w / 2, k - 1), w % 2);
      if j > 0 { SetBitAt(w / 2, k - 1, j - 1); }
    } else {
      Halves(w / 2, 1);
    }
  }

  lemma {:induction false} ClearBitAt(w: nat, k: nat, j: nat)
    ensures Bit(ClearBit(w, k), j) <==> j != k && Bit(w, j)
    decreases k
  {
    if k > 0 {
      Halves(ClearBit(w / 2, k - 1), w % 2);
      if j > 0 { ClearBitAt(w / 2, k - 1, j - 1); }
    } else {
      Halves(w / 2, 0);
    }
  }

  lemma {:induction false} NoBits(j: nat)
    ensures !Bit(0, j)
  {
    if j > 0 { NoBits(j - 1); }
  }

  ghost predicate BitOk(bits: seq<nat>, que: map<Queue, Nodes<nat>>, p: nat)
    requires |bits| == 8 && p < PRIOS && ReadyQ(p) in que
  {
    Bit(bits[p / 32], p % 32) <==> que[ReadyQ(p)].busy != []
  }

  // ---- the partition -------------------------------------------------------------------------

  /** Entry `i` of queue `q` is a thread that belongs there, and whose iterator is this node. */
  ghost predicate EntryOk(thr: seq<Thread>, q: Queue, n: Nodes<nat>, i: int)
    requires 0 <= i < |n.busy|
  {
    && n.busy[i] in n.data && n.data[n.busy[i]] < |thr|
    && QueueOf(thr[n.data[n.busy[i]]]) == q && thr[n.data[n.busy[i]]].iter == n.busy[i]
  }

  ghost predicate QueueOk(thr: seq<Thread>, q: Queue, n: Nodes<nat>) {
    && NodesOk(n) && |n.busy| + |n.free| == THREADS
    && (forall i {:trigger EntryOk(thr, q, n, i)} :: 0 <= i < |n.busy| ==> EntryOk(thr, q, n, i))
    && (q.SndWaitQ? || q.RcvWaitQ? ==> Ordered(thr, n))
  }

  /** Waiting threads are in order of their deadlines. */
  ghost predicate Ordered(thr: seq<Thread>, n: Nodes<nat>) {
    forall i, j {:trigger Before(thr, n, i, j)} :: 0 <= i < j < |n.busy| ==> Before(thr, n, i, j)
  }

  ghost predicate Before(thr: seq<Thread>, n: Nodes<nat>, i: int, j: int)
    requires 0 <= i < |n.busy| && 0 <= j < |n.busy|
  {
    && n.busy[i] in n.data && n.data[n.busy[i]] < |thr| && n.busy[j] in n.data && n.data[n.busy[j]] < |thr|
    && thr[n.data[n.busy[i]]].timeout <= thr[n.data[n.busy[j]]].timeout
  }

  /** Thread `t` is in the queue it belongs in, at its iterator. */
  ghost predicate Home(s: Sys, t: int)
    requires 0 <= t < |s.thr|
  {
    var q := QueueOf(s.thr[t]);
    q == NoQ || (q in s.que && s.thr[t].iter in s.que[q].busy
                 && s.thr[t].iter in s.que[q].data && s.que[q].data[s.thr[t].iter] == t)
  }

  /** Thread `t` is in no queue. */
  ghost predicate Away(s: Sys, t: int) {
    forall q, i {:trigger s.que[q].busy[i]} :: q in s.que && 0 <= i < |s.que[q].busy| ==>
      s.que[q].busy[i] in s.que[q].data && s.que[q].data[s.que[q].busy[i]] != t
  }

  ghost predicate Shape(s: Sys) {
    && |s.thr| == THREADS && |s.bits| == 8
    && (forall q {:trigger q in s.que} :: q in s.que <==> IsQueue(q))
    && (forall t {:trigger s.thr[t]} :: 0 <= t < THREADS ==> s.thr[t].prio < PRIOS)
  }

  /** Queues and threads agree, except that thread `x` is on its way between queues. */
  ghost predicate PartitionBut(s: Sys, x: int) {
    && Shape(s) && 0 <= x < THREADS && Away(s, x)
    && (forall q {:trigger QueueOk(s.thr, q, s.que[q])} :: q in s.que ==> QueueOk(s.thr, q, s.que[q]))
    && (forall t {:trigger Home(s, t)} :: 0 <= t < THREADS && t != x ==> Home(s, t))
    && (forall p: nat {:trigger BitOk(s.bits, s.que, p)} :: p < PRIOS ==> BitOk(s.bits, s.que, p))
  }

  /** Each thread is in exactly the queue fixed by its state, deadline and priority. */
  ghost predicate Partition(s: Sys) {
    && Shape(s)
    && (forall q {:trigger QueueOk(s.thr, q, s.que[q])} :: q in s.que ==> QueueOk(s.thr, q, s.que[q]))
    && (forall t {:trigger Home(s, t)} :: 0 <= t < THREADS ==> Home(s, t))
    && (forall p: nat {:trigger BitOk(s.bits, s.que, p)} :: p < PRIOS ==> BitOk(s.bits, s.que, p))
  }

  /** Once, and in no other queue: the iterator of a queued thread tells both queue and place. */
  lemma OncePerThread(s: Sys, q: Queue, i: nat, q': Queue, i': nat)
    requires Partition(s) && q in s.que && q' in s.que && i < |s.que[q].busy| && i' < |s.que[q'].busy|
    requires s.que[q].busy[i] in s.que[q].data && s.que[q'].busy[i'] in s.que[q'].data
    requires s.que[q].data[s.que[q].busy[i]] == s.que[q'].data[s.que[q'].busy[i']]
    ensures q == q' && i == i'
  {
    assert QueueOk(s.thr, q, s.que[q]) && QueueOk(s.thr, q', s.que[q']);
    assert EntryOk(s.thr, q, s.que[q], i) && EntryOk(s.thr, q', s.que[q'], i');
  }

  // ---- leaving a queue -----------------------------------------------------------------------

  function IndexOf(s: seq<nat>, x: nat): (i: nat)
    requires x in s
    ensures i < |s| && s[i] == x
  {
    if s[0] == x then 0 else 1 + IndexOf(s[1..], x)
  }

  lemma IndexOfIs(s: seq<nat>, i: nat)
    requires Distinct(s) && i < |s|
    ensures IndexOf(s, s[i]) == i
  {
  }

  /** The bits after queue `q` has become `n`. */
  function BitsFor(bits: seq<nat>, q: Queue, n: Nodes<nat>): seq<nat>
    requires |bits| == 8
  {
    if q.ReadyQ? && q.prio < PRIOS then
      var g := q.prio / 32;
      bits[g := if n.busy == [] then ClearBit(bits[g], q.prio % 32) else SetBit(bits[g], q.prio % 32)]
    else bits
  }

  lemma BitsForOk(bits: seq<nat>, que: map<Queue, Nodes<nat>>, q: Queue, n: Nodes<nat>, p: nat)
    requires |bits| == 8 && p < PRIOS && ReadyQ(p) in que && q in que && IsQueue(q) && BitOk(bits, que, p)
    ensures BitOk(BitsFor(bits, q, n), que[q := n], p)
  {
    if q.ReadyQ? {
      SetBitAt(bits[q.prio / 32], q.prio % 32, p % 32);
      ClearBitAt(bits[q.prio / 32], q.prio % 32, p % 32);
      SamePrio(p, q.prio);
    }
  }

  lemma SamePrio(p: nat, q: nat)
    ensures p / 32 == q / 32 && p % 32 == q % 32 ==> p == q
  {
  }

  /** `del_ready`, `del_send`, `del_timeout_waiting`: thread `t` out of the queue it is in. */
  function Left(s: Sys, t: nat): Sys
    requires t < |s.thr| && |s.bits| == 8
  {
    var q := QueueOf(s.thr[t]);
    if q in s.que && s.thr[t].iter in s.que[q].busy then
      var n := Erased(s.que[q], IndexOf(s.que[q].busy, s.thr[t].iter));
      Sys(s.thr[t := s.thr[t].(iter := 0)], s.que[q := n], if n.busy == [] then BitsFor(s.bits, q, n) else s.bits)
    else s
  }

  lemma LeftOk(s: Sys, t: nat)
    requires Partition(s) && t < THREADS
    ensures PartitionBut(Left(s, t), t)
    ensures Left(s, t).thr == s.thr[t := s.thr[t].(iter := Left(s, t).thr[t].iter)]
  {
    var q := QueueOf(s.thr[t]);
    assert Home(s, t);
    if q == NoQ {
      LeftAlone(s, t);
    } else {
      LeftQueue(s, t);
    }
  }

  lemma LeftAlone(s: Sys, t: nat)
    requires Partition(s) && t < THREADS && QueueOf(s.thr[t]) == NoQ
    ensures PartitionBut(s, t)
  {
    forall q, i | q in s.que && 0 <= i < |s.que[q].busy|
      ensures s.que[q].busy[i] in s.que[q].data && s.que[q].data[s.que[q].busy[i]] != t
    {
      assert QueueOk(s.thr, q, s.que[q]);
      assert EntryOk(s.thr, q, s.que[q], i);
    }
  }

  /** A change of thread `t` does not matter to a queue that does not hold it. */
  lemma QueueKept(thr: seq<Thread>, thr': seq<Thread>, q: Queue, n: Nodes<nat>, t: int)
    requires QueueOk(thr, q, n) && |thr'| == |thr|
    requires forall i {:trigger thr'[i]} :: 0 <= i < |thr| && i != t ==> thr'[i] == thr[i]
    requires forall i {:trigger n.busy[i]} :: 0 <= i < |n.busy| ==> n.busy[i] in n.data && n.data[n.busy[i]] != t
    ensures QueueOk(thr', q, n)
  {
    forall i | 0 <= i < |n.busy| ensures EntryOk(thr', q, n, i) { assert EntryOk(thr, q, n, i); }
    if q.SndWaitQ? || q.RcvWaitQ? {
      forall i, j | 0 <= i < j < |n.busy| ensures Before(thr', n, i, j) { assert Before(thr, n, i, j); }
    }
  }

  lemma ErasedQueue(thr: seq<Thread>, q: Queue, n: Nodes<nat>, k: nat)
    requires QueueOk(thr, q, n) && k < |n.busy|
    ensures QueueOk(thr, q, Erased(n, k))
    ensures n.busy[k] in n.data
    ensures forall i {:trigger Erased(n, k).busy[i]} :: 0 <= i < |Erased(n, k).busy| ==>
              Erased(n, k).busy[i] in n.data && n.data[Erased(n, k).busy[i]] != n.data[n.busy[k]]
  {
    ErasedNodes(n, k);
    assert EntryOk(thr, q, n, k);
    forall i | 0 <= i < |Erased(n, k).busy|
      ensures EntryOk(thr, q, Erased(n, k), i) && n.data[Erased(n, k).busy[i]] != n.data[n.busy[k]]
    {
      ErasedEntry(thr, q, n, k, i);
    }
    if q.SndWaitQ? || q.RcvWaitQ? { ErasedOrdered(thr, n, k); }
  }

  lemma ErasedEntry(thr: seq<Thread>, q: Queue, n: Nodes<nat>, k: nat, i: nat)
    requires QueueOk(thr, q, n) && k < |n.busy| && i < |Erased(n, k).busy|
    ensures EntryOk(thr, q, Erased(n, k), i) && n.busy[k] in n.data && n.data[Erased(n, k).busy[i]] != n.data[n.busy[k]]
  {
    assert EntryOk(thr, q, n, k);
    assert EntryOk(thr, q, n, if i < k then i else i + 1);
  }

  lemma ErasedOrdered(thr: seq<Thread>, n: Nodes<nat>, k: nat)
    requires Ordered(thr, n) && k < |n.busy|
    ensures Ordered(thr, Erased(n, k))
  {
    var e := Erased(n, k);
    forall i, j | 0 <= i < j < |e.busy| ensures Before(thr, e, i, j) {
      assert Before(thr, n, if i < k then i else i + 1, if j < k then j else j + 1);
    }
  }

  lemma LeftQueue(s: Sys, t: nat)
    requires Partition(s) && t < THREADS && QueueOf(s.thr[t]) != NoQ
    ensures PartitionBut(Left(s, t), t)
  {
    var q := QueueOf(s.thr[t]);
    assert Home(s, t);
    var n := s.que[q];
    assert QueueOk(s.thr, q, n);
    var k := IndexOf(n.busy, s.thr[t].iter);
    ErasedQueue(s.thr, q, n, k);
    LeftAway(s, t);
    var s' := Left(s, t);
    forall r | r in s'.que ensures QueueOk(s'.thr, r, s'.que[r]) {
      assert QueueOk(s.thr, r, if r == q then Erased(n, k) else s.que[r]);
      QueueKept(s.thr, s'.thr, r, s'.que[r], t);
    }
    forall u | 0 <= u < THREADS && u != t ensures Home(s', u) { LeftHome(s, t, u); }
    forall p: nat | p < PRIOS ensures BitOk(s'.bits, s'.que, p) {
      assert BitOk(s.bits, s.que, p);
      BitsForOk(s.bits, s.que, q, Erased(n, k), p);
    }
  }

  lemma LeftAway(s: Sys, t: nat)
    requires Partition(s) && t < THREADS && QueueOf(s.thr[t]) != NoQ
    ensures Away(Left(s, t), t)
  {
    var q := QueueOf(s.thr[t]);
    assert Home(s, t);
    var n := s.que[q];
    assert QueueOk(s.thr, q, n);
    ErasedQueue(s.thr, q, n, IndexOf(n.busy, s.thr[t].iter));
    var s' := Left(s, t);
    forall r, i | r in s'.que && 0 <= i < |s'.que[r].busy|
      ensures s'.que[r].busy[i] in s'.que[r].data && s'.que[r].data[s'.que[r].busy[i]] != t
    {
      if r != q {
        assert QueueOk(s.thr, r, s.que[r]);
        assert EntryOk(s.thr, r, s.que[r], i);
      }
    }
  }

  lemma LeftHome(s: Sys, t: nat, u: nat)
    requires Partition(s) && t < THREADS && u < THREADS && u != t && QueueOf(s.thr[t]) != NoQ
    ensures Home(Left(s, t), u)
  {
    assert Home(s, t) && Home(s, u);
    var q := QueueOf(s.thr[t]);
    var n := s.que[q];
    assert QueueOk(s.thr, q, n);
    var k := IndexOf(n.busy, s.thr[t].iter);
    if QueueOf(s.thr[u]) == q {
      WithoutMembers(n.busy, k);
    }
  }

  // ---- entering a queue ----------------------------------------------------------------------

  /** `add_timeout_waiting` stops at entry `i`: a later deadline, or the same with a lower priority. */
  predicate Later(thr: seq<Thread>, n: Nodes<nat>, i: nat, t: nat)
    requires i < |n.busy| && t < |thr|
  {
    && n.busy[i] in n.data && n.data[n.busy[i]] < |thr|
    && var u := thr[n.data[n.busy[i]]];
       u.timeout > thr[t].timeout || (u.timeout == thr[t].timeout && u.prio < thr[t].prio)
  }

  function WaitPos(thr: seq<Thread>, n: Nodes<nat>, t: nat, i: nat): (pos: nat)
    requires t < |thr| && i <= |n.busy|
    ensures i <= pos <= |n.busy|
    ensures pos < |n.busy| ==> Later(thr, n, pos, t)
    ensures forall k :: i <= k < pos ==> !Later(thr, n, k, t)
    decreases |n.busy| - i
  {
    if i == |n.busy| || Later(thr, n, i, t) then i else WaitPos(thr, n, t, i + 1)
  }

  function PlaceFor(thr: seq<Thread>, q: Queue, n: Nodes<nat>, t: nat): (pos: nat)
    requires t < |thr|
    ensures pos <= |n.busy|
  {
    if q.SndWaitQ? || q.RcvWaitQ? then WaitPos(thr, n, t, 0) else |n.busy|
  }

  /** `add_ready`, `add_send`, `add_timeout_waiting`: thread `t` into the queue it belongs in. */
  function Entered(s: Sys, t: nat): Sys
    requires t < |s.thr| && |s.bits| == 8
  {
    var q := QueueOf(s.thr[t]);
    if q in s.que && |s.que[q].free| > 0 then
      var n := Inserted(s.que[q], PlaceFor(s.thr, q, s.que[q], t), t);
      Sys(s.thr[t := s.thr[t].(iter := s.que[q].free[0])], s.que[q := n], BitsFor(s.bits, q, n))
    else s
  }

  /** The numbers below `n`. */
  function Below(n: nat): (b: set<nat>)
    ensures |b| == n && forall x: nat :: x in b <==> x < n
  {
    if n == 0 then {} else Below(n - 1) + {n - 1}
  }

  lemma {:induction false} DistinctCount(c: seq<nat>, b: set<nat>)
    requires Distinct(c) && forall i :: 0 <= i < |c| ==> c[i] in b
    ensures |c| <= |b|
    decreases |c|
  {
    if c != [] {
      var last := c[|c| - 1];
      DistinctCount(c[..|c| - 1], b - {last});
    }
  }

  /** No thread is twice in a queue. */
  lemma QueueDistinct(thr: seq<Thread>, q: Queue, n: Nodes<nat>)
    requires QueueOk(thr, q, n)
    ensures forall i :: 0 <= i < |n.busy| ==> n.busy[i] in n.data
    ensures Distinct(Contents(n))
  {
    BusyHasData(n);
    forall i, j | 0 <= i < j < |n.busy| ensures n.data[n.busy[i]] != n.data[n.busy[j]] {
      assert EntryOk(thr, q, n, i);
      assert EntryOk(thr, q, n, j);
    }
  }

  lemma OthersCount(c: seq<nat>, n: nat, t: nat)
    requires Distinct(c) && t < n && forall i :: 0 <= i < |c| ==> c[i] < n && c[i] != t
    ensures |c| < n
  {
    DistinctCount(c, Below(n) - {t});
  }

  /** There is always room for a thread that is in no queue. */
  lemma Room(s: Sys, t: nat, q: Queue)
    requires PartitionBut(s, t) && q in s.que
    ensures |s.que[q].free| > 0
  {
    var n := s.que[q];
    assert QueueOk(s.thr, q, n);
    QueueDistinct(s.thr, q, n);
    var c: seq<nat> := Contents(n);
    forall i | 0 <= i < |c| ensures c[i] < THREADS && c[i] != t { assert EntryOk(s.thr, q, n, i); }
    OthersCount(c, THREADS, t);
  }

  lemma InsertedEntry(thr: seq<Thread>, q: Queue, n: Nodes<nat>, pos: nat, t: nat, i: nat)
    requires QueueOk(thr, q, n) && pos <= |n.busy| && |n.free| > 0 && i <= |n.busy|
    requires t < |thr| && QueueOf(thr[t]) == q && thr[t].iter == n.free[0]
    ensures EntryOk(thr, q, Inserted(n, pos, t), i)
  {
    if i < pos { assert EntryOk(thr, q, n, i); }
    if i > pos { assert EntryOk(thr, q, n, i - 1); }
    NodeApart(n);
  }

  lemma NodeApart(n: Nodes<nat>)
    requires NodesOk(n) && |n.free| > 0
    ensures n.free[0] !in n.busy
  {
  }

  lemma InsertedOrdered(thr: seq<Thread>, q: Queue, n: Nodes<nat>, pos: nat, t: nat)
    requires QueueOk(thr, q, n) && Ordered(thr, n) && |n.free| > 0 && t < |thr| && pos == WaitPos(thr, n, t, 0)
    ensures Ordered(thr, Inserted(n, pos, t))
  {
    var e := Inserted(n, pos, t);
    forall i, j | 0 <= i < j < |e.busy| ensures Before(thr, e, i, j) {
      var i', j' := if i < pos then i else i - 1, if j < pos then j else j - 1;
      if i != pos { InsertedAt(thr, q, n, pos, t, i, i'); } else { NodeApart(n); }
      if j != pos { InsertedAt(thr, q, n, pos, t, j, j'); } else { NodeApart(n); }
      if i != pos && j != pos { assert Before(thr, n, i', j'); }
      else { WaitPosSplits(thr, q, n, t, if j == pos then i else j'); }
    }
  }

  /** Entry `k` of the old queue is entry `i` of the new one. */
  lemma InsertedAt(thr: seq<Thread>, q: Queue, n: Nodes<nat>, pos: nat, t: nat, i: nat, k: nat)
    requires QueueOk(thr, q, n) && |n.free| > 0 && pos <= |n.busy| && i <= |n.busy| && i != pos
    requires k == if i < pos then i else i - 1
    ensures var e := Inserted(n, pos, t);
            && n.busy[k] in n.data && n.data[n.busy[k]] < |thr|
            && e.busy[i] == n.busy[k] && e.busy[i] in e.data && e.data[e.busy[i]] == n.data[n.busy[k]]
  {
    NodeApart(n);
    assert EntryOk(thr, q, n, k);
  }

  /** Before the place that `add_timeout_waiting` finds are earlier deadlines, behind it later ones. */
  lemma WaitPosSplits(thr: seq<Thread>, q: Queue, n: Nodes<nat>, t: nat, k: nat)
    requires QueueOk(thr, q, n) && Ordered(thr, n) && t < |thr| && k < |n.busy|
    ensures n.busy[k] in n.data && n.data[n.busy[k]] < |thr|
    ensures k < WaitPos(thr, n, t, 0) ==> thr[n.data[n.busy[k]]].timeout <= thr[t].timeout
    ensures k >= WaitPos(thr, n, t, 0) ==> thr[t].timeout <= thr[n.data[n.busy[k]]].timeout
  {
    var pos := WaitPos(thr, n, t, 0);
    assert EntryOk(thr, q, n, k);
    if k < pos { assert !Later(thr, n, k, t); }
    else if pos < k { assert Before(thr, n, pos, k); }
  }

  lemma InsertedQueue(thr: seq<Thread>, q: Queue, n: Nodes<nat>, t: nat)
    requires QueueOk(thr, q, n) && |n.free| > 0
    requires t < |thr| && QueueOf(thr[t]) == q && thr[t].iter == n.free[0]
    ensures QueueOk(thr, q, Inserted(n, PlaceFor(thr, q, n, t), t))
  {
    var pos := PlaceFor(thr, q, n, t);
    var e := Inserted(n, pos, t);
    InsertedNodes(n, pos, t);
    forall i | 0 <= i < |e.busy| ensures EntryOk(thr, q, e, i) { InsertedEntry(thr, q, n, pos, t, i); }
    if q.SndWaitQ? || q.RcvWaitQ? { InsertedOrdered(thr, q, n, pos, t); }
  }

  lemma EnteredOk(s: Sys, t: nat)
    requires PartitionBut(s, t)
    ensures Partition(Entered(s, t))
    ensures Entered(s, t).thr == s.thr[t := s.thr[t].(iter := Entered(s, t).thr[t].iter)]
  {
    var q := QueueOf(s.thr[t]);
    if q == NoQ {
      assert Home(s, t);
    } else {
      assert s.thr[t].prio < PRIOS;
      assert q in s.que;
      Room(s, t, q);
      EnteredQueue(s, t);
    }
  }

  lemma PlaceKept(thr: seq<Thread>, thr': seq<Thread>, q: Queue, n: Nodes<nat>, t: nat)
    requires |thr'| == |thr| && t < |thr| && thr'[t].timeout == thr[t].timeout && thr'[t].prio == thr[t].prio
    requires forall i {:trigger thr'[i]} :: 0 <= i < |thr| && i != t ==> thr'[i] == thr[i]
    ensures PlaceFor(thr', q, n, t) == PlaceFor(thr, q, n, t)
  {
    var a, b := WaitPos(thr, n, t, 0), WaitPos(thr', n, t, 0);
    if a < b { assert Later(thr', n, a, t); }
    if b < a { assert Later(thr, n, b, t); }
  }

  lemma EnteredQueue(s: Sys, t: nat)
    requires PartitionBut(s, t) && QueueOf(s.thr[t]) in s.que && |s.que[QueueOf(s.thr[t])].free| > 0
    ensures Partition(Entered(s, t))
  {
    var q := QueueOf(s.thr[t]);
    var n := s.que[q];
    var s' := Entered(s, t);
    PlaceKept(s.thr, s'.thr, q, n, t);
    forall r | r in s'.que ensures QueueOk(s'.thr, r, s'.que[r]) {
      assert QueueOk(s.thr, r, s.que[r]);
      QueueKept(s.thr, s'.thr, r, s.que[r], t);
      if r == q { InsertedQueue(s'.thr, q, n, t); }
    }
    forall u | 0 <= u < THREADS ensures Home(s', u) { EnteredHome(s, t, u); }
    forall p: nat | p < PRIOS ensures BitOk(s'.bits, s'.que, p) {
      assert BitOk(s.bits, s.que, p);
      BitsForOk(s.bits, s.que, q, s'.que[q], p);
    }
  }

  lemma EnteredHome(s: Sys, t: nat, u: nat)
    requires PartitionBut(s, t) && QueueOf(s.thr[t]) in s.que && |s.que[QueueOf(s.thr[t])].free| > 0 && u < THREADS
    ensures Home(Entered(s, t), u)
  {
    var q := QueueOf(s.thr[t]);
    var n := s.que[q];
    var pos := PlaceFor(s.thr, q, n, t);
    assert QueueOk(s.thr, q, n);
    NodeApart(n);
    WithMembers(n.busy, pos, n.free[0]);
    if u != t {
      assert Home(s, u);
      assert QueueOf(s.thr[u]) == q ==> s.thr[u].iter in n.busy;
    } else {
      assert n.free[0] in With(n.busy, pos, n.free[0]);
    }
  }

  // ---- changing a thread ---------------------------------------------------------------------

  /** Thread `t` leaves its queue, becomes `r` (but for its iterator) and enters the queue of `r`. */
  function Moved(s: Sys, t: nat, r: Thread): Sys
    requires t < |s.thr| && |s.bits| == 8
  {
    var l := Left(s, t);
    Entered(l.(thr := l.thr[t := r.(iter := l.thr[t].iter)]), t)
  }

  /** From `s` to `s'` only thread `t` changes, and apart from its iterator it becomes `r`. */
  ghost predicate Became(s: Sys, s': Sys, t: nat, r: Thread) {
    && t < |s.thr| == |s'.thr|
    && s'.thr[t] == r.(iter := s'.thr[t].iter)
    && (forall u {:trigger s'.thr[u]} :: 0 <= u < |s.thr| && u != t ==> s'.thr[u] == s.thr[u])
  }

  lemma MovedOk(s: Sys, t: nat, r: Thread)
    requires Partition(s) && t < THREADS && r.prio < PRIOS
    ensures Partition(Moved(s, t, r)) && Became(s, Moved(s, t, r), t, r)
  {
    LeftOk(s, t);
    var l := Left(s, t);
    var m := l.(thr := l.thr[t := r.(iter := l.thr[t].iter)]);
    BetweenQueues(l, t, r.(iter := l.thr[t].iter));
    EnteredOk(m, t);
  }

  /** While a thread is in no queue, its fields may change freely. */
  lemma BetweenQueues(s: Sys, t: nat, r: Thread)
    requires PartitionBut(s, t) && r.prio < PRIOS
    ensures PartitionBut(s.(thr := s.thr[t := r]), t)
  {
    var m := s.(thr := s.thr[t := r]);
    forall q | q in m.que ensures QueueOk(m.thr, q, m.que[q]) {
      assert QueueOk(s.thr, q, s.que[q]);
      QueueKept(s.thr, m.thr, q, s.que[q], t);
    }
    forall u | 0 <= u < THREADS && u != t ensures Home(m, u) { assert Home(s, u); }
    forall p: nat | p < PRIOS ensures BitOk(m.bits, m.que, p) { assert BitOk(s.bits, s.que, p); }
  }

  /** Fields that no queue depends on may change at any time. */
  lemma SameQueue(s: Sys, t: nat, r: Thread)
    requires Partition(s) && t < THREADS && r.prio < PRIOS
    requires QueueOf(r) == QueueOf(s.thr[t]) && r.iter == s.thr[t].iter && r.timeout == s.thr[t].timeout
    ensures Partition(s.(thr := s.thr[t := r]))
  {
    var m := s.(thr := s.thr[t := r]);
    forall q | q in m.que ensures QueueOk(m.thr, q, m.que[q]) {
      var n := s.que[q];
      assert QueueOk(s.thr, q, n);
      forall i | 0 <= i < |n.busy| ensures EntryOk(m.thr, q, n, i) { assert EntryOk(s.thr, q, n, i); }
      if q.SndWaitQ? || q.RcvWaitQ? {
        forall i, j | 0 <= i < j < |n.busy| ensures Before(m.thr, n, i, j) { assert Before(s.thr, n, i, j); }
      }
    }
    forall u | 0 <= u < THREADS ensures Home(m, u) { assert Home(s, u); }
    forall p: nat | p < PRIOS ensures BitOk(m.bits, m.que, p) { assert BitOk(s.bits, s.que, p); }
  }

  /** The thread that `state(st)` makes of `t`. */
  function InState(t: Thread, st: State): Thread {
    if st == Ready then t.(state := Ready, timeout := 0, to := Nil, from := Nil, timeslice := TIMESLICE)
    else t.(state := st)
  }

  // ---- queues as lines of threads ------------------------------------------------------------

  /** The threads of queue `q`, first to last. */
  ghost function Line(s: Sys, q: Queue): seq<nat>
    requires q in s.que && QueueOk(s.thr, q, s.que[q])
  {
    BusyHasData(s.que[q]);
    Contents(s.que[q])
  }

  function Dropped(c: seq<nat>, t: nat): seq<nat> {
    if t in c then Without(c, IndexOf(c, t)) else c
  }

  /** `add_timeout_waiting` puts `t` before `u`: a later deadline, or the same and a lower priority. */
  ghost predicate Behind(thr: seq<Thread>, u: nat, t: nat) {
    && u < |thr| && t < |thr|
    && (thr[u].timeout > thr[t].timeout || (thr[u].timeout == thr[t].timeout && thr[u].prio < thr[t].prio))
  }

  /** `pos` is the place of the first thread of the line that goes behind `t`. */
  ghost predicate FirstBehind(thr: seq<Thread>, c: seq<nat>, pos: nat, t: nat) {
    && pos <= |c| && (pos < |c| ==> Behind(thr, c[pos], t))
    && (forall k :: 0 <= k < pos ==> !Behind(thr, c[k], t))
  }

  /** Line `c` becomes that of `q`: thread `t` enters at the end, or where its deadline puts it, or not at all. */
  ghost predicate Joined(c: seq<nat>, s: Sys, t: nat, q: Queue)
    requires q in s.que && QueueOk(s.thr, q, s.que[q]) && t < |s.thr|
  {
    if QueueOf(s.thr[t]) != q then Line(s, q) == c
    else if q.SndWaitQ? || q.RcvWaitQ? then
      exists pos: nat :: FirstBehind(s.thr, c, pos, t) && Line(s, q) == c[..pos] + [t] + c[pos..]
    else Line(s, q) == c + [t]
  }

  /** Thread `t` leaves the line of `q`, wherever it stood, and joins it if it belongs there now. */
  ghost predicate Requeued(s: Sys, s': Sys, t: nat, q: Queue)
    requires q in s.que && QueueOk(s.thr, q, s.que[q]) && q in s'.que && QueueOk(s'.thr, q, s'.que[q])
    requires t < |s'.thr|
  {
    Joined(Dropped(Line(s, q), t), s', t, q)
  }

  /** A thread stands in the line of its queue and in no other, and only once. */
  lemma {:induction false} LineMembers(s: Sys, q: Queue)
    requires Partition(s) && q in s.que
    ensures QueueOk(s.thr, q, s.que[q]) && Distinct(Line(s, q))
    ensures forall t: nat {:trigger t in Line(s, q)} :: t in Line(s, q) <==> t < THREADS && QueueOf(s.thr[t]) == q
  {
    assert QueueOk(s.thr, q, s.que[q]);
    QueueDistinct(s.thr, q, s.que[q]);
    forall t: nat ensures t in Line(s, q) <==> t < THREADS && QueueOf(s.thr[t]) == q {
      if t in Line(s, q) {
        var i :| 0 <= i < |Line(s, q)| && Line(s, q)[i] == t;
        assert EntryOk(s.thr, q, s.que[q], i);
      }
      if t < THREADS && QueueOf(s.thr[t]) == q {
        assert Home(s, t);
        assert Line(s, q)[IndexOf(s.que[q].busy, s.thr[t].iter)] == t;
      }
    }
  }

  /** Erasing the node of `t` takes `t` out of the line. */
  lemma {:induction false} ErasedLine(n: Nodes<nat>, i: nat)
    requires NodesOk(n) && i < |n.busy|
    requires (forall k :: 0 <= k < |n.busy| ==> n.busy[k] in n.data) && Distinct(Contents(n))
    ensures NodesOk(Erased(n, i)) && Contents(Erased(n, i)) == Dropped(Contents(n), Contents(n)[i])
  {
    ErasedOk(n, i);
    var c: seq<nat> := Contents(n);
    IndexOfIs(c, i);
  }

  lemma {:induction false} LeftLine(s: Sys, t: nat, q: Queue)
    requires Partition(s) && t < THREADS && q in s.que
    ensures PartitionBut(Left(s, t), t) && QueueOk(s.thr, q, s.que[q])
    ensures Line(Left(s, t), q) == Dropped(Line(s, q), t)
  {
    LeftOk(s, t);
    LineMembers(s, q);
    if QueueOf(s.thr[t]) == q {
      assert Home(s, t);
      ErasedLine(s.que[q], IndexOf(s.que[q].busy, s.thr[t].iter));
    } else {
      assert t !in Line(s, q);
    }
  }

  /** The place that `add_timeout_waiting` stops at, in terms of the line. */
  lemma {:induction false} PlaceInLine(s: Sys, q: Queue, t: nat)
    requires q in s.que && QueueOk(s.thr, q, s.que[q]) && t < |s.thr| && (q.SndWaitQ? || q.RcvWaitQ?)
    ensures FirstBehind(s.thr, Line(s, q), PlaceFor(s.thr, q, s.que[q], t), t)
  {
    var c, n := Line(s, q), s.que[q];
    forall k: nat | k < |c| ensures Behind(s.thr, c[k], t) <==> Later(s.thr, n, k, t) {
      assert EntryOk(s.thr, q, n, k);
    }
  }

  lemma {:induction false} EnteredLine(s: Sys, t: nat, q: Queue)
    requires PartitionBut(s, t) && q in s.que
    ensures Partition(Entered(s, t)) && QueueOk(s.thr, q, s.que[q])
    ensures Joined(Line(s, q), Entered(s, t), t, q)
  {
    EnteredOk(s, t);
    assert QueueOk(s.thr, q, s.que[q]);
    if QueueOf(s.thr[t]) == q {
      Room(s, t, q);
      JoinedLine(s, Entered(s, t), t, q);
    }
  }

  lemma {:induction false} JoinedLine(s: Sys, s': Sys, t: nat, q: Queue)
    requires t < |s.thr| && |s.bits| == 8 && q in s.que && QueueOk(s.thr, q, s.que[q]) && |s.que[q].free| > 0
    requires QueueOf(s.thr[t]) == q && s' == Entered(s, t) && QueueOk(s'.thr, q, s'.que[q])
    ensures Joined(Line(s, q), s', t, q)
  {
    var pos := PlaceFor(s.thr, q, s.que[q], t);
    InsertedOk(s.que[q], pos, t);
    if q.SndWaitQ? || q.RcvWaitQ? {
      PlaceInLine(s, q, t);
      SamePlace(s.thr, s'.thr, Line(s, q), pos, t);
    }
  }

  /** A change of state, deadline or priority, seen from any queue. */
  lemma {:induction false} MovedLine(s: Sys, t: nat, r: Thread, q: Queue)
    requires Partition(s) && t < THREADS && r.prio < PRIOS && q in s.que
    ensures Partition(Moved(s, t, r)) && QueueOk(s.thr, q, s.que[q])
    ensures Requeued(s, Moved(s, t, r), t, q)
  {
    LeftLine(s, t, q);
    var l := Left(s, t);
    BetweenQueues(l, t, r.(iter := l.thr[t].iter));
    EnteredLine(l.(thr := l.thr[t := r.(iter := l.thr[t].iter)]), t, q);
  }

  /** In every line, thread `t` leaves and joins as its new state demands. */
  ghost predicate AllRequeued(s: Sys, s': Sys, t: nat)
    requires Partition(s) && Partition(s') && t < THREADS
  {
    forall q {:trigger Requeued(s, s', t, q)} :: q in s.que ==> Requeued(s, s', t, q)
  }

  lemma {:induction false} MovedLines(s: Sys, t: nat, r: Thread)
    requires Partition(s) && t < THREADS && r.prio < PRIOS
    ensures Partition(Moved(s, t, r)) && AllRequeued(s, Moved(s, t, r), t)
  {
    MovedOk(s, t, r);
    forall q | q in s.que ensures Requeued(s, Moved(s, t, r), t, q) { MovedLine(s, t, r, q); }
  }

  /** Thread `t` goes to the end of its line, all others keep their order, and other lines stay. */
  ghost predicate ToTheEnd(s: Sys, s': Sys, t: nat)
    requires Partition(s) && Partition(s') && t < THREADS && s.thr[t].state == Ready
  {
    var q := ReadyQ(s.thr[t].prio);
    && q in s.que && q in s'.que && t in Line(s, q)
    && (forall i: nat {:trigger Line(s, q)[i]} :: i < |Line(s, q)| && Line(s, q)[i] == t ==>
          Line(s', q) == Line(s, q)[..i] + Line(s, q)[i + 1..] + [t])
    && (forall r {:trigger s'.que[r]} :: r in s.que && r != q ==> r in s'.que && s'.que[r] == s.que[r])
  }

  lemma {:induction false} SamePlace(thr: seq<Thread>, thr': seq<Thread>, c: seq<nat>, pos: nat, t: nat)
    requires FirstBehind(thr, c, pos, t) && |thr'| == |thr| && t < |thr|
    requires forall u {:trigger thr'[u]} :: 0 <= u < |thr| && u != t ==> thr'[u] == thr[u]
    requires thr'[t].timeout == thr[t].timeout && thr'[t].prio == thr[t].prio
    ensures FirstBehind(thr', c, pos, t)
  {
    forall k: nat | k < |c| ensures Behind(thr', c[k], t) <==> Behind(thr, c[k], t) {}
  }

  // ---- rotation ------------------------------------------------------------------------------

  /** A queue after its entry `i` was appended again and then erased at its old place. */
  function RotatedNodes(n: Nodes<nat>, i: nat, t: nat): Nodes<nat>
    requires i < |n.busy| && |n.free| > 0
  {
    Erased(Pushed(n, t), i)
  }

  /** `timeslice_expired` for thread `t`, which is Ready. */
  function Rotated(s: Sys, t: nat): Sys
    requires t < |s.thr|
  {
    var q := ReadyQ(s.thr[t].prio);
    var r := s.thr[t].(timeslice := TIMESLICE);
    if q in s.que && |s.que[q].busy| > 1 && r.iter in s.que[q].busy && |s.que[q].free| > 0 then
      var n := s.que[q];
      Sys(s.thr[t := r.(iter := n.free[0])], s.que[q := RotatedNodes(n, IndexOf(n.busy, r.iter), t)], s.bits)
    else s.(thr := s.thr[t := r])
  }

  /** A rotation is a permutation of that one queue: entry `i` goes to the end. */
  lemma RotatedContents(n: Nodes<nat>, i: nat, t: nat)
    requires NodesOk(n) && i < |n.busy| && |n.free| > 0 && n.busy[i] in n.data && n.data[n.busy[i]] == t
    ensures NodesOk(RotatedNodes(n, i, t))
    ensures forall k :: 0 <= k < |n.busy| ==> n.busy[k] in n.data
    ensures var c := Contents(n); Contents(RotatedNodes(n, i, t)) == c[..i] + c[i + 1..] + [t]
  {
    BusyHasData(n);
    InsertedOk(n, |n.busy|, t);
    ErasedOk(Pushed(n, t), i);
    AppendThenDrop(Contents(n), Contents(Pushed(n, t)), i, t);
  }

  lemma AppendThenDrop(c: seq<nat>, p: seq<nat>, i: nat, t: nat)
    requires i < |c| && p == c[..|c|] + [t] + c[|c|..]
    ensures p[..i] + p[i + 1..] == c[..i] + c[i + 1..] + [t]
  {
    assert p == c + [t];
  }

  lemma RotatedQueue(thr: seq<Thread>, q: Queue, n: Nodes<nat>, i: nat, t: nat, thr': seq<Thread>)
    requires QueueOk(thr, q, n) && q.ReadyQ? && i < |n.busy| && |n.free| > 0 && t < |thr|
    requires n.busy[i] == thr[t].iter && n.busy[i] in n.data && n.data[n.busy[i]] == t
    requires thr' == thr[t := thr[t].(timeslice := TIMESLICE, iter := n.free[0])]
    ensures QueueOk(thr', q, RotatedNodes(n, i, t))
  {
    RotatedContents(n, i, t);
    var e := RotatedNodes(n, i, t);
    assert EntryOk(thr, q, n, i);
    NodeApart(n);
    forall k | 0 <= k < |e.busy| ensures EntryOk(thr', q, e, k) { RotatedEntry(thr, q, n, i, t, thr', k); }
  }

  lemma RotatedEntry(thr: seq<Thread>, q: Queue, n: Nodes<nat>, i: nat, t: nat, thr': seq<Thread>, k: nat)
    requires QueueOk(thr, q, n) && q.ReadyQ? && i < |n.busy| && |n.free| > 0 && t < |thr| && k < |n.busy|
    requires n.busy[i] == thr[t].iter && n.busy[i] in n.data && n.data[n.busy[i]] == t
    requires thr' == thr[t := thr[t].(timeslice := TIMESLICE, iter := n.free[0])]
    ensures EntryOk(thr', q, RotatedNodes(n, i, t), k)
  {
    assert EntryOk(thr, q, n, i);
    NodeApart(n);
    if k < |n.busy| - 1 {
      assert EntryOk(thr, q, n, if k < i then k else k + 1);
      assert RotatedNodes(n, i, t).busy[k] == n.busy[if k < i then k else k + 1];
    } else {
      assert RotatedNodes(n, i, t).busy[k] == n.free[0];
    }
  }

  lemma RotatedOk(s: Sys, t: nat)
    requires Partition(s) && t < THREADS && s.thr[t].state == Ready && |s.que[ReadyQ(s.thr[t].prio)].free| > 0
    ensures Partition(Rotated(s, t)) && Became(s, Rotated(s, t), t, s.thr[t].(timeslice := TIMESLICE))
    ensures forall q {:trigger Rotated(s, t).que[q]} ::
              q in s.que && q != ReadyQ(s.thr[t].prio) ==> Rotated(s, t).que[q] == s.que[q]
  {
    var q := ReadyQ(s.thr[t].prio);
    var n := s.que[q];
    assert Home(s, t);
    if |n.busy| > 1 {
      var i := IndexOf(n.busy, s.thr[t].iter);
      var m := Rotated(s, t);
      forall r | r in m.que ensures QueueOk(m.thr, r, m.que[r]) {
        assert QueueOk(s.thr, r, s.que[r]);
        if r == q { RotatedQueue(s.thr, q, n, i, t, m.thr); } else { RotatedElsewhere(s, t, r, m.thr); }
      }
      forall u | 0 <= u < THREADS ensures Home(m, u) { RotatedHome(s, t, u); }
      forall p: nat | p < PRIOS ensures BitOk(m.bits, m.que, p) { assert BitOk(s.bits, s.que, p); }
    } else {
      SameQueue(s, t, s.thr[t].(timeslice := TIMESLICE));
    }
  }

  lemma {:induction false} RotatedLine(s: Sys, t: nat)
    requires Partition(s) && t < THREADS && s.thr[t].state == Ready && |s.que[ReadyQ(s.thr[t].prio)].free| > 0
    ensures Partition(Rotated(s, t)) && ToTheEnd(s, Rotated(s, t), t)
  {
    RotatedOk(s, t);
    var q := ReadyQ(s.thr[t].prio);
    var n := s.que[q];
    LineMembers(s, q);
    LineMembers(Rotated(s, t), q);
    assert Home(s, t);
    var i := IndexOf(n.busy, s.thr[t].iter);
    assert Line(s, q)[i] == t;
    RotatedContents(n, i, t);
  }

  lemma RotatedElsewhere(s: Sys, t: nat, q: Queue, thr': seq<Thread>)
    requires Partition(s) && t < THREADS && q in s.que && q != QueueOf(s.thr[t])
    requires |thr'| == |s.thr| && forall i {:trigger thr'[i]} :: 0 <= i < |thr'| && i != t ==> thr'[i] == s.thr[i]
    ensures QueueOk(thr', q, s.que[q])
  {
    assert QueueOk(s.thr, q, s.que[q]);
    forall i | 0 <= i < |s.que[q].busy|
      ensures s.que[q].busy[i] in s.que[q].data && s.que[q].data[s.que[q].busy[i]] != t
    {
      assert EntryOk(s.thr, q, s.que[q], i);
    }
    QueueKept(s.thr, thr', q, s.que[q], t);
  }

  lemma RotatedHome(s: Sys, t: nat, u: nat)
    requires Partition(s) && t < THREADS && u < THREADS && s.thr[t].state == Ready
    requires |s.que[ReadyQ(s.thr[t].prio)].free| > 0 && |s.que[ReadyQ(s.thr[t].prio)].busy| > 1
    ensures Home(Rotated(s, t), u)
  {
    var q := ReadyQ(s.thr[t].prio);
    assert QueueOk(s.thr, q, s.que[q]);
    assert Home(s, t) && Home(s, u);
    RotatedMembers(s.que[q], IndexOf(s.que[q].busy, s.thr[t].iter), t);
  }

  /** A rotation replaces the node of `t` by the first free one. */
  lemma RotatedMembers(n: Nodes<nat>, i: nat, t: nat)
    requires NodesOk(n) && i < |n.busy| && |n.free| > 0
    ensures forall x :: x in n.busy && x != n.busy[i] ==> x in RotatedNodes(n, i, t).busy && x != n.free[0]
    ensures n.free[0] in RotatedNodes(n, i, t).busy
  {
    NodeApart(n);
    InsertedDistinct(n, |n.busy|, t);
    WithMembers(n.busy, |n.busy|, n.free[0]);
    assert Pushed(n, t).busy[i] == n.busy[i];
    WithoutMembers(Pushed(n, t).busy, i);
  }

  /** A thread that moves to another queue leaves a gap and nothing else. */
  lemma MovedFrom(s: Sys, t: nat, r: Thread)
    requires Partition(s) && t < THREADS && QueueOf(s.thr[t]) != NoQ && QueueOf(r) != QueueOf(s.thr[t])
    ensures var q := QueueOf(s.thr[t]);
            && q in s.que && s.thr[t].iter in s.que[q].busy && q in Moved(s, t, r).que
            && Moved(s, t, r).que[q] == Erased(s.que[q], IndexOf(s.que[q].busy, s.thr[t].iter))
  {
    assert Home(s, t);
  }

  predicate AllReadyAt(s: Sys, p: nat) {
    forall t {:trigger s.thr[t]} :: 0 <= t < |s.thr| ==> s.thr[t].state == Ready && s.thr[t].prio == p
  }

  lemma {:induction false} SeqCovers(c: seq<nat>, n: nat)
    requires forall t: nat :: t < n ==> t in c
    ensures |c| >= n
    decreases n
  {
    if n > 0 {
      assert n - 1 in c;
      var i :| 0 <= i < |c| && c[i] == n - 1;
      var d := c[..i] + c[i + 1..];
      forall t: nat | t < n - 1 ensures t in d { assert t in c && c == c[..i] + [c[i]] + c[i + 1..]; }
      SeqCovers(d, n - 1);
    }
  }

  /** A ready queue lacks a free node exactly if all threads are Ready at its priority. */
  lemma FullQueue(s: Sys, p: nat)
    requires Partition(s) && p < PRIOS
    ensures s.que[ReadyQ(p)].free == [] <==> AllReadyAt(s, p)
  {
    var n := s.que[ReadyQ(p)];
    assert QueueOk(s.thr, ReadyQ(p), n);
    QueueDistinct(s.thr, ReadyQ(p), n);
    if n.free == [] {
      forall t: nat | t < THREADS ensures s.thr[t].state == Ready && s.thr[t].prio == p { InFullQueue(s, p, t); }
    }
    if AllReadyAt(s, p) {
      var c: seq<nat> := Contents(n);
      forall t: nat | t < THREADS ensures t in c { InItsQueue(s, p, t); }
      SeqCovers(c, THREADS);
    }
  }

  lemma InItsQueue(s: Sys, p: nat, t: nat)
    requires Partition(s) && p < PRIOS && t < THREADS && s.thr[t].state == Ready && s.thr[t].prio == p
    ensures forall i :: 0 <= i < |s.que[ReadyQ(p)].busy| ==> s.que[ReadyQ(p)].busy[i] in s.que[ReadyQ(p)].data
    ensures t in Contents(s.que[ReadyQ(p)])
  {
    var n := s.que[ReadyQ(p)];
    assert Home(s, t);
    assert QueueOk(s.thr, ReadyQ(p), n);
    BusyHasData(n);
    assert Contents(n)[IndexOf(n.busy, s.thr[t].iter)] == t;
  }

  lemma InFullQueue(s: Sys, p: nat, t: nat)
    requires Partition(s) && p < PRIOS && s.que[ReadyQ(p)].free == [] && t < THREADS
    ensures s.thr[t].state == Ready && s.thr[t].prio == p
  {
    var n := s.que[ReadyQ(p)];
    assert QueueOk(s.thr, ReadyQ(p), n);
    QueueDistinct(s.thr, ReadyQ(p), n);
    var c: seq<nat> := Contents(n);
    if i :| 0 <= i < |c| && c[i] == t {
      assert EntryOk(s.thr, ReadyQ(p), n, i);
    } else {
      forall i | 0 <= i < |c| ensures c[i] < THREADS && c[i] != t { assert EntryOk(s.thr, ReadyQ(p), n, i); }
      OthersCount(c, THREADS, t);
      assert false;
    }
  }
}
