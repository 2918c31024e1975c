/** `Threads_t` and the queue side of `Thread_t`: every operation keeps the partition of threads. */
module Threads {
  import opened Options
  import opened NodeList
  import opened Queues

  /** The first node of a list, or the null iterator. */
  function First(n: Nodes<nat>): nat {
    if n.busy == [] then 0 else n.busy[0]
  }

  /** `it + 1`. */
  function Successor(n: Nodes<nat>, it: nat): nat
    requires it in n.busy
  {
    var i := IndexOf(n.busy, it);
    if i + 1 < |n.busy| then n.busy[i + 1] else 0
  }

  function Deadline(limit: RelTime, now: nat): nat {
    match limit
    case Zero => now
    case Never => NEVER
    case After(usec) => now + usec
  }

  /** The time that a thread granted itself at `now` is over at `later`. */
  predicate Elapsed(limit: RelTime, now: nat, later: nat) {
    match limit
    case Zero => now != NEVER && later >= now
    case Never => false
    case After(usec) => now + usec != NEVER && later >= now + usec
  }

  /** A thread that `check_ipc_timeouts` has woken. */
  function Expired(t: Thread): Thread {
    InState(t.(failed := true), Ready)
  }

  ghost predicate ReadyAt(s: Sys, p: nat) {
    exists t :: 0 <= t < |s.thr| && s.thr[t].state == Ready && s.thr[t].prio == p
  }

  /** A queue of ready threads is empty exactly when no thread is Ready at its priority. */
  lemma ReadyQueueMeans(s: Sys, p: nat)
    requires Partition(s) && p < PRIOS
    ensures s.que[ReadyQ(p)].busy != [] <==> ReadyAt(s, p)
  {
    var n := s.que[ReadyQ(p)];
    assert QueueOk(s.thr, ReadyQ(p), n);
    if n.busy != [] { assert EntryOk(s.thr, ReadyQ(p), n, 0); }
    if t :| 0 <= t < |s.thr| && s.thr[t].state == Ready && s.thr[t].prio == p { assert Home(s, t); }
  }

  lemma FrontReady(s: Sys, p: nat)
    requires Partition(s) && p < PRIOS && ReadyAt(s, p)
    ensures var n := s.que[ReadyQ(p)];
            && n.busy != [] && n.busy[0] in n.data && n.data[n.busy[0]] < THREADS
            && s.thr[n.data[n.busy[0]]].state == Ready && s.thr[n.data[n.busy[0]]].prio == p
  {
    ReadyQueueMeans(s, p);
    assert QueueOk(s.thr, ReadyQ(p), s.que[ReadyQ(p)]);
    assert EntryOk(s.thr, ReadyQ(p), s.que[ReadyQ(p)], 0);
  }

  /** Thread `t` is the first of the ready queue of priority `p`. */
  predicate Front(s: Sys, p: nat, t: nat) {
    ReadyQ(p) in s.que && var n := s.que[ReadyQ(p)];
    n.busy != [] && n.busy[0] in n.data && n.data[n.busy[0]] == t
  }

  /**
   The first thread of the line is chosen; if its timeslice is used up, it gets a new one, goes to
   the end, and the second is chosen.
   */
  ghost predicate Picked(s: Sys, s': Sys, p: nat, t: nat)
    requires Partition(s) && Partition(s') && p < PRIOS
  {
    var c := Line(s, ReadyQ(p));
    && |c| > 0 && c[0] < THREADS && s.thr[c[0]].state == Ready && s.thr[c[0]].prio == p
    && (if s.thr[c[0]].timeslice == 0 then
          && t == (if |c| > 1 then c[1] else c[0])
          && Became(s, s', c[0], s.thr[c[0]].(timeslice := TIMESLICE)) && ToTheEnd(s, s', c[0])
        else t == c[0] && s' == s)
  }

  /**
   A rotation would need a node and there is none: all threads are Ready at one priority and the
   first of them has used up its timeslice. This is when `get_highest_prio_ready_thread` panics.
   */
  predicate CannotRotate(s: Sys, p: nat) {
    AllReadyAt(s, p) && exists u: nat :: u < |s.thr| && Front(s, p, u) && s.thr[u].timeslice == 0
  }

  /** No thread is Ready at a priority whose bit is clear. */
  lemma BitMeans(s: Sys, g: nat, j: nat)
    requires Partition(s) && g < 8 && j < 32
    ensures Bit(s.bits[g], j) <==> ReadyAt(s, 32 * g + j)
  {
    assert BitOk(s.bits, s.que, 32 * g + j);
    assert (32 * g + j) / 32 == g && (32 * g + j) % 32 == j;
    ReadyQueueMeans(s, 32 * g + j);
  }

  class Threads {
    var thr: seq<Thread>
    var que: map<Queue, Nodes<nat>>
    var bits: seq<nat>

    function S(): Sys
      reads this
    {
      Sys(thr, que, bits)
    }

    ghost predicate Valid()
      reads this
    {
      Partition(S())
    }

    /** At boot every thread is idle and every queue is empty. */
    constructor ()
      ensures Valid() && forall t :: 0 <= t < THREADS ==> thr[t].state == Idle && thr[t].globid == Nil
    {
      var idle := Thread(Idle, 0, 0, 0, 0, Nil, 0, Nil, Nil, false, false, User);
      thr := seq(THREADS, _ => idle);
      que := (map p: nat | p < PRIOS :: ReadyQ(p) := EmptyQueue())
             [SendQ := EmptyQueue()][SndWaitQ := EmptyQueue()][RcvWaitQ := EmptyQueue()];
      bits := seq(8, _ => 0);
      new;
      BootOk(S(), idle);
    }

    // ---- queues ------------------------------------------------------------------------------

    method DelReady(t: nat)
      requires Valid() && t < THREADS && thr[t].state == Ready
      modifies this
      ensures S() == Left(old(S()), t)
    {
      assert Home(S(), t);
      var it := thr[t].iter;
      var q := ReadyQ(thr[t].prio);
      var prio := thr[que[q].data[it]].prio;
      que := que[q := Erased(que[q], IndexOf(que[q].busy, it))];
      if que[q].busy == [] {
        var g := prio / 32;
        bits := bits[g := ClearBit(bits[g], prio - g * 32)];
      }
      thr := thr[t := thr[t].(iter := 0)];
    }

    method AddReady(t: nat)
      requires PartitionBut(S(), t) && thr[t].state == Ready
      modifies this
      ensures S() == Entered(old(S()), t) && Valid()
      ensures var q := ReadyQ(old(thr)[t].prio);
              q in old(que) && q in que && Line(S(), q) == Line(old(S()), q) + [t]
    {
      EnteredLine(S(), t, ReadyQ(thr[t].prio));
      var prio := thr[t].prio;
      var q := ReadyQ(prio);
      assert q in que;
      Room(S(), t, q);
      var it := que[q].free[0];
      que := que[q := Pushed(que[q], t)];
      var g := prio / 32;
      bits := bits[g := SetBit(bits[g], prio - g * 32)];
      thr := thr[t := thr[t].(iter := it)];
    }

    /** `del_send`, `del_snd_timeout_waiting` and `del_rcv_timeout_waiting`. */
    method DelBlocked(t: nat, q: Queue)
      requires Valid() && t < THREADS && q == QueueOf(thr[t]) && q != NoQ && !q.ReadyQ?
      modifies this
      ensures S() == Left(old(S()), t)
    {
      assert Home(S(), t);
      que := que[q := Erased(que[q], IndexOf(que[q].busy, thr[t].iter))];
      thr := thr[t := thr[t].(iter := 0)];
    }

    method AddSend(t: nat)
      requires PartitionBut(S(), t) && QueueOf(thr[t]) == SendQ
      modifies this
      ensures S() == Entered(old(S()), t) && Valid()
      ensures SendQ in old(que) && SendQ in que && Line(S(), SendQ) == Line(old(S()), SendQ) + [t]
    {
      EnteredLine(S(), t, SendQ);
      assert SendQ in que;
      Room(S(), t, SendQ);
      var it := que[SendQ].free[0];
      que := que[SendQ := Pushed(que[SendQ], t)];
      thr := thr[t := thr[t].(iter := it)];
    }

    /** `add_timeout_waiting`: before the first thread with a later deadline. */
    method AddWaiting(t: nat, q: Queue)
      requires PartitionBut(S(), t) && q == QueueOf(thr[t]) && (q.SndWaitQ? || q.RcvWaitQ?)
      modifies this
      ensures S() == Entered(old(S()), t) && Valid()
      ensures q in old(que) && q in que && Joined(Line(old(S()), q), S(), t, q)
    {
      EnteredLine(S(), t, q);
      assert q in que;
      Room(S(), t, q);
      var n := que[q];
      var pos := 0;
      while pos < |n.busy| && !Later(thr, n, pos, t)
        invariant pos <= |n.busy| && WaitPos(thr, n, t, 0) == WaitPos(thr, n, t, pos)
      {
        pos := pos + 1;
      }
      que := que[q := Inserted(n, pos, t)];
      thr := thr[t := thr[t].(iter := n.free[0])];
    }

    // ---- state and priority --------------------------------------------------------------------

    method LeaveQueue(t: nat)
      requires Valid() && t < THREADS
      modifies this
      ensures S() == Left(old(S()), t) && PartitionBut(S(), t)
    {
      LeftOk(S(), t);
      var r := thr[t];
      if r.state == Ready {
        DelReady(t);
      } else if r.state == SendIpc && r.timeout != NEVER {
        DelBlocked(t, SndWaitQ);
      } else if r.state == SendIpc || r.state == SendPfault || r.state == SendException {
        DelBlocked(t, SendQ);
      } else if r.state == ReceiveIpc && r.timeout != NEVER {
        DelBlocked(t, RcvWaitQ);
      } else {
        assert !(NoQ in que);
      }
    }

    method EnterQueue(t: nat)
      requires PartitionBut(S(), t)
      modifies this
      ensures S() == Entered(old(S()), t) && Valid()
    {
      EnteredOk(S(), t);
      var r := thr[t];
      if r.state == Ready {
        AddReady(t);
      } else if r.state == SendIpc && r.timeout != NEVER {
        AddWaiting(t, SndWaitQ);
      } else if r.state == SendIpc || r.state == SendPfault || r.state == SendException {
        AddSend(t);
      } else if r.state == ReceiveIpc && r.timeout != NEVER {
        AddWaiting(t, RcvWaitQ);
      } else {
        assert !(NoQ in que);
      }
    }

    /** `state(s)`: the thread changes queues along with its state. */
    method State(t: nat, st: State)
      requires Valid() && t < THREADS && thr[t].state != st
      modifies this
      ensures Valid() && S() == Moved(old(S()), t, InState(old(thr)[t], st))
      ensures Became(old(S()), S(), t, InState(old(thr)[t], st)) && AllRequeued(old(S()), S(), t)
      ensures thr[t].state == st
      ensures st == Ready ==>
                thr[t].timeslice == TIMESLICE && thr[t].timeout == 0 && thr[t].to == Nil && thr[t].from == Nil
    {
      MovedOk(S(), t, InState(thr[t], st));
      MovedLines(S(), t, InState(thr[t], st));
      LeaveQueue(t);
      LeftOk(old(S()), t);
      BetweenQueues(S(), t, InState(thr[t], st));
      thr := thr[t := InState(thr[t], st)];
      EnterQueue(t);
    }

    /** `prio(v)`: a ready thread changes queues along with its priority. */
    method Prio(t: nat, v: nat)
      requires Valid() && t < THREADS && v < PRIOS
      modifies this
      ensures Valid() && Became(old(S()), S(), t, old(thr)[t].(prio := v))
      ensures if old(thr)[t].state == Ready then AllRequeued(old(S()), S(), t) else que == old(que)
    {
      if thr[t].state == Ready {
        MovedOk(S(), t, thr[t].(prio := v));
        MovedLines(S(), t, thr[t].(prio := v));
        LeftOk(S(), t);
        DelReady(t);
        BetweenQueues(S(), t, thr[t].(prio := v));
        thr := thr[t := thr[t].(prio := v)];
        EnteredOk(S(), t);
        AddReady(t);
      } else {
        SameQueue(S(), t, thr[t].(prio := v));
        thr := thr[t := thr[t].(prio := v)];
      }
    }

    /** `save_snd_phase`: sets deadline and destination, then blocks. */
    method SaveSndPhase(t: nat, limit: RelTime, now: nat, to: Id)
      requires Valid() && t < THREADS && thr[t].state == Ready
      modifies this
      ensures Valid()
      ensures Became(old(S()), S(), t, old(thr)[t].(timeout := Deadline(limit, now), to := to, state := SendIpc))
      ensures forall later: nat {:trigger Elapsed(limit, now, later)} ::
                Due(thr, SndWaitQ, later, t) <==> Elapsed(limit, now, later)
    {
      var r := thr[t].(timeout := Deadline(limit, now), to := to);
      ReadyFields(S(), t, r);
      thr := thr[t := r];
      State(t, SendIpc);
    }

    /** `save_rcv_phase`. */
    method SaveRcvPhase(t: nat, limit: RelTime, now: nat, fromSpec: Id)
      requires Valid() && t < THREADS && thr[t].state == Ready
      modifies this
      ensures Valid()
      ensures Became(old(S()), S(), t, old(thr)[t].(timeout := Deadline(limit, now), from := fromSpec,
                                                    state := ReceiveIpc))
      ensures forall later: nat {:trigger Elapsed(limit, now, later)} ::
                Due(thr, RcvWaitQ, later, t) <==> Elapsed(limit, now, later)
    {
      var r := thr[t].(timeout := Deadline(limit, now), from := fromSpec);
      ReadyFields(S(), t, r);
      thr := thr[t := r];
      State(t, ReceiveIpc);
    }

    /** `create`: an idle slot becomes an inactive thread. */
    method Create(t: nat, globid: Id, task: nat, prio: nat)
      requires Valid() && t < THREADS && prio < PRIOS && thr[t].state == Idle
      modifies this
      ensures Valid()
      ensures Became(old(S()), S(), t, old(thr)[t].(globid := globid, task := task, prio := prio, state := Inactive))
    {
      SameQueue(S(), t, thr[t].(globid := globid, task := task));
      thr := thr[t := thr[t].(globid := globid, task := task)];
      Prio(t, prio);
      State(t, Inactive);
    }

    /** `remove`: whatever the thread was doing, it leaves its queue. */
    method Remove(t: nat)
      requires Valid() && t < THREADS && thr[t].state != Idle
      modifies this
      ensures Valid() && Became(old(S()), S(), t, old(thr)[t].(state := Idle))
    {
      State(t, Idle);
    }

    // ---- scheduling ----------------------------------------------------------------------------

    /** The list operations of `timeslice_expired`. */
    method Rotate(t: nat)
      requires Valid() && t < THREADS && thr[t].state == Ready && |que[ReadyQ(thr[t].prio)].free| > 0
      modifies this
      ensures S() == Rotated(old(S()), t)
    {
      assert Home(S(), t);
      var q := ReadyQ(thr[t].prio);
      thr := thr[t := thr[t].(timeslice := TIMESLICE)];
      var it := thr[t].iter;
      if |que[q].busy| > 1 {
        var i := IndexOf(que[q].busy, it);
        var node := que[q].free[0];
        que := que[q := Pushed(que[q], t)];
        thr := thr[t := thr[t].(iter := node)];
        que := que[q := Erased(que[q], i)];
      }
      assert que == Rotated(old(S()), t).que && thr == Rotated(old(S()), t).thr;
    }

    /** `timeslice_expired`: a new timeslice, and the end of the line. */
    method TimesliceExpired(t: nat) returns (it: nat)
      requires Valid() && t < THREADS && thr[t].state == Ready && thr[t].timeslice == 0
      requires |que[ReadyQ(thr[t].prio)].free| > 0
      modifies this
      ensures Valid() && it == First(que[ReadyQ(thr[t].prio)]) && bits == old(bits)
      ensures Became(old(S()), S(), t, old(thr)[t].(timeslice := TIMESLICE)) && ToTheEnd(old(S()), S(), t)
    {
      RotatedOk(S(), t);
      RotatedLine(S(), t);
      Rotate(t);
      it := First(que[ReadyQ(thr[t].prio)]);
    }

    /** The thread at the front of a ready queue, after a rotation when its timeslice is used up. */
    method PickFrom(p: nat) returns (t: nat)
      requires Valid() && p < PRIOS && ReadyAt(S(), p) && !CannotRotate(S(), p)
      modifies this
      ensures Valid() && t < THREADS && thr[t].state == Ready && thr[t].prio == p
      ensures Picked(old(S()), S(), p, t)
      ensures forall u :: 0 <= u < THREADS ==> thr[u].state == old(thr)[u].state && thr[u].prio == old(thr)[u].prio
    {
      var q := ReadyQ(p);
      FrontReady(S(), p);
      t := que[q].data[que[q].busy[0]];
      assert Front(S(), p, t);
      if thr[t].timeslice == 0 {
        FullQueue(S(), p);
        var it := TimesliceExpired(t);
        FrontReady(S(), p);
        t := que[q].data[it];
        assert t == Line(S(), q)[0];
      }
    }

    /** `get_highest_prio_ready_thread`: a Ready thread of maximal priority. */
    method HighestReady() returns (t: nat)
      requires Valid() && (exists u :: 0 <= u < THREADS && thr[u].state == Ready)
      requires forall p: nat :: p < PRIOS ==> !CannotRotate(S(), p)
      modifies this
      ensures Valid() && t < THREADS && thr[t].state == Ready
      ensures forall u :: 0 <= u < THREADS && old(thr)[u].state == Ready ==> old(thr)[u].prio <= thr[t].prio
      ensures thr[t].prio < PRIOS && Picked(old(S()), S(), thr[t].prio, t)
    {
      var p := TopBit();
      t := PickFrom(p);
    }

    /** The two-level scan over the ready bits. */
    method TopBit() returns (p: nat)
      requires Valid() && (exists u :: 0 <= u < THREADS && thr[u].state == Ready)
      ensures p < PRIOS && ReadyAt(S(), p)
      ensures forall u :: 0 <= u < THREADS && thr[u].state == Ready ==> thr[u].prio <= p
    {
      var i := 7;
      while i >= 0
        invariant -1 <= i <= 7
        invariant forall r: nat :: 32 * (i + 1) <= r < PRIOS ==> !ReadyAt(S(), r)
      {
        if bits[i] != 0 {
          var j := 31;
          while j >= 0
            invariant -1 <= j <= 31
            invariant forall r: nat :: 32 * i + j + 1 <= r < PRIOS ==> !ReadyAt(S(), r)
          {
            BitMeans(S(), i, j);
            if Bit(bits[i], j) {
              p := 32 * i + j;
              NoneAbove(S(), p);
              return;
            }
            j := j - 1;
          }
        } else {
          forall r: nat | 32 * i <= r < PRIOS ensures !ReadyAt(S(), r) { ZeroWord(S(), i, r); }
        }
        i := i - 1;
      }
      NobodyReady(S());
      assert false;
    }

    // ---- timeouts ------------------------------------------------------------------------------

    /** One turn of the scan: the first waiting thread is woken. */
    method WakeFirst(q: Queue, it: nat) returns (next: nat)
      requires Valid() && (q.SndWaitQ? || q.RcvWaitQ?) && que[q].busy != [] && it == que[q].busy[0]
      modifies this
      ensures Valid() && next == First(que[q]) && (next == 0 <==> que[q].busy == [])
      ensures it in old(que)[q].data && old(que)[q].data[it] < THREADS
      ensures |que[q].busy| < |old(que)[q].busy| && OthersKept(old(que), que, q)
      ensures var t := old(que)[q].data[it]; QueueOf(old(thr)[t]) == q && Became(old(S()), S(), t, Expired(old(thr)[t]))
    {
      assert QueueOk(thr, q, que[q]);
      assert EntryOk(thr, q, que[q], 0);
      var t := que[q].data[it];
      SameQueue(S(), t, thr[t].(failed := true));
      thr := thr[t := thr[t].(failed := true)];
      next := Successor(que[q], it);
      FirstLeaves(S(), q, t, InState(thr[t], Ready));
      State(t, Ready);
    }

    /** `check_ipc_timeouts` on one list: wakes exactly the threads whose deadline has passed. */
    method CheckList(q: Queue, now: nat) returns (woken: Option<nat>)
      requires Valid() && (q.SndWaitQ? || q.RcvWaitQ?)
      modifies this
      ensures Valid()
      ensures forall u {:trigger thr[u]} :: 0 <= u < THREADS ==> Scanned(old(thr)[u], thr[u], q, now)
      ensures forall u {:trigger thr[u]} :: 0 <= u < THREADS && QueueOf(thr[u]) == q ==> thr[u].timeout > now
      ensures Answers(old(S()), q, now, woken) && OthersKept(old(que), que, q)
    {
      woken := None;
      var it := First(que[q]);
      ScanStarts(S(), q, now);
      while it != 0
        invariant Valid() && it == First(que[q]) && (it == 0 <==> que[q].busy == [])
        invariant ScanState(old(S()), S(), q, now, woken)
        decreases |que[q].busy|
      {
        FirstIsEarliest(S(), q);
        var t := que[q].data[it];
        if thr[t].timeout > now {
          break;
        }
        ghost var was, w := S(), woken;
        if woken.None? {
          woken := Some(t);
        }
        it := WakeFirst(q, it);
        ScanGoesOn(old(S()), was, S(), q, now, t, w);
      }
      ScanDone(old(S()), S(), q, now, woken);
    }

    /** `check_ipc_timeouts`: both lists; the answer is the woken thread to prefer. */
    method CheckTimeouts(now: nat) returns (next: Option<nat>)
      requires Valid()
      modifies this
      ensures Valid()
      ensures forall u {:trigger thr[u]} :: 0 <= u < THREADS ==> TimedOut(old(thr)[u], thr[u], now)
      ensures NextToRun(old(S()), now, next)
    {
      var next1 := CheckList(SndWaitQ, now);
      ghost var mid := S();
      var next2 := CheckList(RcvWaitQ, now);
      TwoScans(old(thr), mid.thr, thr, now);
      AnswersKept(old(S()), mid, now, next2);
      if next1.Some? && next2.Some? {
        next := if thr[next1.value].prio > thr[next2.value].prio then next1 else next2;
      } else if next1.Some? {
        next := next1;
      } else {
        next := next2;
      }
      BetterOfTwo(old(S()), now, next1, next2, next);
    }
  }

  /** The queues other than `q` and those of ready threads are as before. */
  ghost predicate OthersKept(que: map<Queue, Nodes<nat>>, que': map<Queue, Nodes<nat>>, q: Queue) {
    forall r {:trigger que'[r]} {:trigger r in que'} ::
      r in que && r != q && !r.ReadyQ? ==> r in que' && que'[r] == que[r]
  }

  /** Thread `u` waits in queue `q` and its deadline has passed. */
  ghost predicate Due(thr: seq<Thread>, q: Queue, now: nat, u: nat) {
    u < |thr| && QueueOf(thr[u]) == q && thr[u].timeout <= now
  }

  /** The scan of one list answers its first thread if that is due, and nobody exactly if no thread is. */
  ghost predicate Answers(s: Sys, q: Queue, now: nat, woken: Option<nat>)
    requires Partition(s) && q in s.que
  {
    && (woken.None? <==> forall u {:trigger Due(s.thr, q, now, u)} :: !Due(s.thr, q, now, u))
    && (woken.Some? ==> HeadDue(s, q, now, woken.value))
  }

  /**
   The thread to prefer after a timeout scan: nobody exactly if no thread is due; else the answer of
   the one list, or of the two answers the sender if its priority is higher and the receiver if not.
   */
  ghost predicate NextToRun(s: Sys, now: nat, next: Option<nat>)
    requires Partition(s)
  {
    && SndWaitQ in s.que && RcvWaitQ in s.que
    && (next.None? <==>
          forall q, u {:trigger Due(s.thr, q, now, u)} :: (q == SndWaitQ || q == RcvWaitQ) ==> !Due(s.thr, q, now, u))
    && exists a, b :: Answers(s, SndWaitQ, now, a) && Answers(s, RcvWaitQ, now, b) && Preferred(s.thr, a, b, next)
  }

  ghost predicate Preferred(thr: seq<Thread>, a: Option<nat>, b: Option<nat>, next: Option<nat>) {
    && (next == a || next == b)
    && (a.Some? && b.None? ==> next == a) && (a.None? && b.Some? ==> next == b)
    && (a.Some? && b.Some? && a.value < |thr| && b.value < |thr| ==>
          (next == a <==> thr[a.value].prio > thr[b.value].prio))
  }

  lemma AnswersKept(s: Sys, m: Sys, now: nat, b: Option<nat>)
    requires Partition(s) && Partition(m) && RcvWaitQ in m.que && Answers(m, RcvWaitQ, now, b)
    requires OthersKept(s.que, m.que, SndWaitQ)
    requires forall u {:trigger m.thr[u]} :: 0 <= u < THREADS ==> Scanned(s.thr[u], m.thr[u], SndWaitQ, now)
    ensures RcvWaitQ in s.que && Answers(s, RcvWaitQ, now, b)
  {
    assert RcvWaitQ in s.que;
    assert m.que[RcvWaitQ] == s.que[RcvWaitQ];
    forall u: nat | u < THREADS
      ensures QueueOf(m.thr[u]) == RcvWaitQ <==> QueueOf(s.thr[u]) == RcvWaitQ
      ensures QueueOf(s.thr[u]) == RcvWaitQ ==> m.thr[u] == s.thr[u]
    {
      assert Scanned(s.thr[u], m.thr[u], SndWaitQ, now);
    }
    forall u: nat ensures Due(m.thr, RcvWaitQ, now, u) <==> Due(s.thr, RcvWaitQ, now, u) {}
  }

  lemma BetterOfTwo(s: Sys, now: nat, a: Option<nat>, b: Option<nat>, next: Option<nat>)
    requires Partition(s) && SndWaitQ in s.que && RcvWaitQ in s.que
    requires Answers(s, SndWaitQ, now, a) && Answers(s, RcvWaitQ, now, b) && Preferred(s.thr, a, b, next)
    ensures NextToRun(s, now, next)
  {
  }

  /** After the scan no waiting thread has a deadline that has passed; no other thread is touched. */
  ghost predicate TimedOut(was: Thread, t: Thread, now: nat) {
    if (QueueOf(was).SndWaitQ? || QueueOf(was).RcvWaitQ?) && was.timeout <= now
    then t == Expired(was).(iter := t.iter) else t == was
  }

  lemma TwoScans(a: seq<Thread>, b: seq<Thread>, c: seq<Thread>, now: nat)
    requires |a| == |b| == |c|
    requires forall u {:trigger b[u]} :: 0 <= u < |a| ==> Scanned(a[u], b[u], SndWaitQ, now)
    requires forall u {:trigger c[u]} :: 0 <= u < |a| ==> Scanned(b[u], c[u], RcvWaitQ, now)
    ensures forall u {:trigger c[u]} :: 0 <= u < |a| ==> TimedOut(a[u], c[u], now)
  {
    forall u | 0 <= u < |a| ensures TimedOut(a[u], c[u], now) {
      assert Scanned(a[u], b[u], SndWaitQ, now) && Scanned(b[u], c[u], RcvWaitQ, now);
    }
  }

  function NodeIds(): set<nat> {
    Below(THREADS + 1) - {0}
  }

  /** A queue with all its nodes free. */
  function EmptyQueue(): Nodes<nat> {
    Nodes([], seq(THREADS, i requires 0 <= i < THREADS => i + 1), map x | x in NodeIds() :: 0)
  }

  lemma EmptyQueueOk(thr: seq<Thread>, q: Queue)
    ensures QueueOk(thr, q, EmptyQueue())
  {
    var n := EmptyQueue();
    forall x ensures x in n.data <==> x in n.busy || x in n.free {
      if x in n.data { assert n.free[x - 1] == x; }
    }
  }

  lemma BootOk(s: Sys, idle: Thread)
    requires |s.thr| == THREADS && |s.bits| == 8 && idle.state == Idle && idle.prio == 0
    requires forall t :: 0 <= t < THREADS ==> s.thr[t] == idle
    requires forall g :: 0 <= g < 8 ==> s.bits[g] == 0
    requires forall q :: q in s.que <==> IsQueue(q)
    requires forall q :: q in s.que ==> s.que[q] == EmptyQueue()
    ensures Partition(s)
  {
    forall q | q in s.que ensures QueueOk(s.thr, q, s.que[q]) { EmptyQueueOk(s.thr, q); }
    forall t | 0 <= t < THREADS ensures Home(s, t) {}
    forall p: nat | p < PRIOS ensures BitOk(s.bits, s.que, p) { NoBits(p % 32); }
  }

  /** What the scan makes of a thread: woken if it waited in `q` and its time is up, else untouched. */
  ghost predicate Scanned(was: Thread, t: Thread, q: Queue, now: nat) {
    if QueueOf(was) == q && was.timeout <= now then t == Expired(was).(iter := t.iter) else t == was
  }

  /** During the scan every thread has been dealt with or is untouched. */
  ghost predicate Scanning(was: seq<Thread>, thr: seq<Thread>, q: Queue, now: nat) {
    |thr| == |was| && forall u {:trigger thr[u]} :: 0 <= u < |thr| ==> Dealt(was[u], thr[u], q, now)
  }

  ghost predicate Dealt(was: Thread, t: Thread, q: Queue, now: nat) {
    Scanned(was, t, q, now) || t == was
  }

  /** The first thread of the line was due. */
  ghost predicate HeadDue(s: Sys, q: Queue, now: nat, t: nat)
    requires Partition(s) && q in s.que
  {
    && Line(s, q) != [] && t == Line(s, q)[0]
    && Due(s.thr, q, now, t) && Earliest(s.thr, q, t)
  }

  /** Between two turns of the scan that began in `s`. */
  ghost predicate ScanState(s: Sys, m: Sys, q: Queue, now: nat, woken: Option<nat>)
    requires Partition(s) && q in s.que
  {
    && Scanning(s.thr, m.thr, q, now) && OthersKept(s.que, m.que, q)
    && (woken.None? ==> m == s) && (woken.Some? ==> HeadDue(s, q, now, woken.value))
  }

  lemma ScanStarts(s: Sys, q: Queue, now: nat)
    requires Partition(s) && (q.SndWaitQ? || q.RcvWaitQ?)
    ensures q in s.que && ScanState(s, s, q, now, None) && (First(s.que[q]) == 0 <==> s.que[q].busy == [])
  {
    FirstIsEarliest(s, q);
    forall u | 0 <= u < THREADS ensures Dealt(s.thr[u], s.thr[u], q, now) {}
  }

  lemma ScanGoesOn(s: Sys, m: Sys, m': Sys, q: Queue, now: nat, t: nat, woken: Option<nat>)
    requires Partition(s) && Partition(m) && q in s.que && ScanState(s, m, q, now, woken)
    requires (q.SndWaitQ? || q.RcvWaitQ?) && q in m.que && HeadDue(m, q, now, t)
    requires Became(m, m', t, Expired(m.thr[t])) && OthersKept(m.que, m'.que, q)
    ensures ScanState(s, m', q, now, if woken.None? then Some(t) else woken)
  {
    assert Dealt(s.thr[t], m.thr[t], q, now);
    forall u | 0 <= u < |m.thr| ensures Dealt(s.thr[u], m'.thr[u], q, now) {
      if u != t { assert Dealt(s.thr[u], m.thr[u], q, now); }
    }
    forall r | r in s.que && r != q && !r.ReadyQ? ensures r in m'.que && m'.que[r] == s.que[r] {
      assert m.que[r] == s.que[r];
    }
  }

  /** When no thread that is left in the queue has a passed deadline, all have been dealt with. */
  lemma ScanDone(s: Sys, m: Sys, q: Queue, now: nat, woken: Option<nat>)
    requires Partition(s) && Partition(m) && q in s.que && ScanState(s, m, q, now, woken)
    requires q.SndWaitQ? || q.RcvWaitQ?
    requires q in m.que && (m.que[q].busy == [] || !HeadDue(m, q, now, Line(m, q)[0]))
    ensures forall u {:trigger m.thr[u]} :: 0 <= u < THREADS ==> Scanned(s.thr[u], m.thr[u], q, now)
    ensures forall u {:trigger m.thr[u]} :: 0 <= u < THREADS && QueueOf(m.thr[u]) == q ==> m.thr[u].timeout > now
    ensures Answers(s, q, now, woken) && OthersKept(s.que, m.que, q)
  {
    FirstIsEarliest(m, q);
    forall u | 0 <= u < THREADS ensures Scanned(s.thr[u], m.thr[u], q, now) {
      assert Dealt(s.thr[u], m.thr[u], q, now);
    }
    if woken.None? {
      forall u ensures !Due(s.thr, q, now, u) {}
    } else {
      assert Due(s.thr, q, now, woken.value);
    }
  }

  /** Thread `t` is in queue `q` and no thread there has an earlier deadline. */
  ghost predicate Earliest(thr: seq<Thread>, q: Queue, t: nat)
    requires t < |thr|
  {
    && QueueOf(thr[t]) == q
    && forall u {:trigger thr[u]} :: 0 <= u < |thr| && QueueOf(thr[u]) == q ==> thr[t].timeout <= thr[u].timeout
  }

  lemma FirstIsEarliest(s: Sys, q: Queue)
    requires Partition(s) && (q.SndWaitQ? || q.RcvWaitQ?)
    ensures q in s.que && (First(s.que[q]) == 0 <==> s.que[q].busy == [])
    ensures s.que[q].busy == [] ==> forall u :: 0 <= u < THREADS ==> QueueOf(s.thr[u]) != q
    ensures s.que[q].busy != [] ==>
              var n := s.que[q];
              && n.busy[0] in n.data && n.data[n.busy[0]] < THREADS && n.data[n.busy[0]] == Line(s, q)[0]
              && Earliest(s.thr, q, n.data[n.busy[0]])
  {
    assert q in s.que;
    var n := s.que[q];
    assert QueueOk(s.thr, q, n);
    if n.busy != [] { assert EntryOk(s.thr, q, n, 0); }
    forall u | 0 <= u < THREADS && QueueOf(s.thr[u]) == q
      ensures n.busy != [] && s.thr[n.data[n.busy[0]]].timeout <= s.thr[u].timeout
    {
      assert Home(s, u);
      var k := IndexOf(n.busy, s.thr[u].iter);
      assert k > 0 ==> Before(s.thr, n, 0, k);
    }
  }

  /** The first thread of a list becomes Ready: the list begins with the next one, and no other list changes. */
  lemma FirstLeaves(s: Sys, q: Queue, t: nat, r: Thread)
    requires Partition(s) && (q.SndWaitQ? || q.RcvWaitQ?) && s.que[q].busy != [] && s.que[q].busy[0] in s.que[q].data
    requires t == s.que[q].data[s.que[q].busy[0]] && t < THREADS && QueueOf(r).ReadyQ?
    ensures var n, n' := s.que[q], Moved(s, t, r).que[q];
            && n' == Erased(n, 0) && Successor(n, n.busy[0]) == First(n') && (First(n') == 0 <==> n'.busy == [])
    ensures OthersKept(s.que, Moved(s, t, r).que, q)
  {
    var n := s.que[q];
    assert QueueOk(s.thr, q, n);
    assert EntryOk(s.thr, q, n, 0);
    IndexOfIs(n.busy, 0);
    MovedFrom(s, t, r);
    if |n.busy| > 1 { assert EntryOk(s.thr, q, n, 1); }
  }

  /** While a thread is Ready, its deadline and partners are free to change. */
  lemma ReadyFields(s: Sys, t: nat, r: Thread)
    requires Partition(s) && t < THREADS && s.thr[t].state == Ready
    requires r.state == Ready && r.prio == s.thr[t].prio && r.iter == s.thr[t].iter
    ensures Partition(s.(thr := s.thr[t := r]))
  {
    var m := s.(thr := s.thr[t := r]);
    forall q | q in m.que ensures QueueOk(m.thr, q, m.que[q]) {
      if q == ReadyQ(r.prio) {
        assert QueueOk(s.thr, q, s.que[q]);
        forall i | 0 <= i < |m.que[q].busy| ensures EntryOk(m.thr, q, m.que[q], i) {
          assert EntryOk(s.thr, q, s.que[q], i);
        }
      } else {
        RotatedElsewhere(s, t, q, m.thr);
      }
    }
    forall u | 0 <= u < THREADS ensures Home(m, u) { assert Home(s, u); }
    forall p: nat | p < PRIOS ensures BitOk(m.bits, m.que, p) { assert BitOk(s.bits, s.que, p); }
  }

  lemma NoneAbove(s: Sys, p: nat)
    requires Shape(s) && forall r: nat :: p < r < PRIOS ==> !ReadyAt(s, r)
    ensures forall u :: 0 <= u < THREADS && s.thr[u].state == Ready ==> s.thr[u].prio <= p
  {
    forall u | 0 <= u < THREADS && s.thr[u].state == Ready ensures s.thr[u].prio <= p {
      assert ReadyAt(s, s.thr[u].prio);
    }
  }

  lemma NobodyReady(s: Sys)
    requires Shape(s) && forall r: nat :: r < PRIOS ==> !ReadyAt(s, r)
    ensures forall u :: 0 <= u < THREADS ==> s.thr[u].state != Ready
  {
    forall u | 0 <= u < THREADS ensures s.thr[u].state != Ready {
      assert !ReadyAt(s, s.thr[u].prio);
    }
  }

  lemma ZeroWord(s: Sys, g: nat, r: nat)
    requires Partition(s) && g < 8 && s.bits[g] == 0 && 32 * g <= r < PRIOS
    requires forall p: nat :: 32 * (g + 1) <= p < PRIOS ==> !ReadyAt(s, p)
    ensures !ReadyAt(s, r)
  {
    if r < 32 * (g + 1) {
      BitMeans(s, g, r - 32 * g);
      NoBits(r - 32 * g);
    }
  }
}
