/**
 The rendezvous of `do_ipc`, `process_pfault` and `process_exception` as steps of one CPU. No
 thread is left blocked beside a receiver that would take its message, and no handler is left
 waiting for an interrupt that it asked for by name and that is pending. A sender that uses an id
 with a stale version, and a handler that waits for anything, can wait in vain: runs show both.
 */
module Ipc {
  import opened Options
  import opened Queues
  import opened Th = Threads
  import opened NodeList

  /** `Thread_number_min`: thread `t` of the table has number `FIRST + t`. */
  const FIRST: nat := 128

  /** `Int_thread_t`. */
  datatype Int = Int(handler: Id, pending: bool)

  predicate Sending(t: Thread) {
    t.state == SendIpc || t.state == SendPfault || t.state == SendException
  }

  /** A receiver in address space `task` with this from-specifier takes messages from `x`. */
  predicate AcceptsFrom(fromSpec: Id, task: nat, x: Thread) {
    fromSpec.Any? || (task == x.task && fromSpec.AnyLocal?) || fromSpec == x.globid
  }

  /** `_is_good_sender`: `x` is blocked sending to thread `r`, which would take it. */
  predicate GoodSender(thr: seq<Thread>, r: nat, fromSpec: Id, x: nat)
    requires r < |thr| && x < |thr|
  {
    Sending(thr[x]) && thr[x].to == thr[r].globid && AcceptsFrom(fromSpec, thr[r].task, thr[x])
  }

  ghost predicate NoSender(thr: seq<Thread>, r: nat, fromSpec: Id)
    requires r < |thr|
  {
    forall x: nat {:trigger GoodSender(thr, r, fromSpec, x)} :: x < |thr| ==> !GoodSender(thr, r, fromSpec, x)
  }

  /** Both sides wait for each other, and nobody will ever bring them together. */
  ghost predicate Lost(thr: seq<Thread>, x: nat, r: nat)
    requires r < |thr| && x < |thr|
  {
    thr[r].state == ReceiveIpc && GoodSender(thr, r, thr[r].from, x)
  }

  ghost predicate NoneLost(thr: seq<Thread>) {
    forall x: nat, r: nat {:trigger Lost(thr, x, r)} :: x < |thr| && r < |thr| ==> !Lost(thr, x, r)
  }

  /** Ids name the slot of the thread, and a sending thread has a definite destination. */
  ghost predicate IdOk(thr: seq<Thread>, t: nat)
    requires t < |thr|
  {
    && (thr[t].state != Idle ==> thr[t].globid.Global?)
    && (thr[t].globid.Global? ==> thr[t].globid.num == FIRST + t)
    && (Sending(thr[t]) ==> thr[t].to.Global?)
  }

  ghost predicate IdsOk(thr: seq<Thread>) {
    forall t: nat {:trigger IdOk(thr, t)} :: t < |thr| ==> IdOk(thr, t)
  }

  /** A handler waits for interrupt `i` by name, and the interrupt is pending. */
  ghost predicate Missed(thr: seq<Thread>, ints: seq<Int>, i: nat, t: nat)
    requires i < |ints| && t < |thr|
  {
    ints[i].pending && ints[i].handler == thr[t].globid && thr[t].state == ReceiveIpc && thr[t].from == Global(i, 1)
  }

  ghost predicate NoneMissed(thr: seq<Thread>, ints: seq<Int>) {
    forall i: nat, t: nat {:trigger Missed(thr, ints, i, t)} ::
      i < |ints| && t < |thr| ==> !Missed(thr, ints, i, t)
  }

  /** Nobody waits in vain, and ids name slots. */
  ghost predicate Sound(thr: seq<Thread>, ints: seq<Int>) {
    NoneLost(thr) && NoneMissed(thr, ints) && IdsOk(thr)
  }

  ghost predicate Inv(s: Sys) {
    Partition(s) && NoneLost(s.thr) && IdsOk(s.thr)
  }

  // ---- what a step may do --------------------------------------------------------------------

  ghost predicate Only(thr: seq<Thread>, thr': seq<Thread>, t: nat) {
    && t < |thr| == |thr'|
    && (forall u {:trigger thr'[u]} :: 0 <= u < |thr| && u != t ==> thr'[u] == thr[u])
  }

  /** No interrupt with this handler is pending under the id `fromSpec`. */
  ghost predicate NoIrq(ints: seq<Int>, fromSpec: Id, handler: Id) {
    forall i {:trigger ints[i]} ::
      0 <= i < |ints| && fromSpec == Global(i, 1) ==> !(ints[i].pending && ints[i].handler == handler)
  }

  /** A change of thread `t` misses an interrupt only if `t` then waits for one that is pending. */
  lemma OthersInts(thr: seq<Thread>, thr': seq<Thread>, ints: seq<Int>, t: nat)
    requires NoneMissed(thr, ints) && Only(thr, thr', t)
    requires thr'[t].state == ReceiveIpc ==> NoIrq(ints, thr'[t].from, thr'[t].globid)
    ensures NoneMissed(thr', ints)
  {
    forall i: nat, u: nat | i < |ints| && u < |thr| ensures !Missed(thr', ints, i, u) {
      if u != t { assert !Missed(thr, ints, i, u); }
    }
  }

  /** A thread that neither sends nor receives cannot be lost. */
  lemma QuietStep(thr: seq<Thread>, thr': seq<Thread>, ints: seq<Int>, t: nat)
    requires Sound(thr, ints) && Only(thr, thr', t) && IdOk(thr', t)
    requires !Sending(thr'[t]) && thr'[t].state != ReceiveIpc
    ensures Sound(thr', ints)
  {
    forall x: nat, r: nat | x < |thr| && r < |thr| ensures !Lost(thr', x, r) {
      if x != t && r != t { assert !Lost(thr, x, r); }
    }
    OthersInts(thr, thr', ints, t);
    forall u: nat | u < |thr| ensures IdOk(thr', u) { assert IdOk(thr, u); }
  }

  /** A thread may block sending if no receiver would take its message. */
  lemma SendStep(thr: seq<Thread>, thr': seq<Thread>, ints: seq<Int>, t: nat)
    requires Sound(thr, ints) && Only(thr, thr', t) && IdOk(thr', t)
    requires Sending(thr'[t])
    requires forall r: nat {:trigger thr[r]} ::
               r < |thr| && r != t && thr[r].state == ReceiveIpc && thr[r].globid == thr'[t].to ==>
                 !AcceptsFrom(thr[r].from, thr[r].task, thr'[t])
    ensures Sound(thr', ints)
  {
    forall x: nat, r: nat | x < |thr| && r < |thr| ensures !Lost(thr', x, r) {
      if x != t && r != t { assert !Lost(thr, x, r); }
    }
    OthersInts(thr, thr', ints, t);
    forall u: nat | u < |thr| ensures IdOk(thr', u) { assert IdOk(thr, u); }
  }

  /** A thread may block receiving if no blocked sender suits it. */
  lemma ReceiveStep(thr: seq<Thread>, thr': seq<Thread>, ints: seq<Int>, t: nat)
    requires Sound(thr, ints) && Only(thr, thr', t) && IdOk(thr', t)
    requires thr'[t].state == ReceiveIpc && thr'[t].globid == thr[t].globid && thr'[t].task == thr[t].task
    requires NoSender(thr, t, thr'[t].from) && NoIrq(ints, thr'[t].from, thr[t].globid)
    ensures Sound(thr', ints)
  {
    forall x: nat, r: nat | x < |thr| && r < |thr| ensures !Lost(thr', x, r) {
      if x != t && r != t { assert !Lost(thr, x, r); }
      if r == t { assert !GoodSender(thr, t, thr'[t].from, x); }
    }
    OthersInts(thr, thr', ints, t);
    forall u: nat | u < |thr| ensures IdOk(thr', u) { assert IdOk(thr, u); }
  }

  /** `Threads_t::find`: by number only; the version is not looked at. */
  function Find(thr: seq<Thread>, id: Id): (t: Option<nat>)
    ensures t.Some? ==> t.value < |thr| && thr[t.value].state != Idle && id.Global? && id.num == FIRST + t.value
    ensures t.None? ==> forall i: nat :: i < |thr| && id.Global? && id.num == FIRST + i ==> thr[i].state == Idle
  {
    if id.Global? && FIRST <= id.num < FIRST + |thr| && thr[id.num - FIRST].state != Idle
    then Some(id.num - FIRST) else None
  }

  /** Every blocked sender is in one of the two lists that a receiver searches. */
  lemma SenderIsQueued(s: Sys, x: nat)
    requires Partition(s) && x < THREADS && Sending(s.thr[x])
    ensures QueueOf(s.thr[x]) in {SendQ, SndWaitQ} && Home(s, x)
  {
    assert Home(s, x);
  }

  /** Among the first `k` of the line, `best` is the first good sender of highest priority; or there is none. */
  ghost predicate BestOfFirst(s: Sys, c: seq<nat>, r: nat, fromSpec: Id, k: nat, best: Option<nat>) {
    && r < |s.thr| && k <= |c| && (forall i :: 0 <= i < k ==> c[i] < |s.thr|)
    && (best.None? ==> forall i :: 0 <= i < k ==> !GoodSender(s.thr, r, fromSpec, c[i]))
    && (best.Some? ==> exists j: nat :: j < k && Leader(s.thr, c, r, fromSpec, k, j, best.value))
  }

  ghost predicate Leader(thr: seq<Thread>, c: seq<nat>, r: nat, fromSpec: Id, k: nat, j: nat, x: nat)
    requires r < |thr| && k <= |c| && forall i :: 0 <= i < k ==> c[i] < |thr|
  {
    && j < k && c[j] == x && GoodSender(thr, r, fromSpec, x)
    && (forall i :: 0 <= i < j && GoodSender(thr, r, fromSpec, c[i]) ==> thr[c[i]].prio < thr[x].prio)
    && (forall i :: j <= i < k && GoodSender(thr, r, fromSpec, c[i]) ==> thr[c[i]].prio <= thr[x].prio)
  }

  /** What the search of list `q` must answer. */
  ghost predicate BestOf(s: Sys, q: Queue, r: nat, fromSpec: Id, best: Option<nat>) {
    && Partition(s) && q in s.que
    && BestOfFirst(s, Line(s, q), r, fromSpec, |Line(s, q)|, best)
  }

  lemma BestGoesOn(s: Sys, c: seq<nat>, r: nat, fromSpec: Id, k: nat, best: Option<nat>)
    requires BestOfFirst(s, c, r, fromSpec, k, best) && k < |c| && c[k] < |s.thr|
    ensures var better := GoodSender(s.thr, r, fromSpec, c[k])
                          && (best.None? || s.thr[best.value].prio < s.thr[c[k]].prio);
            BestOfFirst(s, c, r, fromSpec, k + 1, if better then Some(c[k]) else best)
  {
    var better := GoodSender(s.thr, r, fromSpec, c[k]) && (best.None? || s.thr[best.value].prio < s.thr[c[k]].prio);
    if best.Some? {
      var j: nat :| j < k && Leader(s.thr, c, r, fromSpec, k, j, best.value);
      if better {
        assert Leader(s.thr, c, r, fromSpec, k + 1, k, c[k]);
      } else {
        assert Leader(s.thr, c, r, fromSpec, k + 1, j, best.value);
      }
    } else if better {
      assert Leader(s.thr, c, r, fromSpec, k + 1, k, c[k]);
    }
  }

  /** No sender in the list has a higher priority. */
  lemma BestIsHighest(s: Sys, q: Queue, r: nat, fromSpec: Id, best: Option<nat>, x: nat)
    requires BestOf(s, q, r, fromSpec, best) && x < THREADS && QueueOf(s.thr[x]) == q
    requires GoodSender(s.thr, r, fromSpec, x)
    ensures best.Some? && best.value < THREADS && s.thr[x].prio <= s.thr[best.value].prio
  {
    LineMembers(s, q);
    assert x in Line(s, q);
    var i :| 0 <= i < |Line(s, q)| && Line(s, q)[i] == x;
    if best.Some? {
      var j: nat :| j < |Line(s, q)| && Leader(s.thr, Line(s, q), r, fromSpec, |Line(s, q)|, j, best.value);
    }
  }

  /** Of two answers, that of the timeout list unless the other has a higher priority. */
  function Higher(thr: seq<Thread>, a: Option<nat>, b: Option<nat>): (best: Option<nat>)
    ensures best == a || best == b
  {
    if a.Some? && b.Some? && a.value < |thr| && b.value < |thr| then
      if thr[a.value].prio < thr[b.value].prio then b else a
    else if a.Some? then a else b
  }

  /** Both lists were searched, and the better answer was taken. */
  ghost predicate FromLists(s: Sys, r: nat, fromSpec: Id, res: Option<nat>) {
    exists a, b :: BestOf(s, SndWaitQ, r, fromSpec, a) && BestOf(s, SendQ, r, fromSpec, b) && res == Higher(s.thr, a, b)
  }

  /**
   What `find_sender` must answer: a good sender of highest priority if there is one at all, and
   among several the first of its list.
   */
  ghost predicate SenderFound(s: Sys, r: nat, fromSpec: Id, res: Option<nat>)
    requires r < |s.thr|
  {
    && HighestSender(s.thr, r, fromSpec, res)
    && (Find(s.thr, fromSpec).None? ==> FromLists(s, r, fromSpec, res))
  }

  ghost predicate HighestSender(thr: seq<Thread>, r: nat, fromSpec: Id, res: Option<nat>)
    requires r < |thr|
  {
    && (res.Some? ==> res.value < |thr| && GoodSender(thr, r, fromSpec, res.value))
    && (res.None? ==> NoSender(thr, r, fromSpec))
    && (res.Some? ==> forall x: nat {:trigger thr[x]} ::
          x < |thr| && GoodSender(thr, r, fromSpec, x) ==> thr[res.value].prio >= thr[x].prio)
  }

  lemma SpecificSender(thr: seq<Thread>, r: nat, fromSpec: Id, t: nat)
    requires IdsOk(thr) && r < |thr| && Find(thr, fromSpec) == Some(t)
    ensures HighestSender(thr, r, fromSpec, if GoodSender(thr, r, fromSpec, t) then Some(t) else None)
  {
    forall x: nat | x < |thr| && GoodSender(thr, r, fromSpec, x) ensures x == t {
      assert IdOk(thr, x);
    }
  }

  lemma EitherList(s: Sys, r: nat, fromSpec: Id, a: Option<nat>, b: Option<nat>)
    requires Partition(s) && r < THREADS && BestOf(s, SndWaitQ, r, fromSpec, a) && BestOf(s, SendQ, r, fromSpec, b)
    ensures SenderFound(s, r, fromSpec, Higher(s.thr, a, b))
  {
    forall x: nat | x < THREADS && GoodSender(s.thr, r, fromSpec, x)
      ensures var res := Higher(s.thr, a, b);
              res.Some? && res.value < THREADS && s.thr[x].prio <= s.thr[res.value].prio
    {
      SenderIsQueued(s, x);
      if QueueOf(s.thr[x]) == SendQ { BestIsHighest(s, SendQ, r, fromSpec, b, x); }
      else { BestIsHighest(s, SndWaitQ, r, fromSpec, a, x); }
    }
  }

  /** A receiver that waits for itself or for an interrupt has no sender to miss. */
  lemma NobodySuits(thr: seq<Thread>, t: nat, fromSpec: Id)
    requires IdsOk(thr) && t < |thr| && thr[t].state == Ready
    requires fromSpec == thr[t].globid || IsInt(fromSpec)
    ensures NoSender(thr, t, fromSpec)
  {
    assert IdOk(thr, t);
    forall x: nat | x < |thr| ensures !GoodSender(thr, t, fromSpec, x) { assert IdOk(thr, x); }
  }

  /** `thrid_is_int`. */
  predicate IsInt(id: Id) {
    id.Global? && id.num < FIRST && id.ver == 1
  }

  /** What a message tag asks of `do_ipc`. */
  datatype Tag =
    | Normal          // an ordinary message
    | Reenable        // one untyped word: re-enables an interrupt
    | Start           // starts an active thread
    | PfReply(complete: bool)
    | ExcReply
    | SwIrq           // label 0x202

  class Kernel {
    const threads: Threads
    var ints: seq<Int>

    ghost predicate Valid()
      reads this, threads
    {
      Partition(threads.S()) && Sound(threads.thr, ints) && |ints| == FIRST
    }

    constructor ()
      ensures Valid() && fresh(threads) && forall t :: 0 <= t < THREADS ==> threads.thr[t].state == Idle
    {
      var t := new Threads();
      threads := t;
      ints := seq(FIRST, _ => Int(Nil, false));
      new;
      forall x: nat, r: nat | x < THREADS && r < THREADS ensures !Lost(threads.thr, x, r) {}
      forall u: nat | u < THREADS ensures IdOk(threads.thr, u) {}
      forall i: nat, u: nat | i < FIRST && u < THREADS ensures !Missed(threads.thr, ints, i, u) {}
    }

    ghost predicate Runs(t: nat)
      reads this, threads
    {
      Valid() && t < THREADS && threads.thr[t].state == Ready
    }

    // ---- single changes ------------------------------------------------------------------------

    /** A thread goes on: it is Ready and no longer in any IPC. */
    method Wake(t: nat)
      requires Valid() && t < THREADS && threads.thr[t].state != Ready && threads.thr[t].state != Idle
      modifies threads
      ensures Valid() && Became(old(threads.S()), threads.S(), t, InState(old(threads.thr)[t], Ready))
    {
      assert IdOk(threads.thr, t);
      ghost var was := threads.thr;
      threads.State(t, Ready);
      QuietStep(was, threads.thr, ints, t);
    }

    /** Fields of a running thread that no partner looks at. */
    method SetLocal(t: nat, failed: bool, pc: Pc, signal: bool)
      requires Runs(t)
      modifies threads
      ensures Runs(t)
      ensures Became(old(threads.S()), threads.S(), t,
                     old(threads.thr)[t].(failed := failed, pc := pc, signal := signal))
    {
      var r := threads.thr[t].(failed := failed, pc := pc, signal := signal);
      ReadyFields(threads.S(), t, r);
      assert IdOk(threads.thr, t);
      ghost var was := threads.thr;
      threads.thr := threads.thr[t := r];
      QuietStep(was, threads.thr, ints, t);
    }

    // ---- faults --------------------------------------------------------------------------------

    /**
     `process_pfault` and `process_exception`: the fault message goes to handler `h` at once if
     `h` waits in a receive, whatever its from-specifier; otherwise the thread blocks sending.
     */
    method Fault(t: nat, h: nat, exception: bool)
      requires Valid() && t < THREADS && h < THREADS && threads.thr[h].globid.Global?
      requires threads.thr[t].state == Ready || (exception && threads.thr[t].state == ReceivePfault)
      modifies threads
      ensures Valid() && FaultOutcome(old(threads.S()), threads.S(), t, h, exception)
    {
      if threads.thr[h].state == ReceiveIpc {
        Wake(h);
        FaultDelivered(t, h, exception);
      } else {
        FaultBlocked(t, h, exception);
      }
    }

    /** Sets `ipc_to` or `ipc_from_spec`, then the state. */
    method SetPartner(t: nat, r: Thread, st: State)
      requires Partition(threads.S()) && t < THREADS && r == threads.thr[t].(to := r.to, from := r.from)
      requires st != Ready && st != r.state
      modifies threads
      ensures Partition(threads.S()) && Became(old(threads.S()), threads.S(), t, r.(state := st))
    {
      SameQueue(threads.S(), t, r);
      threads.thr := threads.thr[t := r];
      threads.State(t, st);
    }

    method FaultDelivered(t: nat, h: nat, exception: bool)
      requires Valid() && t < THREADS && h < THREADS && t != h
      requires threads.thr[t].state == Ready || threads.thr[t].state == ReceivePfault
      requires threads.thr[t].state == ReceivePfault ==> exception
      modifies threads
      ensures Valid() && threads.thr[h] == old(threads.thr)[h]
      ensures Became(old(threads.S()), threads.S(), t,
                     old(threads.thr)[t].(from := old(threads.thr)[h].globid,
                                          state := if exception then ReceiveException else ReceivePfault))
    {
      ghost var was := threads.thr;
      assert IdOk(was, t);
      var r := threads.thr[t].(from := threads.thr[h].globid);
      SetPartner(t, r, if exception then ReceiveException else ReceivePfault);
      QuietStep(was, threads.thr, ints, t);
    }

    method FaultBlocked(t: nat, h: nat, exception: bool)
      requires Valid() && t < THREADS && h < THREADS && threads.thr[h].globid.Global?
      requires threads.thr[h].state != ReceiveIpc
      requires threads.thr[t].state == Ready || threads.thr[t].state == ReceivePfault
      modifies threads
      ensures Valid()
      ensures Became(old(threads.S()), threads.S(), t,
                     old(threads.thr)[t].(to := old(threads.thr)[h].globid,
                                          state := if exception then SendException else SendPfault))
    {
      ghost var was := threads.thr;
      assert IdOk(was, t);
      var r := threads.thr[t].(to := threads.thr[h].globid);
      SetPartner(t, r, if exception then SendException else SendPfault);
      OnlyHandler(was, h, threads.thr[t]);
      SendStep(was, threads.thr, ints, t);
    }

    // ---- sending -------------------------------------------------------------------------------

    /** The last branch of the send phase: an ordinary message to thread `dst`. */
    method SendNormal(cur: nat, dst: nat, to: Id, limit: RelTime, now: nat)
      requires Runs(cur) && Find(threads.thr, to) == Some(dst)
      modifies threads
      ensures Valid() && NormalOutcome(old(threads.S()), threads.S(), cur, dst, to, limit, now)
    {
      if Willing(threads.thr, dst, cur) {
        Wake(dst);
      } else if limit.Zero? {
        SetLocal(cur, true, User, threads.thr[cur].signal);
      } else {
        ghost var was := threads.thr;
        assert IdOk(was, cur);
        threads.SaveSndPhase(cur, limit, now, to);
        OnlyDestination(was, dst, cur, to, threads.thr[cur]);
        SendStep(was, threads.thr, ints, cur);
      }
    }

    /** The send phase of `do_ipc`; `exh` is the exception handler of the destination. */
    method SendPhase(cur: nat, to: Id, tag: Tag, limit: RelTime, now: nat, exh: nat, irqPending: bool)
      requires Runs(cur) && to != Nil
      requires tag.SwIrq? ==> Find(threads.thr, to) != Some(cur)
      requires exh < THREADS && threads.thr[exh].globid.Global?
      modifies this, threads
      ensures Valid()
      ensures if IsInt(to) && tag.Reenable?
              then ReenableOutcome(old(threads.S()), threads.S(), old(ints), ints, cur, to.num, irqPending)
              else ints == old(ints) && SendOutcome(old(threads.S()), threads.S(), cur, to, tag, limit, now, exh)
    {
      if IsInt(to) && tag.Reenable? {
        Reenable(cur, to.num, irqPending);
        return;
      }
      var d := Find(threads.thr, to);
      if d.None? || threads.thr[d.value].state == Inactive {
        SetLocal(cur, true, User, threads.thr[cur].signal);
        return;
      }
      var dst := d.value;
      var state := threads.thr[dst].state;
      if state == Active && tag.Start? {
        Wake(dst);
      } else if state == ReceivePfault && tag.PfReply? {
        if tag.complete {
          Fault(dst, exh, true);
        } else {
          Wake(dst);
        }
      } else if state == ReceiveException && tag.ExcReply? {
        Wake(dst);
      } else if tag.SwIrq? {
        Signal(dst);
      } else {
        SendNormal(cur, dst, to, limit, now);
      }
    }

    /** Re-enabling an interrupt; one that is pending already is remembered. */
    method Reenable(cur: nat, irq: nat, irqPending: bool)
      requires Runs(cur) && irq < FIRST
      modifies this, threads
      ensures Valid() && ReenableOutcome(old(threads.S()), threads.S(), old(ints), ints, cur, irq, irqPending)
    {
      if threads.thr[cur].globid != ints[irq].handler {
        SetLocal(cur, true, User, threads.thr[cur].signal);
      } else if irqPending {
        RaiseKeeps(threads.thr, ints, irq, cur);
        ints := ints[irq := ints[irq].(pending := true)];
      }
    }

    /** A software interrupt wakes a thread that waits for one, or is remembered. */
    method Signal(dst: nat)
      requires Valid() && dst < THREADS && threads.thr[dst].state != Idle
      modifies threads
      ensures Valid() && SignalOutcome(old(threads.S()), threads.S(), dst)
    {
      if threads.thr[dst].state == ReceiveIpc && threads.thr[dst].from == threads.thr[dst].globid {
        Wake(dst);
      } else {
        var r := threads.thr[dst].(signal := true);
        SameQueue(threads.S(), dst, r);
        ghost var was := threads.thr;
        threads.thr := threads.thr[dst := r];
        SameIpc(was, threads.thr, ints);
      }
    }

    // ---- receiving -----------------------------------------------------------------------------

    /** `find_highest_prio_sender`. */
    method FindHighest(q: Queue, r: nat, fromSpec: Id) returns (best: Option<nat>)
      requires Valid() && r < THREADS && (q == SendQ || q == SndWaitQ)
      ensures BestOf(threads.S(), q, r, fromSpec, best)
    {
      best := None;
      var n := threads.que[q];
      assert QueueOk(threads.thr, q, n);
      ghost var c := Line(threads.S(), q);
      var i := 0;
      while i < |n.busy|
        invariant i <= |n.busy| && BestOfFirst(threads.S(), c, r, fromSpec, i, best)
      {
        assert EntryOk(threads.thr, q, n, i);
        BestGoesOn(threads.S(), c, r, fromSpec, i, best);
        var x := n.data[n.busy[i]];
        if GoodSender(threads.thr, r, fromSpec, x) {
          if best.None? || threads.thr[best.value].prio < threads.thr[x].prio {
            best := Some(x);
          }
        }
        i := i + 1;
      }
    }

    /** `find_sender`: finds a sender that suits the receiver whenever there is one. */
    method FindSender(r: nat, fromSpec: Id) returns (res: Option<nat>)
      requires Valid() && r < THREADS
      ensures SenderFound(threads.S(), r, fromSpec, res)
    {
      var t := Find(threads.thr, fromSpec);
      if t.Some? {
        SpecificSender(threads.thr, r, fromSpec, t.value);
        if !Sending(threads.thr[t.value]) || !GoodSender(threads.thr, r, fromSpec, t.value) {
          return None;
        }
        return t;
      }
      var snd1 := FindHighest(SndWaitQ, r, fromSpec);
      var snd2 := FindHighest(SendQ, r, fromSpec);
      EitherList(threads.S(), r, fromSpec, snd1, snd2);
      if snd1.Some? && snd2.Some? {
        return if threads.thr[snd1.value].prio < threads.thr[snd2.value].prio then snd2 else snd1;
      }
      return if snd1.Some? then snd1 else snd2;
    }

    /** The sender's side once its message has been taken. */
    method Serve(x: nat)
      requires Valid() && x < THREADS && Sending(threads.thr[x])
      modifies threads
      ensures Valid()
      ensures Became(old(threads.S()), threads.S(), x, InState(old(threads.thr)[x], Served(old(threads.thr)[x].state)))
    {
      ghost var was := threads.thr;
      assert IdOk(was, x);
      threads.State(x, Served(threads.thr[x].state));
      QuietStep(was, threads.thr, ints, x);
    }

    /** Blocks in the receive phase; no blocked sender may suit the receiver. */
    method Block(cur: nat, limit: RelTime, now: nat, fromSpec: Id)
      requires Runs(cur)
      requires NoSender(threads.thr, cur, fromSpec) && NoIrq(ints, fromSpec, threads.thr[cur].globid)
      modifies threads
      ensures Valid()
      ensures Became(old(threads.S()), threads.S(), cur, Receiving(old(threads.thr)[cur], limit, now, fromSpec))
    {
      ghost var was := threads.thr;
      SetLocal(cur, threads.thr[cur].failed, User, threads.thr[cur].signal);
      ghost var mid := threads.thr;
      assert IdOk(mid, cur);
      forall x: nat | x < THREADS ensures !GoodSender(mid, cur, fromSpec, x) {
        assert !GoodSender(was, cur, fromSpec, x);
      }
      threads.SaveRcvPhase(cur, limit, now, fromSpec);
      ReceiveStep(mid, threads.thr, ints, cur);
    }

    /** The receive phase for ordinary threads. */
    method ReceiveNormal(cur: nat, limit: RelTime, now: nat, fromSpec: Id) returns (snd: Option<nat>)
      requires Runs(cur) && !IsInt(fromSpec)
      modifies threads
      ensures Valid() && ReceiveOutcome(old(threads.S()), threads.S(), cur, limit, now, fromSpec, snd)
    {
      snd := FindSender(cur, fromSpec);
      if snd.Some? {
        Serve(snd.value);
        SetLocal(cur, threads.thr[cur].failed, User, threads.thr[cur].signal);
      } else if limit.Zero? {
        SetLocal(cur, true, User, threads.thr[cur].signal);
      } else {
        Block(cur, limit, now, fromSpec);
      }
    }

    /** The receive phase of `do_ipc`. */
    method ReceivePhase(cur: nat, now: nat)
      requires Runs(cur) && threads.thr[cur].pc.RcvPhase?
      modifies this, threads
      ensures Valid() && threads.thr[cur].pc.User?
      ensures PhaseOutcome(old(threads.S()), threads.S(), old(ints), ints, cur, now)
    {
      var pc := threads.thr[cur].pc;
      var r := threads.thr[cur];
      if pc.fromSpec == Nil || r.failed {
        SetLocal(cur, r.failed, User, r.signal);
      } else if pc.swIrq && pc.fromSpec == r.globid {
        if r.signal {
          SetLocal(cur, r.failed, User, false);
        } else if pc.limit.Zero? {
          SetLocal(cur, true, User, r.signal);
        } else {
          NobodySuits(threads.thr, cur, pc.fromSpec);
          assert IdOk(threads.thr, cur);
          Block(cur, pc.limit, now, pc.fromSpec);
        }
      } else if IsInt(pc.fromSpec) {
        var i := ints[pc.fromSpec.num];
        if Unseen(i, r.globid) {
          LowerKeeps(threads.thr, ints, pc.fromSpec.num, i.handler);
          ints := ints[pc.fromSpec.num := i.(pending := false)];
          SetLocal(cur, r.failed, User, r.signal);
        } else {
          NobodySuits(threads.thr, cur, pc.fromSpec);
          assert IdOk(threads.thr, cur);
          Block(cur, pc.limit, now, pc.fromSpec);
        }
      } else {
        var _ := ReceiveNormal(cur, pc.limit, now, pc.fromSpec);
      }
    }

    /** `do_ipc`: both phases, unless the first one blocks. */
    method DoIpc(cur: nat, to: Id, fromSpec: Id, tag: Tag, sndLimit: RelTime, rcvLimit: RelTime, swIrq: bool,
                 now: nat, exh: nat, irqPending: bool)
      requires Runs(cur) && exh < THREADS && threads.thr[exh].globid.Global?
      requires tag.SwIrq? ==> Find(threads.thr, to) != Some(cur)
      modifies this, threads
      ensures Valid()
      ensures exists s1, s2, mid ::
                IpcVia(old(threads.S()), s1, s2, threads.S(), old(ints), mid, ints, cur, to, tag, sndLimit, now, exh,
                       irqPending, RcvPhase(fromSpec, rcvLimit, swIrq))
    {
      var pc := RcvPhase(fromSpec, rcvLimit, swIrq);
      SetLocal(cur, false, pc, threads.thr[cur].signal);
      ghost var s1 := threads.S();
      if to != Nil {
        SendPhase(cur, to, tag, sndLimit, now, exh, irqPending);
      }
      ghost var s2, mid := threads.S(), ints;
      if threads.thr[cur].state == Ready && threads.thr[cur].pc.RcvPhase? {
        ReceivePhase(cur, now);
      }
      assert IpcVia(old(threads.S()), s1, s2, threads.S(), old(ints), mid, ints, cur, to, tag, sndLimit, now, exh,
                    irqPending, pc);
    }

    // ---- interrupts and time -------------------------------------------------------------------

    /** `kentry_irq`: wakes the handler if it waits for this interrupt. */
    method Irq(irq: nat)
      requires Valid() && irq < FIRST && Find(threads.thr, ints[irq].handler).Some?
      modifies this, threads
      ensures Valid()
      ensures IrqOutcome(old(threads.S()), threads.S(), old(ints), ints, irq)
    {
      var dst := Find(threads.thr, ints[irq].handler).value;
      if AwaitsIrq(threads.thr[dst], irq) {
        Wake(dst);
      } else {
        RaiseKeeps(threads.thr, ints, irq, dst);
        ints := ints[irq := ints[irq].(pending := true)];
      }
    }

    /** `Int_thread_t::handler`: a new handler, and nothing pending for it. */
    method SetHandler(irq: nat, h: Id)
      requires Valid() && irq < FIRST
      modifies this
      ensures Valid() && ints == old(ints)[irq := Int(h, false)]
    {
      LowerKeeps(threads.thr, ints, irq, h);
      ints := ints[irq := Int(h, false)];
    }

    /** The timeout scan of `kern_timer_tick`. */
    method Tick(now: nat) returns (next: Option<nat>)
      requires Valid()
      modifies threads
      ensures Valid()
      ensures forall u {:trigger threads.thr[u]} ::
                0 <= u < THREADS ==> TimedOut(old(threads.thr)[u], threads.thr[u], now)
      ensures NextToRun(old(threads.S()), now, next)
    {
      ghost var was := threads.thr;
      next := threads.CheckTimeouts(now);
      TimedOutKeeps(was, threads.thr, ints, now);
    }

    /** The thread whose turn it is once `cur`, which has used up its timeslice, goes to the end of its line. */
    method NextInLine(cur: nat) returns (t: nat)
      requires Runs(cur) && threads.thr[cur].timeslice == 0 && !AllReadyAt(threads.S(), threads.thr[cur].prio)
      modifies threads
      ensures Valid() && LineOutcome(old(threads.S()), threads.S(), cur, t)
    {
      ghost var was := threads.thr;
      var q := ReadyQ(threads.thr[cur].prio);
      assert q in threads.que;
      FullQueue(threads.S(), threads.thr[cur].prio);
      var it := threads.TimesliceExpired(cur);
      SameIpc(was, threads.thr, ints);
      FrontReady(threads.S(), was[cur].prio);
      t := threads.que[q].data[it];
      assert t == Line(threads.S(), q)[0];
    }

    /**
     `kern_timer_tick` while `cur` runs, after the time accounting: the timeouts, a used-up timeslice,
     and the thread to switch to, if any.
     */
    method TimerTick(cur: nat, now: nat) returns (next: Option<nat>, ghost mid: Sys)
      requires Runs(cur) && (threads.thr[cur].timeslice == 0 ==> !AllReadyThen(threads.thr, now, threads.thr[cur].prio))
      modifies threads
      ensures Valid() && TickOutcome(old(threads.S()), mid, threads.S(), cur, now, next)
    {
      ghost var s := threads.S();
      var next1 := Tick(now);
      mid := threads.S();
      AfterScan(s, mid, cur, now, next1);
      var next2 := None;
      if threads.thr[cur].timeslice == 0 {
        var t := NextInLine(cur);
        next2 := Some(t);
      }
      next := if next1.Some? && threads.thr[next1.value].prio > threads.thr[cur].prio then next1 else next2;
      assert SwitchTo(s, cur, next1, next2, next);
    }

    /** Choosing the next thread to run. */
    method Schedule() returns (t: nat)
      requires Valid() && (exists u :: 0 <= u < THREADS && threads.thr[u].state == Ready)
      requires forall p: nat :: p < PRIOS ==> !CannotRotate(threads.S(), p)
      modifies threads
      ensures Runs(t)
      ensures ScheduleOutcome(old(threads.S()), threads.S(), t)
    {
      ghost var s := threads.S();
      t := threads.HighestReady();
      PickedKeeps(s, threads.S(), ints, threads.thr[t].prio, t);
    }

    /** `schedule` system call: a new priority. */
    method SetPrio(t: nat, v: nat)
      requires Valid() && t < THREADS && v < PRIOS
      modifies threads
      ensures Valid() && Became(old(threads.S()), threads.S(), t, old(threads.thr)[t].(prio := v))
    {
      ghost var was := threads.thr;
      threads.Prio(t, v);
      SameIpc(was, threads.thr, ints);
    }

    // ---- thread control ------------------------------------------------------------------------

    method Create(t: nat, ver: nat, task: nat, prio: nat)
      requires Valid() && t < THREADS && prio < PRIOS && threads.thr[t].state == Idle
      modifies threads
      ensures Valid()
      ensures Became(old(threads.S()), threads.S(), t,
                     old(threads.thr)[t].(globid := Global(FIRST + t, ver), task := task, prio := prio,
                                          state := Inactive))
    {
      ghost var was := threads.thr;
      threads.Create(t, Global(FIRST + t, ver), task, prio);
      QuietStep(was, threads.thr, ints, t);
    }

    method Activate(t: nat)
      requires Valid() && t < THREADS && threads.thr[t].state == Inactive
      modifies threads
      ensures Valid() && Became(old(threads.S()), threads.S(), t, old(threads.thr)[t].(state := Active))
    {
      ghost var was := threads.thr;
      assert IdOk(was, t);
      threads.State(t, Active);
      QuietStep(was, threads.thr, ints, t);
    }

    method Remove(t: nat)
      requires Valid() && t < THREADS && threads.thr[t].state != Idle
      modifies threads
      ensures Valid() && Became(old(threads.S()), threads.S(), t, old(threads.thr)[t].(state := Idle))
    {
      ghost var was := threads.thr;
      assert IdOk(was, t);
      threads.Remove(t);
      QuietStep(was, threads.thr, ints, t);
    }

    /** The steps in which threads meet, if the kernel is in a state for them. */
    method ExecuteIpc(step: Step)
      requires Valid() && (step.IpcStep? || step.ResumeStep? || step.FaultStep? || step.IrqStep?)
      modifies this, threads
      ensures Valid()
      ensures StepOutcome(World(old(threads.S()), old(ints)), World(threads.S(), ints), step)
    {
      match step
      case IpcStep(t, to, fromSpec, tag, sndLimit, rcvLimit, swIrq, now, exh, irqPending) =>
        if t < THREADS && threads.thr[t].state == Ready && threads.thr[t].pc.User?
           && exh < THREADS && threads.thr[exh].globid.Global?
           && (tag.SwIrq? ==> Find(threads.thr, to) != Some(t))
        {
          DoIpc(t, to, fromSpec, tag, sndLimit, rcvLimit, swIrq, now, exh, irqPending);
        }
      case ResumeStep(t, now) =>
        if t < THREADS && threads.thr[t].state == Ready && threads.thr[t].pc.RcvPhase? { ReceivePhase(t, now); }
      case FaultStep(t, h, exception) =>
        if t < THREADS && threads.thr[t].state == Ready && h < THREADS && threads.thr[h].globid.Global? {
          Fault(t, h, exception);
        }
      case IrqStep(irq) =>
        if irq < FIRST && Find(threads.thr, ints[irq].handler).Some? { Irq(irq); }
    }

    /** Thread control, interrupt control, time and scheduling. */
    method ExecuteControl(step: Step)
      requires Valid() && !(step.IpcStep? || step.ResumeStep? || step.FaultStep? || step.IrqStep?)
      modifies this, threads
      ensures Valid()
      ensures StepOutcome(World(old(threads.S()), old(ints)), World(threads.S(), ints), step)
    {
      match step
      case CreateStep(t, ver, task, prio) =>
        if t < THREADS && prio < PRIOS && threads.thr[t].state == Idle { Create(t, ver, task, prio); }
      case ActivateStep(t) =>
        if t < THREADS && threads.thr[t].state == Inactive { Activate(t); }
      case BootStep(t) =>
        if t < THREADS && threads.thr[t].state == Inactive { Wake(t); }
      case RemoveStep(t) =>
        if t < THREADS && threads.thr[t].state != Idle { Remove(t); }
      case HandlerStep(irq, h) =>
        if irq < FIRST { SetHandler(irq, h); }
      case TickStep(now) =>
        var _ := Tick(now);
      case PrioStep(t, prio) =>
        if t < THREADS && prio < PRIOS { SetPrio(t, prio); }
      case ScheduleStep =>
        if (exists u :: 0 <= u < THREADS && threads.thr[u].state == Ready)
           && (forall p: nat :: p < PRIOS ==> !CannotRotate(threads.S(), p))
        {
          var _ := Schedule();
        }
    }

    /** One step: it does what it should, and nothing if the kernel is in no state for it. */
    method Execute(step: Step)
      requires Valid()
      modifies this, threads
      ensures Valid()
      ensures StepOutcome(World(old(threads.S()), old(ints)), World(threads.S(), ints), step)
    {
      if step.IpcStep? || step.ResumeStep? || step.FaultStep? || step.IrqStep? {
        ExecuteIpc(step);
      } else {
        ExecuteControl(step);
      }
    }

    /**
     In every run, whatever the order of its steps, each step does what it should, and in no state
     between them is anybody lost or an awaited interrupt missed.
     */
    method Run(steps: seq<Step>) returns (ghost trace: seq<World>)
      requires Valid()
      modifies this, threads
      ensures Valid() && History(trace, steps)
      ensures trace[0] == World(old(threads.S()), old(ints)) && trace[|steps|] == World(threads.S(), ints)
    {
      trace := [World(threads.S(), ints)];
      for i := 0 to |steps|
        invariant Valid() && History(trace, steps[..i])
        invariant trace[0] == World(old(threads.S()), old(ints)) && trace[i] == World(threads.S(), ints)
      {
        Execute(steps[i]);
        HistoryGoesOn(trace, steps[..i], World(threads.S(), ints), steps[i]);
        assert steps[..i + 1] == steps[..i] + [steps[i]];
        trace := trace + [World(threads.S(), ints)];
      }
      assert steps[..|steps|] == steps;
    }

    /**
     Modification of a live thread overwrites version and address space in the middle of an IPC.
     The rendezvous stays sound exactly when the new identity meets no waiting partner.
     */
    method Modify(t: nat, ver: nat, task: nat)
      requires Valid() && t < THREADS && threads.thr[t].state != Idle
      modifies threads
      ensures threads.thr == old(threads.thr)[t := old(threads.thr)[t].(globid := Global(FIRST + t, ver), task := task)]
      ensures Valid() <==> !Meets(old(threads.thr), ints, t, threads.thr[t])
      ensures !Sending(old(threads.thr)[t]) && old(threads.thr)[t].state != ReceiveIpc ==> Valid()
    {
      var r := threads.thr[t].(globid := Global(FIRST + t, ver), task := task);
      SameQueue(threads.S(), t, r);
      ModifyStep(threads.thr, ints, t, r);
      threads.thr := threads.thr[t := r];
    }
  }

  // ---- rendezvous ----------------------------------------------------------------------------

  /** Only `x` can be a new sender when nothing but `x` has changed. */
  lemma OneNewSender(thr: seq<Thread>, thr': seq<Thread>, x: nat, r: nat, fromSpec: Id)
    requires Only(thr, thr', x) && r < |thr| && x != r && NoSender(thr, r, fromSpec)
    ensures forall y: nat {:trigger GoodSender(thr', r, fromSpec, y)} ::
              y < |thr'| && GoodSender(thr', r, fromSpec, y) ==> y == x
  {
    forall y: nat | y < |thr'| && GoodSender(thr', r, fromSpec, y) ensures y == x {
      assert !GoodSender(thr, r, fromSpec, y);
    }
  }

  /** Both go on if `r` waits for anybody, for its own address space with `x` in it, or for `x`; else both wait. */
  ghost predicate BothOrNeither(was: seq<Thread>, thr: seq<Thread>, x: nat, r: nat, fromSpec: Id)
    requires x < |was| == |thr| && r < |was|
  {
    if fromSpec == Any || (fromSpec == AnyLocal && was[x].task == was[r].task) || fromSpec == was[x].globid
    then thr[x].state == Ready && thr[r].state == Ready
    else thr[x].state == SendIpc && thr[r].state == ReceiveIpc
  }

  /** A message from `x` to `r`: `r` waits for it, then `x` sends it. */
  method ReceiverFirst(k: Kernel, x: nat, r: nat, fromSpec: Id)
    requires k.Runs(x) && k.Runs(r) && x != r && !IsInt(fromSpec) && NoSender(k.threads.thr, r, fromSpec)
    modifies k.threads
    ensures k.Valid() && BothOrNeither(old(k.threads.thr), k.threads.thr, x, r, fromSpec)
  {
    var to := k.threads.thr[r].globid;
    assert IdOk(k.threads.thr, r);
    var _ := k.ReceiveNormal(r, Never, 0, fromSpec);
    k.SendNormal(x, r, to, Never, 0);
  }

  /** The other order has the same outcome. */
  method SenderFirst(k: Kernel, x: nat, r: nat, fromSpec: Id)
    requires k.Runs(x) && k.Runs(r) && x != r && !IsInt(fromSpec) && NoSender(k.threads.thr, r, fromSpec)
    modifies k.threads
    ensures k.Valid() && BothOrNeither(old(k.threads.thr), k.threads.thr, x, r, fromSpec)
  {
    ghost var was := k.threads.thr;
    assert IdOk(was, r);
    k.SendNormal(x, r, k.threads.thr[r].globid, Never, 0);
    OneNewSender(was, k.threads.thr, x, r, fromSpec);
    assert GoodSender(k.threads.thr, r, fromSpec, x) <==> AcceptsFrom(fromSpec, was[r].task, was[x]);
    var _ := k.ReceiveNormal(r, Never, 0, fromSpec);
  }

  // ---- stale versions ------------------------------------------------------------------------

  /**
   A sender names its destination by number and version, but the send phase looks for the number
   only. A blocked sender whose destination, found that way, would take its message is one that
   used a version the destination does not have.
   */
  lemma MissedOnlyByVersion(s: Sys, x: nat, r: nat)
    requires Inv(s) && x < THREADS && Sending(s.thr[x]) && Find(s.thr, s.thr[x].to) == Some(r) && Willing(s.thr, r, x)
    ensures s.thr[r].globid.Global? && s.thr[x].to.num == s.thr[r].globid.num && s.thr[x].to.ver != s.thr[r].globid.ver
  {
    assert IdOk(s.thr, x) && IdOk(s.thr, r);
    assert !Lost(s.thr, x, r);
  }

  /** Two threads of one address space, both of version 2 and ready to run. */
  method TwoThreads() returns (k: Kernel)
    ensures fresh(k) && fresh(k.threads) && k.Runs(0) && k.Runs(1)
    ensures k.threads.thr[0].globid == Global(FIRST, 2) && k.threads.thr[1].globid == Global(FIRST + 1, 2)
    ensures forall t :: 2 <= t < THREADS ==> k.threads.thr[t].state == Idle
  {
    k := new Kernel();
    k.Create(0, 2, 1, 10);
    k.Create(1, 2, 1, 10);
    k.Wake(0);
    k.Wake(1);
  }

  /**
   Such a run: thread 0 blocks sending to thread 1 with version 3, thread 1 has version 2 and then
   waits for a message from anyone. Each would serve the other, and they never meet.
   */
  method StaleVersionRun() returns (k: Kernel)
    ensures fresh(k) && fresh(k.threads) && k.Valid()
    ensures Sending(k.threads.thr[0]) && Find(k.threads.thr, k.threads.thr[0].to) == Some(1)
    ensures Willing(k.threads.thr, 1, 0) && k.threads.thr[0].to == Global(FIRST + 1, 3)
  {
    k := TwoThreads();
    k.SendNormal(0, 1, Global(FIRST + 1, 3), Never, 0);
    var _ := k.ReceiveNormal(1, Never, 0, Any);
  }

  /** Giving thread 1 the version 3 afterwards makes the ids match, and still they do not meet. */
  method ModifyRun() returns (k: Kernel)
    ensures |k.threads.thr| == THREADS && Lost(k.threads.thr, 0, 1) && !k.Valid()
  {
    k := StaleVersionRun();
    k.Modify(1, 3, k.threads.thr[0].task);
    assert Lost(k.threads.thr, 0, 1);
  }

  // ---- pending interrupts --------------------------------------------------------------------

  /** A pending interrupt whose handler would take it is missed only by a handler that waits for anything. */
  lemma MissedOnlyByAny(thr: seq<Thread>, ints: seq<Int>, i: nat, t: nat)
    requires Sound(thr, ints) && i < |ints| && t < |thr|
    requires ints[i].pending && ints[i].handler == thr[t].globid && AwaitsIrq(thr[t], i)
    ensures thr[t].from == Any
  {
    assert !Missed(thr, ints, i, t);
  }

  /**
   Such a run: interrupt 5 arrives while its handler runs, then the handler waits for anything.
   The receive phase looks for pending interrupts only when it is given the id of one.
   */
  method AnyMissesInterrupt() returns (k: Kernel)
    ensures k.Valid() && k.ints[5].pending && k.ints[5].handler == k.threads.thr[0].globid
    ensures AwaitsIrq(k.threads.thr[0], 5)
  {
    k := TwoThreads();
    k.SetHandler(5, k.threads.thr[0].globid);
    k.Irq(5);
    var _ := k.ReceiveNormal(0, Never, 0, Any);
  }

  // ---- runs ----------------------------------------------------------------------------------

  datatype Step =
    | CreateStep(t: nat, ver: nat, task: nat, prio: nat)
    | ActivateStep(t: nat)
    | BootStep(t: nat)
    | RemoveStep(t: nat)
    | IpcStep(t: nat, to: Id, fromSpec: Id, tag: Tag, sndLimit: RelTime, rcvLimit: RelTime, swIrq: bool, now: nat,
              exh: nat, irqPending: bool)
    | ResumeStep(t: nat, now: nat)
    | FaultStep(t: nat, h: nat, exception: bool)
    | IrqStep(irq: nat)
    | HandlerStep(irq: nat, handler: Id)
    | TickStep(now: nat)
    | PrioStep(t: nat, prio: nat)
    | ScheduleStep

  /** The whole state of the kernel. */
  datatype World = World(s: Sys, ints: seq<Int>)

  ghost predicate WorldOk(w: World) {
    Partition(w.s) && Sound(w.s.thr, w.ints) && |w.ints| == FIRST
  }

  /** The kernel is in a state for this step. */
  ghost predicate Enabled(w: World, step: Step)
    requires |w.s.thr| == THREADS && |w.ints| == FIRST
  {
    var thr := w.s.thr;
    match step
    case CreateStep(t, ver, task, prio) => t < THREADS && prio < PRIOS && thr[t].state == Idle
    case ActivateStep(t) => t < THREADS && thr[t].state == Inactive
    case BootStep(t) => t < THREADS && thr[t].state == Inactive
    case RemoveStep(t) => t < THREADS && thr[t].state != Idle
    case IpcStep(t, to, fromSpec, tag, sndLimit, rcvLimit, swIrq, now, exh, irqPending) =>
      && t < THREADS && thr[t].state == Ready && thr[t].pc.User? && exh < THREADS && thr[exh].globid.Global?
      && (tag.SwIrq? ==> Find(thr, to) != Some(t))
    case ResumeStep(t, now) => t < THREADS && thr[t].state == Ready && thr[t].pc.RcvPhase?
    case FaultStep(t, h, exception) => t < THREADS && thr[t].state == Ready && h < THREADS && thr[h].globid.Global?
    case IrqStep(irq) => irq < FIRST && Find(thr, w.ints[irq].handler).Some?
    case HandlerStep(irq, handler) => irq < FIRST
    case TickStep(now) => true
    case PrioStep(t, prio) => t < THREADS && prio < PRIOS
    case ScheduleStep =>
      && (exists u :: 0 <= u < THREADS && thr[u].state == Ready)
      && (forall p: nat :: p < PRIOS ==> !CannotRotate(w.s, p))
  }

  /** What the step does then. */
  ghost predicate Done(w: World, w': World, step: Step)
    requires |w.s.thr| == THREADS && |w.ints| == FIRST && Enabled(w, step)
  {
    var s, s', thr := w.s, w'.s, w.s.thr;
    match step
    case CreateStep(t, ver, task, prio) =>
      && w'.ints == w.ints
      && Became(s, s', t, thr[t].(globid := Global(FIRST + t, ver), task := task, prio := prio, state := Inactive))
    case ActivateStep(t) => w'.ints == w.ints && Became(s, s', t, thr[t].(state := Active))
    case BootStep(t) => w'.ints == w.ints && Became(s, s', t, InState(thr[t], Ready))
    case RemoveStep(t) => w'.ints == w.ints && Became(s, s', t, thr[t].(state := Idle))
    case IpcStep(t, to, fromSpec, tag, sndLimit, rcvLimit, swIrq, now, exh, irqPending) =>
      exists s1, s2, mid :: IpcVia(s, s1, s2, s', w.ints, mid, w'.ints, t, to, tag, sndLimit, now, exh, irqPending,
                                   RcvPhase(fromSpec, rcvLimit, swIrq))
    case ResumeStep(t, now) => PhaseOutcome(s, s', w.ints, w'.ints, t, now)
    case FaultStep(t, h, exception) => w'.ints == w.ints && FaultOutcome(s, s', t, h, exception)
    case IrqStep(irq) => IrqOutcome(s, s', w.ints, w'.ints, irq)
    case HandlerStep(irq, handler) => s' == s && w'.ints == w.ints[irq := Int(handler, false)]
    case TickStep(now) =>
      && w'.ints == w.ints && |s'.thr| == THREADS
      && (forall u {:trigger s'.thr[u]} :: 0 <= u < THREADS ==> TimedOut(thr[u], s'.thr[u], now))
    case PrioStep(t, prio) => w'.ints == w.ints && Became(s, s', t, thr[t].(prio := prio))
    case ScheduleStep => w'.ints == w.ints && exists t :: ScheduleOutcome(s, s', t)
  }

  /** A step does its work, and nothing exactly if the kernel is in no state for it. */
  ghost predicate StepOutcome(w: World, w': World, step: Step) {
    && |w.s.thr| == THREADS && |w.ints| == FIRST
    && if Enabled(w, step) then Done(w, w', step) else w' == w
  }

  /** The states of a run: all are sound, and each follows from the one before by its step. */
  ghost predicate History(trace: seq<World>, steps: seq<Step>) {
    && |trace| == |steps| + 1
    && (forall i {:trigger WorldOk(trace[i])} :: 0 <= i < |trace| ==> WorldOk(trace[i]))
    && (forall i {:trigger steps[i]} :: 0 <= i < |steps| ==> StepOutcome(trace[i], trace[i + 1], steps[i]))
  }

  lemma HistoryGoesOn(trace: seq<World>, steps: seq<Step>, w: World, step: Step)
    requires History(trace, steps) && WorldOk(w) && StepOutcome(trace[|steps|], w, step)
    ensures History(trace + [w], steps + [step])
  {
    var t', s' := trace + [w], steps + [step];
    forall i | 0 <= i < |t'| ensures WorldOk(t'[i]) { assert i < |trace| ==> WorldOk(trace[i]); }
    forall i | 0 <= i < |s'| ensures StepOutcome(t'[i], t'[i + 1], s'[i]) {
      assert i < |steps| ==> StepOutcome(trace[i], trace[i + 1], steps[i]);
    }
  }

  /** Thread `t` waits in a receive that takes messages from `x`. */
  predicate Willing(thr: seq<Thread>, t: nat, x: nat)
    requires t < |thr| && x < |thr|
  {
    thr[t].state == ReceiveIpc && AcceptsFrom(thr[t].from, thr[t].task, thr[x])
  }

  /** `is_irq_acceptable`: the thread waits for this interrupt or for anything. */
  predicate AwaitsIrq(t: Thread, irq: nat) {
    t.state == ReceiveIpc && (t.from.Any? || t.from == Global(irq, 1))
  }

  /** Threads `a` and `b` change to these, apart from their iterators, and no other thread changes. */
  ghost predicate BothBecame(s: Sys, s': Sys, a: nat, ra: Thread, b: nat, rb: Thread) {
    && a < |s.thr| == |s'.thr| && b < |s.thr| && a != b
    && s'.thr[a] == ra.(iter := s'.thr[a].iter) && s'.thr[b] == rb.(iter := s'.thr[b].iter)
    && (forall u {:trigger s'.thr[u]} :: 0 <= u < |s.thr| && u != a && u != b ==> s'.thr[u] == s.thr[u])
  }

  /** The thread leaves `do_ipc` with an error. */
  function Failing(t: Thread): Thread {
    t.(failed := true, pc := User)
  }

  /** An ordinary message: taken at once, refused, or the sender blocks. */
  ghost predicate NormalOutcome(s: Sys, s': Sys, cur: nat, dst: nat, to: Id, limit: RelTime, now: nat)
    requires cur < |s.thr| && dst < |s.thr|
  {
    if Willing(s.thr, dst, cur) then Became(s, s', dst, InState(s.thr[dst], Ready))
    else if limit.Zero? then Became(s, s', cur, Failing(s.thr[cur]))
    else Became(s, s', cur, s.thr[cur].(timeout := Deadline(limit, now), to := to, state := SendIpc))
  }

  /** A fault message to handler `h`: taken at once, or the thread blocks. */
  ghost predicate FaultOutcome(s: Sys, s': Sys, t: nat, h: nat, exception: bool)
    requires t < |s.thr| && h < |s.thr|
  {
    if s.thr[h].state == ReceiveIpc then
      BothBecame(s, s', h, InState(s.thr[h], Ready),
                 t, s.thr[t].(from := s.thr[h].globid, state := if exception then ReceiveException else ReceivePfault))
    else Became(s, s', t, s.thr[t].(to := s.thr[h].globid, state := if exception then SendException else SendPfault))
  }

  /** A software interrupt: the destination waits for one and goes on, or remembers it. */
  ghost predicate SignalOutcome(s: Sys, s': Sys, dst: nat)
    requires dst < |s.thr|
  {
    Became(s, s', dst, if s.thr[dst].state == ReceiveIpc && s.thr[dst].from == s.thr[dst].globid
                       then InState(s.thr[dst], Ready) else s.thr[dst].(signal := true))
  }

  /** Only the handler may re-enable an interrupt; one that is pending already is remembered. */
  ghost predicate ReenableOutcome(s: Sys, s': Sys, ints: seq<Int>, ints': seq<Int>, cur: nat, irq: nat,
                                  irqPending: bool)
    requires cur < |s.thr| && irq < |ints|
  {
    if s.thr[cur].globid != ints[irq].handler then ints' == ints && Became(s, s', cur, Failing(s.thr[cur]))
    else s' == s && ints' == ints[irq := Int(ints[irq].handler, ints[irq].pending || irqPending)]
  }

  /** An interrupt wakes a handler that waits for it, or becomes pending. */
  ghost predicate IrqOutcome(s: Sys, s': Sys, ints: seq<Int>, ints': seq<Int>, irq: nat)
    requires irq < |ints| && Find(s.thr, ints[irq].handler).Some?
  {
    var dst := Find(s.thr, ints[irq].handler).value;
    if AwaitsIrq(s.thr[dst], irq) then ints' == ints && Became(s, s', dst, InState(s.thr[dst], Ready))
    else s' == s && ints' == ints[irq := Int(ints[irq].handler, true)]
  }

  /** The thread to run is Ready, of highest priority, and the one whose turn it is. */
  ghost predicate ScheduleOutcome(s: Sys, s': Sys, t: nat) {
    && Partition(s) && Partition(s') && t < THREADS && s'.thr[t].state == Ready
    && (forall u :: 0 <= u < THREADS && s.thr[u].state == Ready ==> s.thr[u].prio <= s'.thr[t].prio)
    && Picked(s, s', s'.thr[t].prio, t)
  }

  /** After a timeout scan at `now`, all threads are Ready at priority `p`. */
  ghost predicate AllReadyThen(thr: seq<Thread>, now: nat, p: nat) {
    forall u: nat {:trigger thr[u]} :: u < |thr| ==>
      thr[u].prio == p && (thr[u].state == Ready || Due(thr, SndWaitQ, now, u) || Due(thr, RcvWaitQ, now, u))
  }

  lemma AfterScan(s: Sys, mid: Sys, cur: nat, now: nat, next: Option<nat>)
    requires Partition(s) && Partition(mid) && cur < THREADS && s.thr[cur].state == Ready && NextToRun(s, now, next)
    requires forall u {:trigger mid.thr[u]} :: 0 <= u < THREADS ==> TimedOut(s.thr[u], mid.thr[u], now)
    ensures mid.thr[cur] == s.thr[cur] && (next.Some? ==> next.value < THREADS)
    ensures forall u {:trigger mid.thr[u]} :: 0 <= u < THREADS ==> mid.thr[u].prio == s.thr[u].prio
    ensures AllReadyAt(mid, s.thr[cur].prio) ==> AllReadyThen(s.thr, now, s.thr[cur].prio)
  {
    assert TimedOut(s.thr[cur], mid.thr[cur], now);
    if AllReadyAt(mid, s.thr[cur].prio) {
      forall u: nat | u < THREADS
        ensures s.thr[u].prio == s.thr[cur].prio
        ensures s.thr[u].state == Ready || Due(s.thr, SndWaitQ, now, u) || Due(s.thr, RcvWaitQ, now, u)
      {
        assert TimedOut(s.thr[u], mid.thr[u], now) && mid.thr[u].state == Ready;
      }
    }
  }

  /** `cur` goes to the end of its line with a new timeslice, and `t` is then the first. */
  ghost predicate LineOutcome(s: Sys, s': Sys, cur: nat, t: nat) {
    && Partition(s) && Partition(s') && cur < THREADS && s.thr[cur].state == Ready && s.thr[cur].prio < PRIOS
    && Became(s, s', cur, s.thr[cur].(timeslice := TIMESLICE)) && ToTheEnd(s, s', cur)
    && Line(s', ReadyQ(s.thr[cur].prio)) != [] && t == Line(s', ReadyQ(s.thr[cur].prio))[0]
  }

  /** A thread that timed out is preferred if its priority is above that of `cur`; else the turn of the line counts. */
  ghost predicate SwitchTo(s: Sys, cur: nat, next1: Option<nat>, next2: Option<nat>, next: Option<nat>) {
    && cur < |s.thr| && (next1.Some? ==> next1.value < |s.thr|)
    && next == if next1.Some? && s.thr[next1.value].prio > s.thr[cur].prio then next1 else next2
  }

  /** A timer tick: the scan of the timeouts up to `mid`, the turn of the line, and the choice between the two. */
  ghost predicate TickOutcome(s: Sys, mid: Sys, s': Sys, cur: nat, now: nat, next: Option<nat>) {
    && Partition(s) && Partition(mid) && cur < THREADS
    && (forall u {:trigger mid.thr[u]} :: 0 <= u < THREADS ==> TimedOut(s.thr[u], mid.thr[u], now))
    && exists next1, next2 :: NextToRun(s, now, next1) && SwitchTo(s, cur, next1, next2, next)
                              && (if s.thr[cur].timeslice == 0
                                  then next2.Some? && LineOutcome(mid, s', cur, next2.value)
                                  else next2.None? && s' == mid)
  }

  /** The answer that the destination, in this state, has been waiting for. */
  predicate IsAnswer(st: State, tag: Tag) {
    || (st == Active && tag.Start?)
    || (st == ReceivePfault && tag.PfReply? && !tag.complete)
    || (st == ReceiveException && tag.ExcReply?)
  }

  /** The send phase to a thread. */
  ghost predicate SendOutcome(s: Sys, s': Sys, cur: nat, to: Id, tag: Tag, limit: RelTime, now: nat, exh: nat)
    requires cur < |s.thr| && exh < |s.thr|
  {
    var d := Find(s.thr, to);
    if d.None? || s.thr[d.value].state == Inactive then Became(s, s', cur, Failing(s.thr[cur]))
    else if IsAnswer(s.thr[d.value].state, tag) then Became(s, s', d.value, InState(s.thr[d.value], Ready))
    else if s.thr[d.value].state == ReceivePfault && tag.PfReply? then FaultOutcome(s, s', d.value, exh, true)
    else if tag.SwIrq? then SignalOutcome(s, s', d.value)
    else NormalOutcome(s, s', cur, d.value, to, limit, now)
  }

  /** The receive phase for ordinary threads: a sender is served, or the receiver fails or blocks. */
  ghost predicate ReceiveOutcome(s: Sys, s': Sys, cur: nat, limit: RelTime, now: nat, fromSpec: Id, snd: Option<nat>)
    requires cur < |s.thr|
  {
    && SenderFound(s, cur, fromSpec, snd)
    && (if snd.Some? then
          BothBecame(s, s', snd.value, InState(s.thr[snd.value], Served(s.thr[snd.value].state)), cur,
                     s.thr[cur].(pc := User))
        else if limit.Zero? then Became(s, s', cur, Failing(s.thr[cur]))
        else Became(s, s', cur, Receiving(s.thr[cur], limit, now, fromSpec)))
  }

  /** An interrupt that its handler has not been told about yet. */
  predicate Unseen(i: Int, handler: Id) {
    i.handler != Nil && i.pending && i.handler == handler
  }

  /** The receive phase: nothing to do, a software interrupt, an interrupt, or an ordinary message. */
  ghost predicate PhaseOutcome(s: Sys, s': Sys, ints: seq<Int>, ints': seq<Int>, cur: nat, now: nat)
    requires cur < |s.thr| && s.thr[cur].pc.RcvPhase? && |ints| == FIRST
  {
    var r, pc := s.thr[cur], s.thr[cur].pc;
    if pc.fromSpec == Nil || r.failed then ints' == ints && Became(s, s', cur, r.(pc := User))
    else if pc.swIrq && pc.fromSpec == r.globid then
      ints' == ints && Became(s, s', cur, if r.signal then r.(pc := User, signal := false)
                                          else if pc.limit.Zero? then Failing(r)
                                          else Receiving(r, pc.limit, now, pc.fromSpec))
    else if IsInt(pc.fromSpec) then
      if Unseen(ints[pc.fromSpec.num], r.globid)
      then ints' == ints[pc.fromSpec.num := Int(r.globid, false)] && Became(s, s', cur, r.(pc := User))
      else ints' == ints && Became(s, s', cur, Receiving(r, pc.limit, now, pc.fromSpec))
    else ints' == ints && exists snd :: ReceiveOutcome(s, s', cur, pc.limit, now, pc.fromSpec, snd)
  }

  /**
   `do_ipc` from `s` to `s'`: into the kernel, through the send phase, and through the receive
   phase unless blocked.
   */
  ghost predicate IpcVia(s: Sys, s1: Sys, s2: Sys, s': Sys, ints: seq<Int>, mid: seq<Int>, ints': seq<Int>,
                         cur: nat, to: Id, tag: Tag, limit: RelTime, now: nat, exh: nat, irqPending: bool, pc: Pc)
    requires cur < |s.thr| && exh < |s.thr| && |ints| == FIRST
  {
    && Became(s, s1, cur, s.thr[cur].(failed := false, pc := pc))
    && (if to == Nil then s2 == s1 && mid == ints
        else if IsInt(to) && tag.Reenable? then ReenableOutcome(s1, s2, ints, mid, cur, to.num, irqPending)
        else mid == ints && SendOutcome(s1, s2, cur, to, tag, limit, now, exh))
    && cur < |s2.thr| && |mid| == FIRST
    && (if s2.thr[cur].state == Ready && s2.thr[cur].pc.RcvPhase? then PhaseOutcome(s2, s', mid, ints', cur, now)
        else s' == s2 && ints' == mid)
  }

  /** What becomes of a sender whose message was taken: it runs, or awaits the answer to its fault. */
  function Served(st: State): (r: State)
    ensures st == SendIpc ==> r == Ready
    ensures st == SendPfault ==> forall tag :: IsAnswer(r, tag) <==> tag == PfReply(false)
    ensures st == SendException ==> forall tag :: IsAnswer(r, tag) <==> tag == ExcReply
  {
    match st
    case SendPfault => ReceivePfault
    case SendException => ReceiveException
    case _ => Ready
  }

  /** A thread blocked in the receive phase; it returns to user mode when woken. */
  function Receiving(t: Thread, limit: RelTime, now: nat, fromSpec: Id): Thread {
    t.(pc := User, timeout := Deadline(limit, now), from := fromSpec, state := ReceiveIpc)
  }

  /** As `r`, thread `t` would wait in vain beside a partner or for a pending interrupt. */
  ghost predicate Meets(thr: seq<Thread>, ints: seq<Int>, t: nat, r: Thread)
    requires t < |thr|
  {
    || (thr[t].state == ReceiveIpc && MeetsSender(thr, t, r))
    || (thr[t].state == ReceiveIpc && !NoIrq(ints, thr[t].from, r.globid))
    || (Sending(thr[t]) && MeetsReceiver(thr, t, r))
  }

  ghost predicate MeetsSender(thr: seq<Thread>, t: nat, r: Thread)
    requires t < |thr|
  {
    exists x: nat {:trigger thr[x]} :: x < |thr| && x != t && Sending(thr[x]) && thr[x].to == r.globid
                                       && AcceptsFrom(thr[t].from, r.task, thr[x])
  }

  ghost predicate MeetsReceiver(thr: seq<Thread>, t: nat, r: Thread)
    requires t < |thr|
  {
    exists u: nat {:trigger thr[u]} :: u < |thr| && u != t && thr[u].state == ReceiveIpc && thr[u].globid == thr[t].to
                                       && AcceptsFrom(thr[u].from, thr[u].task, r)
  }

  lemma ModifyStep(thr: seq<Thread>, ints: seq<Int>, t: nat, r: Thread)
    requires Sound(thr, ints) && t < |thr| && r == thr[t].(globid := r.globid, task := r.task)
    requires r.globid.Global? && r.globid.num == FIRST + t
    ensures Sound(thr[t := r], ints) <==> !Meets(thr, ints, t, r)
  {
    var thr' := thr[t := r];
    forall u: nat | u < |thr| ensures IdOk(thr', u) { assert IdOk(thr, u); }
    if Meets(thr, ints, t, r) {
      MeetsIsUnsound(thr, ints, t, r);
    } else {
      OthersInts(thr, thr', ints, t);
      forall x: nat, u: nat | x < |thr| && u < |thr| ensures !Lost(thr', x, u) { assert !Lost(thr, x, u); }
    }
  }

  lemma MeetsIsUnsound(thr: seq<Thread>, ints: seq<Int>, t: nat, r: Thread)
    requires t < |thr| && r == thr[t].(globid := r.globid, task := r.task) && Meets(thr, ints, t, r)
    ensures !Sound(thr[t := r], ints)
  {
    var thr' := thr[t := r];
    if thr[t].state == ReceiveIpc && MeetsSender(thr, t, r) {
      var x: nat :| x < |thr| && x != t && Sending(thr[x]) && thr[x].to == r.globid
                    && AcceptsFrom(thr[t].from, r.task, thr[x]);
      assert Lost(thr', x, t);
    } else if thr[t].state == ReceiveIpc {
      var i :| 0 <= i < |ints| && thr[t].from == Global(i, 1) && ints[i].pending && ints[i].handler == r.globid;
      assert Missed(thr', ints, i, t);
    } else {
      var u: nat :| u < |thr| && u != t && thr[u].state == ReceiveIpc && thr[u].globid == thr[t].to
                    && AcceptsFrom(thr[u].from, thr[u].task, r);
      assert Lost(thr', t, u);
    }
  }

  /** An interrupt becomes pending for a handler, found by number, that does not wait for it. */
  lemma RaiseKeeps(thr: seq<Thread>, ints: seq<Int>, irq: nat, dst: nat)
    requires Sound(thr, ints) && irq < |ints| && dst < |thr| && !AwaitsIrq(thr[dst], irq)
    requires ints[irq].handler == thr[dst].globid || Find(thr, ints[irq].handler) == Some(dst)
    requires thr[dst].state != Idle
    ensures NoneMissed(thr, ints[irq := ints[irq].(pending := true)])
  {
    var ints' := ints[irq := ints[irq].(pending := true)];
    assert IdOk(thr, dst);
    forall i: nat, t: nat | i < |ints| && t < |thr| ensures !Missed(thr, ints', i, t) {
      assert !Missed(thr, ints, i, t);
      assert IdOk(thr, t);
    }
  }

  lemma LowerKeeps(thr: seq<Thread>, ints: seq<Int>, irq: nat, h: Id)
    requires NoneMissed(thr, ints) && irq < |ints|
    ensures NoneMissed(thr, ints[irq := Int(h, false)])
  {
    var ints' := ints[irq := Int(h, false)];
    forall i: nat, t: nat | i < |ints| && t < |thr| ensures !Missed(thr, ints', i, t) {
      assert !Missed(thr, ints, i, t);
    }
  }

  /** Fields that play no part in a rendezvous. */
  lemma SameIpc(thr: seq<Thread>, thr': seq<Thread>, ints: seq<Int>)
    requires Sound(thr, ints) && |thr'| == |thr|
    requires forall u {:trigger thr'[u]} :: 0 <= u < |thr| ==>
               && thr'[u].state == thr[u].state && thr'[u].to == thr[u].to && thr'[u].from == thr[u].from
               && thr'[u].globid == thr[u].globid && thr'[u].task == thr[u].task
    ensures Sound(thr', ints)
  {
    forall x: nat, r: nat | x < |thr| && r < |thr| ensures !Lost(thr', x, r) { assert !Lost(thr, x, r); }
    forall i: nat, t: nat | i < |ints| && t < |thr| ensures !Missed(thr', ints, i, t) {
      assert !Missed(thr, ints, i, t);
    }
    forall u: nat | u < |thr| ensures IdOk(thr', u) { assert IdOk(thr, u); }
  }

  lemma PickedKeeps(s: Sys, s': Sys, ints: seq<Int>, p: nat, t: nat)
    requires Partition(s) && Sound(s.thr, ints) && Partition(s') && p < PRIOS && Picked(s, s', p, t)
    ensures Sound(s'.thr, ints)
  {
    if s'.thr != s.thr { SameIpc(s.thr, s'.thr, ints); }
  }

  lemma TimedOutKeeps(thr: seq<Thread>, thr': seq<Thread>, ints: seq<Int>, now: nat)
    requires Sound(thr, ints) && |thr'| == |thr|
    requires forall u {:trigger thr'[u]} :: 0 <= u < |thr| ==> TimedOut(thr[u], thr'[u], now)
    ensures Sound(thr', ints)
  {
    forall x: nat, r: nat | x < |thr| && r < |thr| ensures !Lost(thr', x, r) { assert !Lost(thr, x, r); }
    forall i: nat, t: nat | i < |ints| && t < |thr| ensures !Missed(thr', ints, i, t) {
      assert !Missed(thr, ints, i, t);
    }
    forall u: nat | u < |thr| ensures IdOk(thr', u) { assert IdOk(thr, u); }
  }

  lemma OnlyDestination(thr: seq<Thread>, dst: nat, cur: nat, to: Id, t: Thread)
    requires IdsOk(thr) && Find(thr, to) == Some(dst) && cur < |thr| && !Willing(thr, dst, cur)
    requires t.to == to && t.globid == thr[cur].globid && t.task == thr[cur].task
    ensures forall r: nat {:trigger thr[r]} ::
              r < |thr| && r != cur && thr[r].state == ReceiveIpc && thr[r].globid == t.to ==>
                !AcceptsFrom(thr[r].from, thr[r].task, t)
  {
    forall r: nat | r < |thr| && thr[r].globid == to ensures r == dst { assert IdOk(thr, r); }
  }

  /** Whoever has the handler's id is the handler, and it is not receiving. */
  lemma OnlyHandler(thr: seq<Thread>, h: nat, t: Thread)
    requires IdsOk(thr) && h < |thr| && thr[h].globid.Global? && thr[h].state != ReceiveIpc && t.to == thr[h].globid
    ensures forall r: nat {:trigger thr[r]} :: r < |thr| && thr[r].state == ReceiveIpc && thr[r].globid == t.to ==>
              !AcceptsFrom(thr[r].from, thr[r].task, t)
  {
    assert IdOk(thr, h);
    forall r: nat | r < |thr| && thr[r].globid == t.to ensures r == h { assert IdOk(thr, r); }
  }
}
