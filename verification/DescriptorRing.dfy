/**
 The descriptor rings of the GRETH driver: driver and device share a table of descriptors, each
 with its own pointer into it, and tell from the descriptors alone whose turn it is.
 */
module DescriptorRing {

  /** `Tx_desc_t` and `Rx_desc_t`; `err` stands for the error status bits. */
  datatype Desc = Desc(en: bool, wrap: bool, err: bool, len: nat, addr: nat)

  datatype Kind = Tx | Rx

  datatype Err = Ok | NoBuf | NotAligned | WrongSize | TooSmall | TooBig | Busy | Failed

  datatype Status = IdleStatus | RunningStatus | OkStatus | ErrStatus

  const BUF_MAX: nat := 1518

  /** A submitted buffer, and what the device reports about it. */
  datatype Buf = Buf(addr: nat, len: nat)
  datatype Report = Report(err: bool, len: nat)

  predicate IsIdle(kind: Kind, d: Desc) {
    !d.en && (if kind == Tx then d.addr == 0 else d.len == 0)
  }

  predicate IsWait(kind: Kind, d: Desc) {
    !d.en && !(if kind == Tx then d.addr == 0 else d.len == 0)
  }

  // ---- the ring as a value -------------------------------------------------------------------

  /** The slot `i` places behind `rd` in a ring of `n` slots. */
  function Slot(n: nat, rd: nat, i: nat): (s: nat)
    requires rd < n && i <= n
    ensures s < n
  {
    if rd + i < n then rd + i else rd + i - n
  }

  function NextSlot(n: nat, p: nat): nat
    requires p < n
  {
    if p + 1 >= n then 0 else p + 1
  }

  /** The slot `i` places behind RD: first those to be freed, then those with the device, then idle ones. */
  ghost predicate SlotOk(kind: Kind, d: seq<Desc>, rd: nat, q: seq<Buf>, r: seq<Report>, i: nat)
    requires rd < |d| && i < |d|
  {
    var s := Slot(|d|, rd, i);
    if i < |r| && i < |q| then
      && IsWait(kind, d[s]) && d[s].addr == q[i].addr && d[s].err == r[i].err
      && d[s].len == (if kind == Tx then q[i].len else r[i].len)
    else if i < |q| then
      d[s].en && d[s].addr == q[i].addr && d[s].len == q[i].len && (d[s].wrap <==> s == |d| - 1)
    else IsIdle(kind, d[s])
  }

  /**
   The ring with pointers RD, WR and the device's own pointer: the buffers `q` are in it, in the
   order they were submitted, and the device has reported `r` about the first of them.
   */
  ghost predicate RingOk(kind: Kind, d: seq<Desc>, rd: nat, hw: nat, wr: nat, q: seq<Buf>, r: seq<Report>) {
    && rd < |d| && |r| <= |q| <= |d|
    && hw == Slot(|d|, rd, |r|) && wr == Slot(|d|, rd, |q|)
    && (forall i {:trigger q[i]} :: 0 <= i < |q| ==> q[i].addr != 0)
    && (forall i: nat {:trigger SlotOk(kind, d, rd, q, r, i)} :: i < |d| ==> SlotOk(kind, d, rd, q, r, i))
  }

  /** The slot at WR is idle exactly when the ring is not full. */
  lemma FullIsBusy(kind: Kind, d: seq<Desc>, rd: nat, hw: nat, wr: nat, q: seq<Buf>, r: seq<Report>)
    requires RingOk(kind, d, rd, hw, wr, q, r)
    ensures wr < |d| && (IsIdle(kind, d[wr]) <==> |q| < |d|)
  {
    if |q| < |d| { assert SlotOk(kind, d, rd, q, r, |q|); } else { assert SlotOk(kind, d, rd, q, r, 0); }
  }

  /** The slot at RD tells whether there is a buffer to free. */
  lemma FrontSlot(kind: Kind, d: seq<Desc>, rd: nat, hw: nat, wr: nat, q: seq<Buf>, r: seq<Report>)
    requires RingOk(kind, d, rd, hw, wr, q, r)
    ensures IsWait(kind, d[rd]) <==> r != []
    ensures d[rd].en <==> r == [] && q != []
    ensures q != [] ==> d[rd].addr == q[0].addr
    ensures r != [] ==> d[rd].err == r[0].err && d[rd].len == if kind == Tx then q[0].len else r[0].len
  {
    assert SlotOk(kind, d, rd, q, r, 0);
  }

  /** The slot at the device's pointer is enabled exactly when a buffer is with the device. */
  lemma DeviceSlot(kind: Kind, d: seq<Desc>, rd: nat, hw: nat, wr: nat, q: seq<Buf>, r: seq<Report>)
    requires RingOk(kind, d, rd, hw, wr, q, r)
    ensures hw < |d| && (d[hw].en <==> |r| < |q|)
    ensures d[hw].en ==> (d[hw].wrap <==> hw == |d| - 1) && Buf(d[hw].addr, d[hw].len) == q[|r|]
  {
    if |r| < |d| { assert SlotOk(kind, d, rd, q, r, |r|); } else { assert SlotOk(kind, d, rd, q, r, 0); }
  }

  /** What `greth_transmit` and `greth_receive` write. */
  function Enabled(n: nat, wr: nat, len: nat, addr: nat): Desc {
    Desc(true, wr == n - 1, false, len, addr)
  }

  lemma SubmitOk(kind: Kind, d: seq<Desc>, rd: nat, hw: nat, wr: nat, q: seq<Buf>, r: seq<Report>, len: nat, addr: nat)
    requires RingOk(kind, d, rd, hw, wr, q, r) && |q| < |d| && addr != 0
    ensures wr < |d|
    ensures RingOk(kind, d[wr := Enabled(|d|, wr, len, addr)], rd, hw, NextSlot(|d|, wr), q + [Buf(addr, len)], r)
  {
    var d', q' := d[wr := Enabled(|d|, wr, len, addr)], q + [Buf(addr, len)];
    forall i: nat | i < |d| ensures SlotOk(kind, d', rd, q', r, i) { assert SlotOk(kind, d, rd, q, r, i); }
  }

  lemma FreeOk(kind: Kind, d: seq<Desc>, rd: nat, hw: nat, wr: nat, q: seq<Buf>, r: seq<Report>, idle: Desc)
    requires RingOk(kind, d, rd, hw, wr, q, r) && r != [] && IsIdle(kind, idle)
    ensures RingOk(kind, d[rd := idle], NextSlot(|d|, rd), hw, wr, q[1..], r[1..])
  {
    var d', rd', q', r' := d[rd := idle], NextSlot(|d|, rd), q[1..], r[1..];
    forall i: nat | i < |d| ensures SlotOk(kind, d', rd', q', r', i) {
      if i + 1 < |d| { assert SlotOk(kind, d, rd, q, r, i + 1); }
    }
  }

  /** What the device writes when it is done: it clears `en`, and reports a length when receiving. */
  function Completed(kind: Kind, d: Desc, err: bool, len: nat): Desc {
    if kind == Tx then d.(en := false, err := err) else d.(en := false, err := err, len := len)
  }

  /** After a step of the device: the pointer follows the wrap bit. */
  function DevicePointer(d: Desc, hw: nat): nat {
    if d.wrap then 0 else hw + 1
  }

  /** A completion keeps the ring in order; for received frames, exactly if their length is not zero. */
  lemma CompleteOk(kind: Kind, d: seq<Desc>, rd: nat, hw: nat, wr: nat, q: seq<Buf>, r: seq<Report>, err: bool,
                   len: nat)
    requires RingOk(kind, d, rd, hw, wr, q, r) && hw < |d| && d[hw].en
    ensures RingOk(kind, d[hw := Completed(kind, d[hw], err, len)], rd, DevicePointer(d[hw], hw), wr, q,
                   r + [Report(err, len)])
            <==> kind == Tx || len != 0
  {
    DeviceSlot(kind, d, rd, hw, wr, q, r);
    var d', r' := d[hw := Completed(kind, d[hw], err, len)], r + [Report(err, len)];
    if kind == Tx || len != 0 {
      forall i: nat | i < |d| ensures SlotOk(kind, d', rd, q, r', i) { assert SlotOk(kind, d, rd, q, r, i); }
    } else {
      assert !SlotOk(kind, d', rd, q, r', |r|);
    }
  }

  /** What `greth_txfree` and `greth_rxfree` leave of a descriptor. */
  function Cleaned(kind: Kind, d: Desc): Desc {
    if kind == Tx then d.(addr := 0) else d.(len := 0, addr := 0)
  }

  /** The answer of `greth_txfree` and `greth_rxfree`. */
  function FreeAnswer(kind: Kind, d: seq<Desc>, rd: nat): Err
    requires rd < |d|
  {
    if IsWait(kind, d[rd]) then Ok else Failed
  }

  /** Table and RD after `n` calls of `greth_txfree` or `greth_rxfree`. */
  function AfterFrees(kind: Kind, d: seq<Desc>, rd: nat, n: nat): (r: (seq<Desc>, nat))
    requires rd < |d|
    ensures |r.0| == |d| && r.1 < |d|
    decreases n
  {
    if n == 0 || FreeAnswer(kind, d, rd) == Failed then (d, rd)
    else AfterFrees(kind, d[rd := Cleaned(kind, d[rd])], NextSlot(|d|, rd), n - 1)
  }

  /** Frees stop in front of a slot that looks idle, however many are tried. */
  lemma {:induction false} FreesStopAt(d: seq<Desc>, rd: nat, k: nat, n: nat)
    requires rd < |d| && k < |d| && k <= n && IsIdle(Rx, d[Slot(|d|, rd, k)])
    requires forall i: nat :: i < k ==> IsWait(Rx, d[Slot(|d|, rd, i)])
    ensures var r := AfterFrees(Rx, d, rd, n);
            r.1 == Slot(|d|, rd, k) && r.0[r.1] == d[r.1] && FreeAnswer(Rx, r.0, r.1) == Failed
    decreases k
  {
    if k > 0 {
      var d', rd' := d[rd := Cleaned(Rx, d[rd])], NextSlot(|d|, rd);
      assert Slot(|d|, rd, 0) == rd && IsWait(Rx, d[Slot(|d|, rd, 0)]);
      forall i: nat | i < k - 1 ensures IsWait(Rx, d'[Slot(|d|, rd', i)]) {
        assert Slot(|d|, rd', i) == Slot(|d|, rd, i + 1);
      }
      FreesStopAt(d', rd', k - 1, n - 1);
    }
  }

  /**
   A received frame of length zero: once the frames before it are freed, the driver takes its slot
   for idle, every further call to free it fails, and its buffer stays in the table.
   */
  lemma ZeroLengthIsStuck(d: seq<Desc>, rd: nat, hw: nat, wr: nat, q: seq<Buf>, r: seq<Report>, err: bool, n: nat)
    requires RingOk(Rx, d, rd, hw, wr, q, r) && |r| < |q| && hw < |d| && |r| <= n
    ensures var s := AfterFrees(Rx, d[hw := Completed(Rx, d[hw], err, 0)], rd, n);
            && s.1 == hw && FreeAnswer(Rx, s.0, s.1) == Failed
            && IsIdle(Rx, s.0[hw]) && s.0[hw].addr == q[|r|].addr
  {
    DeviceSlot(Rx, d, rd, hw, wr, q, r);
    var d' := d[hw := Completed(Rx, d[hw], err, 0)];
    forall i: nat | i < |r| ensures IsWait(Rx, d'[Slot(|d|, rd, i)]) { assert SlotOk(Rx, d, rd, q, r, i); }
    FreesStopAt(d', rd, |r|, n);
  }

  // ---- driver and device ---------------------------------------------------------------------

  class Ring {
    const kind: Kind
    var dtb: array<Desc>
    /** RD and WR of the driver, and the pointer that the device keeps in its register. */
    var rd: nat
    var wr: nat
    var hw: nat
    /** All buffers ever submitted, how many of them have come back, and all that the device reported. */
    ghost var submitted: seq<Buf>
    ghost var freed: nat
    ghost var reports: seq<Report>

    /** freed <= done <= submitted <= freed + N, and the ring holds exactly what lies between. */
    ghost predicate Valid()
      reads this, dtb
    {
      && freed <= |reports| <= |submitted| <= freed + dtb.Length
      && RingOk(kind, dtb[..], rd, hw, wr, submitted[freed..], reports[freed..])
    }

    constructor (kind: Kind)
      ensures this.kind == kind && dtb.Length == 0 && fresh(dtb)
    {
      this.kind := kind;
      dtb := new Desc[0];
      rd, wr, hw := 0, 0, 0;
      submitted, freed, reports := [], 0, [];
    }

    /** `greth_init` for one ring: the device's pointer goes to the start of the table. */
    method Init(table: array<Desc>) returns (err: Err)
      modifies this, table
      ensures err == if 0 < table.Length <= 128 then Ok else WrongSize
      ensures err == Ok ==> Valid() && dtb == table && submitted == [] && freed == 0
    {
      if table.Length == 0 || table.Length > 128 {
        return WrongSize;
      }
      hw := 0;
      for i := 0 to table.Length
        invariant hw == 0 && forall k :: 0 <= k < i ==> table[k] == Desc(false, false, false, 0, 0)
      {
        table[i] := Desc(false, false, false, 0, 0);
      }
      dtb := table;
      wr, rd := 0, 0;
      submitted, freed, reports := [], 0, [];
      ghost var q, r := submitted[freed..], reports[freed..];
      forall i: nat | i < dtb.Length ensures SlotOk(kind, dtb[..], rd, q, r, i) {}
      return Ok;
    }

    /** The part that `greth_transmit` and `greth_receive` share: busy exactly when the ring is full. */
    method Submit(buf: nat, len: nat) returns (err: Err)
      requires Valid() && buf != 0
      modifies this, dtb
      ensures Valid() && dtb == old(dtb) && freed == old(freed) && reports == old(reports)
      ensures err == if |old(submitted)| == freed + dtb.Length then Busy else Ok
      ensures submitted == if err == Ok then old(submitted) + [Buf(buf, len)] else old(submitted)
    {
      ghost var q, r := submitted[freed..], reports[freed..];
      FullIsBusy(kind, dtb[..], rd, hw, wr, q, r);
      if !IsIdle(kind, dtb[wr]) {
        return Busy;
      }
      SubmitOk(kind, dtb[..], rd, hw, wr, q, r, len, buf);
      assert (submitted + [Buf(buf, len)])[freed..] == q + [Buf(buf, len)];
      dtb[wr] := Enabled(dtb.Length, wr, len, buf);
      wr := NextSlot(dtb.Length, wr);
      submitted := submitted + [Buf(buf, len)];
      return Ok;
    }

    /** `greth_transmit`. */
    method Transmit(buf: nat, size: nat) returns (err: Err)
      requires kind == Tx && Valid()
      modifies this, dtb
      ensures Valid() && dtb == old(dtb) && freed == old(freed) && reports == old(reports)
      ensures err == if buf == 0 then NoBuf else if buf % 4 != 0 then NotAligned else if size > BUF_MAX then TooBig
                     else if |old(submitted)| == freed + dtb.Length then Busy else Ok
      ensures submitted == if err == Ok then old(submitted) + [Buf(buf, size)] else old(submitted)
    {
      if buf == 0 { return NoBuf; }
      if buf % 4 != 0 { return NotAligned; }
      if size > BUF_MAX { return TooBig; }
      err := Submit(buf, size);
    }

    /** `greth_receive`. */
    method Receive(buf: nat, size: nat) returns (err: Err)
      requires kind == Rx && Valid()
      modifies this, dtb
      ensures Valid() && dtb == old(dtb) && freed == old(freed) && reports == old(reports)
      ensures err == if buf == 0 then NoBuf else if buf % 4 != 0 then NotAligned else if size < BUF_MAX then TooSmall
                     else if |old(submitted)| == freed + dtb.Length then Busy else Ok
      ensures submitted == if err == Ok then old(submitted) + [Buf(buf, 0)] else old(submitted)
    {
      if buf == 0 { return NoBuf; }
      if buf % 4 != 0 { return NotAligned; }
      if size < BUF_MAX { return TooSmall; }
      err := Submit(buf, 0);
    }

    /** `greth_txstatus` and `greth_rxstatus`: the oldest buffer that has not been freed. */
    method ReadStatus() returns (buf: nat, len: nat, status: Status)
      requires Valid()
      ensures status == IdleStatus <==> freed == |submitted|
      ensures status == RunningStatus <==> freed == |reports| < |submitted|
      ensures freed < |reports| ==> status == (if reports[freed].err then ErrStatus else OkStatus)
      ensures freed < |reports| && kind == Rx ==> len == reports[freed].len
      ensures freed < |submitted| ==> buf == submitted[freed].addr
    {
      FrontSlot(kind, dtb[..], rd, hw, wr, submitted[freed..], reports[freed..]);
      var d := dtb[rd];
      buf, len := d.addr, d.len;
      if d.en {
        status := RunningStatus;
      } else if IsWait(kind, d) {
        status := if d.err then ErrStatus else OkStatus;
      } else {
        status := IdleStatus;
      }
    }

    /** `greth_txfree` and `greth_rxfree`: buffers come back in the order they were submitted. */
    method FreeOldest() returns (err: Err)
      requires Valid()
      modifies this, dtb
      ensures Valid() && dtb == old(dtb) && submitted == old(submitted) && reports == old(reports)
      ensures err == if old(freed) < |reports| then Ok else Failed
      ensures err == FreeAnswer(kind, old(dtb[..]), old(rd))
      ensures (dtb[..], rd) == AfterFrees(kind, old(dtb[..]), old(rd), 1)
      ensures freed == if err == Ok then old(freed) + 1 else old(freed)
    {
      ghost var q, r := submitted[freed..], reports[freed..];
      FrontSlot(kind, dtb[..], rd, hw, wr, q, r);
      if !IsWait(kind, dtb[rd]) {
        return Failed;
      }
      var idle := Cleaned(kind, dtb[rd]);
      FreeOk(kind, dtb[..], rd, hw, wr, q, r, idle);
      assert submitted[freed + 1..] == q[1..] && reports[freed + 1..] == r[1..];
      dtb[rd] := idle;
      rd := NextSlot(dtb.Length, rd);
      freed := freed + 1;
      return Ok;
    }

    /** A step of the device: it completes the descriptor at its own pointer, if that is enabled. */
    method DeviceStep(err: bool, len: nat) returns (worked: bool, buf: Buf)
      requires Valid() && (kind == Rx ==> len != 0)
      modifies this, dtb
      ensures Valid() && dtb == old(dtb) && submitted == old(submitted) && freed == old(freed)
      ensures worked <==> |old(reports)| < |submitted|
      ensures worked ==> buf == submitted[|old(reports)|]
      ensures reports == if worked then old(reports) + [Report(err, len)] else old(reports)
    {
      ghost var q, r := submitted[freed..], reports[freed..];
      DeviceSlot(kind, dtb[..], rd, hw, wr, q, r);
      worked := dtb[hw].en;
      buf := Buf(dtb[hw].addr, dtb[hw].len);
      if worked {
        CompleteOk(kind, dtb[..], rd, hw, wr, q, r, err, len);
        assert (reports + [Report(err, len)])[freed..] == r + [Report(err, len)];
        var next := DevicePointer(dtb[hw], hw);
        dtb[hw] := Completed(kind, dtb[hw], err, len);
        hw := next;
        reports := reports + [Report(err, len)];
      }
    }
  }
}
