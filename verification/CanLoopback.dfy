/** The CAN loopback driver and its API (`can_loopback.c`, `iso11898.c`, `canc.c`): two rings, five simulated message
    buffers and an interrupt flag register, updated in place. Every API call starts and ends quiescent and does to
    the device exactly what `CanDevice` says. */
module CanLoopback {
  import opened Bits
  import opened CanQueue
  import opened Common
  import opened CanDevice

  /** A simulated hardware message buffer: its packet, its two usage flags and its six interrupt flags. */
  datatype HwBuf = HwBuf(packet: Packet, inUse: bool, rtr: bool,
                         dataTxOk: bool, rtrTxOk: bool, dataRx: bool, rtrRx: bool, txErr: bool, rxErr: bool)

  predicate NoInts(b: HwBuf) {
    !b.dataTxOk && !b.rtrTxOk && !b.dataRx && !b.rtrRx && !b.txErr && !b.rxErr
  }

  /** A buffer between calls: no interrupt pending, and in use exactly when it is assigned as a response. */
  predicate QuietBuf(b: HwBuf) {
    NoInts(b) && (b.inUse <==> b.rtr)
  }

  /** A buffer whose transmission is pending: in use, unassigned, with the transmit flag of its message type. */
  predicate PendingBuf(b: HwBuf) {
    && b.inUse && !b.rtr && !b.dataRx && !b.rtrRx && !b.txErr && !b.rxErr
    && (b.dataTxOk <==> b.packet.msgType == DATA_MSG) && (b.rtrTxOk <==> b.packet.msgType != DATA_MSG)
  }

  function View(bs: seq<HwBuf>): (vs: seq<Buf>)
    ensures |vs| == |bs| && forall i | 0 <= i < |bs| :: vs[i] == Buf(bs[i].packet, bs[i].rtr)
  {
    seq(|bs|, i requires 0 <= i < |bs| => Buf(bs[i].packet, bs[i].rtr))
  }

  /** What the pending buffers from `i` on put into the receive queue, in buffer order. */
  ghost function Outputs(vs: seq<Buf>, pending: set<nat>, i: nat): seq<Packet>
    requires i <= |vs|
    decreases |vs| - i
  {
    if i == |vs| then []
    else (if i in pending then Delivered(vs, vs[i].packet) else []) + Outputs(vs, pending, i + 1)
  }

  lemma {:induction false} OutputsSkip(vs: seq<Buf>, pending: set<nat>, i: nat, k: nat)
    requires i <= k <= |vs| && forall j | i <= j < k :: j !in pending
    ensures Outputs(vs, pending, i) == Outputs(vs, pending, k)
    decreases k - i
  {
    if i < k {
      OutputsSkip(vs, pending, i + 1, k);
    }
  }

  lemma {:induction false} OutputsWithout(vs: seq<Buf>, pending: set<nat>, k: nat, i: nat)
    requires k < i <= |vs|
    ensures Outputs(vs, pending, i) == Outputs(vs, pending - {k}, i)
    decreases |vs| - i
  {
    if i < |vs| {
      OutputsWithout(vs, pending, k, i + 1);
    }
  }

  /** Serving the lowest pending buffer first. */
  lemma OutputsFirst(vs: seq<Buf>, pending: set<nat>, k: nat)
    requires k < |vs| && k in pending && forall j | 0 <= j < k :: j !in pending
    ensures Outputs(vs, pending, 0) == Delivered(vs, vs[k].packet) + Outputs(vs, pending - {k}, 0)
  {
    OutputsSkip(vs, pending, 0, k);
    OutputsSkip(vs, pending - {k}, 0, k + 1);
    OutputsWithout(vs, pending, k, k + 1);
  }

  class Loopback {
    const txq: Ring
    const rxq: Ring
    const bufs: array<HwBuf>
    var ifReg: nat
    var sleeping: bool
    var initialized: bool

    ghost predicate Wired()
      reads this
    {
      && txq != rxq && txq.buf != rxq.buf && bufs.Length == HWMB_COUNT
      && bufs as object != txq.buf && bufs as object != rxq.buf
    }

    /** Rings in order, and the interrupt register names only existing buffers: those with a pending transmission. */
    ghost predicate Ready()
      reads this, txq, rxq, bufs
    {
      && Wired() && txq.Valid() && rxq.Valid()
      && ifReg < WORD
      && (forall i | i in Members(ifReg) :: i < HWMB_COUNT)
      && (forall i: nat | i < HWMB_COUNT :: if i in Members(ifReg) then PendingBuf(bufs[i]) else QuietBuf(bufs[i]))
    }

    ghost predicate Quiet()
      reads this, txq, rxq, bufs
    {
      Ready() && ifReg == 0
    }

    ghost function Abs(): Dev
      requires Ready()
      reads this, txq, txq.buf, rxq, rxq.buf, bufs
    {
      Dev(txq.Items(), rxq.RxState(), View(bufs[..]), sleeping, initialized)
    }

    ghost function Sizes(): Caps
      reads this
    {
      Caps(txq.buf.Length, rxq.buf.Length)
    }

    /** Opening the device: empty rings of the configured sizes and cleared buffers. */
    constructor (txSize: nat, rxSize: nat)
      requires 0 < txSize && 0 < rxSize
      ensures Quiet() && Abs() == Start() && Sizes() == Caps(txSize, rxSize)
    {
      var tb := new Packet[txSize](i => ZERO_PACKET);
      var rb := new Packet[rxSize](i => ZERO_PACKET);
      var t := new Ring(tb);
      var r := new Ring(rb);
      txq, rxq := t, r;
      bufs := new HwBuf[HWMB_COUNT](i => HwBuf(ZERO_PACKET, false, false, false, false, false, false, false, false));
      ifReg, sleeping, initialized := 0, false, true;
      new;
      ZeroIsEmpty(0);
      assert View(bufs[..]) == ZeroBufs();
    }

    /** Puts one received message. A status left over from an earlier put of the same interrupt does no harm: if it is
        an overrun, the queue is still full. */
    method ReceiveOne(msg: Packet, statusIn: Status) returns (status: Status)
      requires rxq.Valid() && (statusIn == SwOverrun ==> rxq.count == rxq.buf.Length)
      modifies rxq, rxq.buf
      ensures rxq.Valid() && (status == SwOverrun ==> rxq.count == rxq.buf.Length)
      ensures rxq.RxState() == Feed(old(rxq.RxState()), rxq.buf.Length, [msg])
    {
      ghost var q := rxq.RxState();
      status := rxq.PutRx(msg, statusIn);
      ghost var next := RxPut(q, rxq.buf.Length, msg, Success).0;
      assert Feed(next, rxq.buf.Length, [msg][1..]) == next;
    }

    /** Answers a remote request from the assigned responses. */
    method AnswerRemote(p: Packet, statusIn: Status) returns (status: Status)
      requires Wired() && rxq.Valid() && (statusIn == SwOverrun ==> rxq.count == rxq.buf.Length)
      requires p.msgType != DATA_MSG
      modifies rxq, rxq.buf
      ensures rxq.Valid() && (status == SwOverrun ==> rxq.count == rxq.buf.Length)
      ensures rxq.RxState() == Feed(old(rxq.RxState()), rxq.buf.Length, Delivered(View(bufs[..]), p))
      ensures bufs[..] == old(bufs[..])
    {
      status := statusIn;
      var k := FindResponse(p.id);
      if k < HWMB_COUNT {
        status := ReceiveOne(bufs[k].packet.(msgType := DATA_MSG), status);
      }
    }

    /** Services one pending buffer: confirm, receive, free it, and answer a remote request from the table. */
    method ServeBuffer(mb: nat, statusIn: Status) returns (status: Status)
      requires Wired() && rxq.Valid() && mb < HWMB_COUNT && PendingBuf(bufs[mb])
      requires statusIn == SwOverrun ==> rxq.count == rxq.buf.Length
      modifies rxq, rxq.buf, bufs
      ensures rxq.Valid() && QuietBuf(bufs[mb])
      ensures forall i | 0 <= i < HWMB_COUNT && i != mb :: bufs[i] == old(bufs[i])
      ensures View(bufs[..]) == old(View(bufs[..]))
      ensures rxq.RxState() ==
              Feed(old(rxq.RxState()), rxq.buf.Length, Delivered(old(View(bufs[..])), old(bufs[mb].packet)))
      ensures status == SwOverrun ==> rxq.count == rxq.buf.Length
    {
      status := statusIn;
      var hw := bufs[mb];
      if hw.txErr || hw.rxErr {
        hw := hw.(txErr := false, rxErr := false);
      }
      if hw.dataTxOk {
        hw := hw.(dataTxOk := false, dataRx := true);
      }
      if hw.rtrTxOk {
        hw := hw.(rtrTxOk := false, rtrRx := true);
      }
      if hw.dataRx {
        hw := hw.(dataRx := false, inUse := false);
        status := ReceiveOne(hw.packet.(msgType := DATA_MSG), status);
      }
      if hw.rtrRx {
        hw := hw.(rtrRx := false, inUse := false);
        status := AnswerRemote(hw.packet, status);
      }
      bufs[mb] := hw;
      assert View(bufs[..])[mb] == old(View(bufs[..]))[mb];
    }

    /** The search for a response assigned to `id`. */
    method FindResponse(id: nat) returns (k: nat)
      requires bufs.Length == HWMB_COUNT
      ensures k == ResponseTo(View(bufs[..]), id)
    {
      k := 0;
      while k < HWMB_COUNT
        invariant k <= HWMB_COUNT
        invariant forall j | 0 <= j < k :: !(bufs[j].rtr && bufs[j].packet.id == id)
      {
        if bufs[k].rtr && bufs[k].packet.id == id {
          break;
        }
        k := k + 1;
      }
    }

    /** The lowest buffer with a pending interrupt. A register whose set bits all lie above the buffers yields none, and
        the interrupt loop would then turn without end: that no such bit is ever set is part of `Ready`. */
    method FirstInterrupt() returns (mb: nat)
      requires ifReg < WORD
      ensures mb <= HWMB_COUNT && (forall j | 0 <= j < mb :: j !in Members(ifReg))
      ensures mb < HWMB_COUNT ==> mb in Members(ifReg)
    {
      mb := 0;
      while mb < HWMB_COUNT
        invariant mb <= HWMB_COUNT && forall j | 0 <= j < mb :: j !in Members(ifReg)
      {
        TestIsBit(ifReg, mb);
        if And(ifReg, Mask(mb)) != 0 {
          break;
        }
        mb := mb + 1;
      }
    }

    /** One turn of the interrupt loop: clears the lowest pending bit and services its buffer. */
    method ServeLowest(statusIn: Status) returns (status: Status)
      requires Ready() && Members(ifReg) != {}
      requires statusIn == SwOverrun ==> rxq.count == rxq.buf.Length
      modifies this`ifReg, rxq, rxq.buf, bufs
      ensures Ready() && Members(ifReg) < old(Members(ifReg))
      ensures status == SwOverrun ==> rxq.count == rxq.buf.Length
      ensures View(bufs[..]) == old(View(bufs[..])) && txq.Items() == old(txq.Items())
      ensures Feed(rxq.RxState(), rxq.buf.Length, Outputs(View(bufs[..]), Members(ifReg), 0)) ==
              old(Feed(rxq.RxState(), rxq.buf.Length, Outputs(View(bufs[..]), Members(ifReg), 0)))
    {
      var mb := FirstInterrupt();
      ghost var pending := Members(ifReg);
      assert mb < HWMB_COUNT by {
        var i :| i in pending;
      }
      ClearBit(ifReg, mb);
      ifReg := AndNot(ifReg, Mask(mb));
      status := ServeBuffer(mb, statusIn);
      OutputsFirst(View(bufs[..]), pending, mb);
      FeedAppend(old(rxq.RxState()), rxq.buf.Length, Delivered(old(View(bufs[..])), old(bufs[..])[mb].packet),
                 Outputs(View(bufs[..]), pending - {mb}, 0));
    }

    /** The interrupt service routine, for every register that names buffers with a pending transmission: it terminates
        with the register clear and every buffer quiet, feeds the receive queue with what the pending buffers deliver,
        in buffer order, and drops none of it although it reuses one status variable for all of them. */
    method Isr()
      requires Ready()
      modifies this`ifReg, rxq, rxq.buf, bufs
      ensures Quiet()
      ensures View(bufs[..]) == old(View(bufs[..])) && txq.Items() == old(txq.Items())
      ensures rxq.RxState() == old(Feed(rxq.RxState(), rxq.buf.Length, Outputs(View(bufs[..]), Members(ifReg), 0)))
    {
      var status := Success;
      ghost var goal := Feed(rxq.RxState(), rxq.buf.Length, Outputs(View(bufs[..]), Members(ifReg), 0));
      ZeroIsEmpty(ifReg);
      while ifReg != 0
        invariant Ready() && (ifReg == 0 <==> Members(ifReg) == {})
        invariant status == SwOverrun ==> rxq.count == rxq.buf.Length
        invariant View(bufs[..]) == old(View(bufs[..])) && txq.Items() == old(txq.Items())
        invariant Feed(rxq.RxState(), rxq.buf.Length, Outputs(View(bufs[..]), Members(ifReg), 0)) == goal
        decreases Members(ifReg)
      {
        status := ServeLowest(status);
        ZeroIsEmpty(ifReg);
      }
      OutputsSkip(View(bufs[..]), {}, 0, HWMB_COUNT);
    }

    /** First buffer that is not in use. */
    method FindFree() returns (k: nat)
      requires Quiet()
      ensures k == FreeBuf(View(bufs[..]))
    {
      k := 0;
      ZeroIsEmpty(0);
      while k < HWMB_COUNT
        invariant k <= HWMB_COUNT && forall j | 0 <= j < k :: bufs[j].rtr
      {
        if !bufs[k].inUse {
          break;
        }
        k := k + 1;
      }
    }

    /** Loads a packet into a free buffer and raises its interrupt. */
    method Load(k: nat, p: Packet)
      requires Quiet() && k < HWMB_COUNT && !bufs[k].rtr
      modifies this`ifReg, bufs
      ensures Ready() && Members(ifReg) == {k}
      ensures View(bufs[..]) == old(View(bufs[..]))[k := Buf(p, false)]
      ensures bufs[k].packet == p
    {
      ZeroIsEmpty(0);
      SetBit(ifReg, k);
      if p.msgType == DATA_MSG {
        bufs[k] := bufs[k].(inUse := true, packet := p, dataTxOk := true);
      } else {
        bufs[k] := bufs[k].(inUse := true, packet := p, rtrTxOk := true);
      }
      ifReg := Or(ifReg, Mask(k));
    }

    /** Moves the oldest queued packet through buffer `k`. */
    method HandOver(k: nat) returns (status: Status)
      requires Quiet() && k < HWMB_COUNT && !bufs[k].rtr
      modifies this`ifReg, txq, rxq, rxq.buf, bufs
      ensures Quiet()
      ensures old(txq.Items()) == [] ==> Abs() == old(Abs()) && status == QueueEmpty
      ensures old(txq.Items()) != [] ==>
                var d, p := old(Abs()), old(txq.Items())[0];
                && status == Success
                && txq.Items() == d.tx[1..]
                && View(bufs[..]) == d.bufs[k := Buf(p, false)]
                && rxq.RxState() == Feed(d.rx, rxq.buf.Length, Delivered(d.bufs, p))
    {
      var p;
      p, status := txq.GetTx(ZERO_PACKET, Success);
      if status == Success {
        ResponsesAfterLoad(View(bufs[..]), k, p);
        Load(k, p);
        SingleOutput(View(bufs[..]), k);
      } else {
        ZeroIsEmpty(0);
        OutputsSkip(View(bufs[..]), {}, 0, HWMB_COUNT);
      }
      Isr();
    }

    /** The write driver. */
    method WriteDriver() returns (status: Status)
      requires Quiet()
      modifies this`ifReg, txq, rxq, rxq.buf, bufs
      ensures Quiet()
      ensures Abs() == Transmit(old(Abs()), Sizes()).0 && status == Transmit(old(Abs()), Sizes()).1
    {
      if !initialized {
        return LoopbackNotInit;
      }
      if sleeping {
        return DevSleeping;
      }
      var k := FindFree();
      if k < HWMB_COUNT {
        status := HandOver(k);
      } else {
        status := NoFreeMb;
        ZeroIsEmpty(0);
        OutputsSkip(View(bufs[..]), {}, 0, HWMB_COUNT);
        Isr();
      }
    }

    /** The parameter check of the API. An overlong message is refused, and its length clipped for the caller. */
    method CheckParameters(msg: Option<Packet>) returns (status: Status, out: Option<Packet>)
      ensures (status, out) == Check(initialized, msg)
    {
      status, out := Success, msg;
      if msg.Some? {
        if !initialized {
          status := DevNotInit;
        }
        if status == Success {
          var p := msg.value;
          if p.idType != STANDARD_ID && p.idType != EXTENDED_ID {
            status := InvalidMsgIdType;
          } else if || (p.idType == STANDARD_ID && p.id > MAX_STANDARD_ID)
                    || (p.idType == EXTENDED_ID && p.id > MAX_EXTENDED_ID) {
            status := IdRangeError;
          } else if p.length > MAX_DATA {
            status := InvalidDataLength;
            out := Some(p.(length := MAX_DATA));
          }
        }
      } else {
        status := InvalidMsgPointer;
      }
    }

    /** A data (`DATA_MSG`) or remote (`RTR_MSG`) request: check, set the message type, queue, and call the driver
        once the packet is queued. A message that passes the check must carry the device index 0, by which the source
        then indexes its table of one device. */
    method SendRequest(msg: Option<Packet>, msgType: nat) returns (status: Status, out: Option<Packet>)
      requires Quiet() && (Check(initialized, msg).0 == Success ==> msg.value.dev == 0)
      modifies this`ifReg, txq, txq.buf, rxq, rxq.buf, bufs
      ensures Quiet()
      ensures Abs() == Request(old(Abs()), Sizes(), msg, msgType).0
      ensures status == Request(old(Abs()), Sizes(), msg, msgType).1
      ensures var (checked, m) := Check(initialized, msg);
              out == if checked == Success then Some(m.value.(msgType := msgType)) else m
    {
      status, out := CheckParameters(msg);
      if status == Success {
        out := Some(out.value.(msgType := msgType));
        status := txq.PutTx(out.value, status);
        if status == Success {
          assert Abs() == old(Abs()).(tx := old(Abs()).tx + [out.value]);
          status := WriteDriver();
        }
      }
    }

    /** Assigns a buffer to respond to remote requests. */
    method AssignRtrBuf(p: Packet) returns (status: Status)
      requires Quiet()
      modifies bufs
      ensures Quiet() && rxq.RxState() == old(rxq.RxState()) && txq.Items() == old(txq.Items())
      ensures !initialized ==> status == LoopbackNotInit && View(bufs[..]) == old(View(bufs[..]))
      ensures initialized ==>
                var bs := old(View(bufs[..]));
                var k := FreeBuf(bs);
                if Mentions(bs, p.id) then status == RtrAlreadyAssigned && View(bufs[..]) == bs
                else if k == HWMB_COUNT then status == NoFreeMb && View(bufs[..]) == bs
                else status == Success && View(bufs[..]) == bs[k := Buf(p, true)]
    {
      status := Success;
      if !initialized {
        return LoopbackNotInit;
      }
      var mb := 0;
      ghost var bs := View(bufs[..]);
      while mb < HWMB_COUNT
        invariant mb <= HWMB_COUNT && forall j | 0 <= j < mb :: bs[j].packet.id != p.id
      {
        if bufs[mb].packet.id == p.id {
          assert bs[mb].packet.id == p.id;
          return RtrAlreadyAssigned;
        }
        mb := mb + 1;
      }
      mb := FindFree();
      if mb < HWMB_COUNT {
        ZeroIsEmpty(0);
        bufs[mb] := bufs[mb].(rtr := true, inUse := true, packet := p);
        assert View(bufs[..]) == bs[mb := Buf(p, true)];
      } else {
        status := NoFreeMb;
      }
    }

    /** Takes back the response assigned to the identifier of `p`. */
    method ReleaseRtrBuf(p: Packet) returns (status: Status)
      requires Quiet()
      modifies bufs
      ensures Quiet() && rxq.RxState() == old(rxq.RxState()) && txq.Items() == old(txq.Items())
      ensures !initialized ==> status == LoopbackNotInit && View(bufs[..]) == old(View(bufs[..]))
      ensures initialized ==>
                var bs := old(View(bufs[..]));
                var k := ResponseTo(bs, p.id);
                if k == HWMB_COUNT then status == NoAssignedMb && View(bufs[..]) == bs
                else status == Success && View(bufs[..]) == bs[k := Buf(bs[k].packet.(id := 0), false)]
    {
      status := Success;
      if !initialized {
        return LoopbackNotInit;
      }
      ghost var bs := View(bufs[..]);
      var mb := FindResponse(p.id);
      if mb < HWMB_COUNT {
        ZeroIsEmpty(0);
        bufs[mb] := bufs[mb].(packet := bufs[mb].packet.(id := 0), rtr := false, inUse := false);
        assert View(bufs[..]) == bs[mb := Buf(bs[mb].packet.(id := 0), false)];
      } else {
        status := NoAssignedMb;
      }
    }

    /** Assigns the response to remote requests with the identifier of a message. */
    method AssignRemote(msg: Option<Packet>) returns (status: Status, out: Option<Packet>)
      requires Quiet() && (Check(initialized, msg).0 == Success ==> msg.value.dev == 0)
      modifies bufs
      ensures Quiet()
      ensures Abs() == Assign(old(Abs()), msg).0 && status == Assign(old(Abs()), msg).1
      ensures var (checked, m) := Check(initialized, msg);
              out == if checked == Success then Some(m.value.(msgType := DATA_MSG)) else m
    {
      status, out := CheckParameters(msg);
      if status == Success {
        out := Some(out.value.(msgType := DATA_MSG));
        status := AssignRtrBuf(out.value);
      }
    }

    /** Takes the response to the identifier of a message back. An overlong message is clipped for the caller. */
    method ClearRemote(msg: Option<Packet>) returns (status: Status, out: Option<Packet>)
      requires Quiet() && (Check(initialized, msg).0 in {Success, InvalidDataLength} ==> msg.value.dev == 0)
      modifies bufs
      ensures Quiet()
      ensures Abs() == Clear(old(Abs()), msg).0 && status == Clear(old(Abs()), msg).1
      ensures out == Check(initialized, msg).1
    {
      status, out := CheckParameters(msg);
      if status == Success || status == InvalidDataLength {
        status := ReleaseRtrBuf(out.value);
      }
    }

    /** Reads a packet. The read that reports an overrun takes a packet off the queue and does not hand it out. */
    method ReceiveData(msg: Option<Packet>) returns (status: Status, out: Option<Packet>)
      requires Quiet()
      modifies rxq
      ensures Quiet()
      ensures Abs() == Receive(old(Abs()), msg).0 && status == Receive(old(Abs()), msg).1
      ensures status == Success ==> old(rxq.Items()) != [] && out == Some(old(rxq.Items())[0])
      ensures status != Success ==> out == msg
    {
      out := msg;
      if msg.None? {
        return InvalidParameter, out;
      }
      if !initialized {
        return DevNotInit, out;
      }
      var p;
      p, status := rxq.GetRx(ZERO_PACKET);
      if status == Success {
        out := Some(p);
      }
    }

    /** `CANC_Sleep_Device` and `CANC_Wakeup_Device` */
    method SetSleep(asleep: bool) returns (status: Status)
      requires Quiet()
      modifies this`sleeping
      ensures Quiet()
      ensures Abs() == (if initialized then old(Abs()).(sleeping := asleep) else old(Abs()))
      ensures status == if initialized then Success else DevNotInit
    {
      if !initialized {
        return DevNotInit;
      }
      sleeping := asleep;
      status := Success;
    }

    /** Starts the device again, after a shutdown or not: both rings are emptied, and the error the receive ring
        keeps, the buffers and the sleep flag are left alone. */
    method Restart() returns (status: Status)
      requires Quiet()
      modifies this`ifReg, this`initialized, txq, rxq
      ensures Quiet() && Abs() == Apply(old(Abs()), Sizes(), CanDevice.Restart).0 && status == Success
    {
      txq.Restart();
      rxq.Restart();
      ifReg, initialized, status := 0, true, Success;
    }

    /** Clears every buffer and forgets the control block; the queues and the sleep flag are left alone. */
    method Shutdown() returns (status: Status)
      requires Quiet()
      modifies this`initialized, bufs
      ensures Quiet() && status == Success
      ensures Abs() == old(Abs()).(bufs := ZeroBufs(), init := false)
    {
      ZeroIsEmpty(0);
      var i := 0;
      while i < HWMB_COUNT
        invariant i <= HWMB_COUNT && Quiet()
        invariant forall j | 0 <= j < i :: bufs[j].packet == ZERO_PACKET && !bufs[j].rtr
        invariant rxq.RxState() == old(rxq.RxState()) && txq.Items() == old(txq.Items())
      {
        bufs[i] := HwBuf(ZERO_PACKET, false, false, false, false, false, false, false, false);
        i := i + 1;
      }
      initialized := false;
      status := Success;
      assert View(bufs[..]) == ZeroBufs();
    }
  }

  lemma SingleOutput(vs: seq<Buf>, k: nat)
    requires k < |vs|
    ensures Outputs(vs, {k}, 0) == Delivered(vs, vs[k].packet)
  {
    OutputsFirst(vs, {k}, k);
    OutputsSkip(vs, {k} - {k}, 0, |vs|);
  }

  /** A transmission through an unassigned buffer sees the same responses as before. */
  lemma ResponsesAfterLoad(bufs: seq<Buf>, k: nat, p: Packet)
    requires k < |bufs| && !bufs[k].rtr
    ensures Delivered(bufs[k := Buf(p, false)], p) == Delivered(bufs, p)
  {
    var after := bufs[k := Buf(p, false)];
    var i, j := ResponseTo(bufs, p.id), ResponseTo(after, p.id);
    assert i < |bufs| ==> after[i] == bufs[i];
    assert j < |bufs| ==> after[j] == bufs[j];
  }
}
