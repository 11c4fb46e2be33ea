/** The CAN loopback stack between API calls, as values: what every request, sleep, wake-up, response assignment
    and receive does to the two queues and the five message buffers, and what holds over every run of them. */
module CanDevice {
  import opened CanQueue
  import opened Common

  const DATA_MSG: nat := 0
  const RTR_MSG: nat := 1
  const STANDARD_ID: nat := 0
  const EXTENDED_ID: nat := 1
  const MAX_STANDARD_ID: nat := 0x7FF
  const MAX_EXTENDED_ID: nat := 0x1FFF_FFFF
  const MAX_DATA: nat := 8
  const HWMB_COUNT: nat := 5

  /** A message buffer between calls: the packet it holds, stale or not, and whether it is assigned as the response
      to remote requests. */
  datatype Buf = Buf(packet: Packet, rtr: bool)

  /** The device between calls. */
  datatype Dev = Dev(tx: seq<Packet>, rx: Rx, bufs: seq<Buf>, sleeping: bool, init: bool)

  /** Queue capacities. */
  datatype Caps = Caps(tx: nat, rx: nat)

  // ----- message buffers -----

  /** First buffer that is not assigned, or the number of buffers. */
  function FreeBuf(bufs: seq<Buf>): (k: nat)
    ensures k <= |bufs|
    ensures k < |bufs| ==> !bufs[k].rtr
    ensures forall j | 0 <= j < k :: bufs[j].rtr
  {
    if bufs == [] || !bufs[0].rtr then 0 else 1 + FreeBuf(bufs[1..])
  }

  /** First buffer assigned to respond to `id`, or the number of buffers. */
  function ResponseTo(bufs: seq<Buf>, id: nat): (k: nat)
    ensures k <= |bufs|
    ensures k < |bufs| ==> bufs[k].rtr && bufs[k].packet.id == id
    ensures forall j | 0 <= j < k :: !(bufs[j].rtr && bufs[j].packet.id == id)
  {
    if bufs == [] || (bufs[0].rtr && bufs[0].packet.id == id) then 0 else 1 + ResponseTo(bufs[1..], id)
  }

  /** What a transmitted packet puts into the receive queue: a data packet itself, a remote request the
      response assigned to its identifier, if there is one. */
  function Delivered(bufs: seq<Buf>, p: Packet): (ps: seq<Packet>)
    ensures |ps| <= 1
  {
    if p.msgType == DATA_MSG then [p]
    else
      var k := ResponseTo(bufs, p.id);
      if k < |bufs| then [bufs[k].packet.(msgType := DATA_MSG)] else []
  }

  /** Puts packets into the receive queue, each with a fresh status. */
  function Feed(q: Rx, cap: nat, ps: seq<Packet>): Rx
    requires 0 < cap
    decreases ps
  {
    if ps == [] then q else Feed(RxPut(q, cap, ps[0], Success).0, cap, ps[1..])
  }

  lemma {:induction false} FeedAppend(q: Rx, cap: nat, ps: seq<Packet>, rs: seq<Packet>)
    requires 0 < cap
    ensures Feed(q, cap, ps + rs) == Feed(Feed(q, cap, ps), cap, rs)
    decreases ps
  {
    if ps == [] {
      assert ps + rs == rs;
    } else {
      assert (ps + rs)[1..] == ps[1..] + rs;
      FeedAppend(RxPut(q, cap, ps[0], Success).0, cap, ps[1..], rs);
    }
  }

  // ----- driver and API operations -----

  /** The write driver on a quiescent device: the oldest queued packet goes through the first free buffer, where it
      stays as a stale packet, to the receive queue. */
  function Transmit(d: Dev, caps: Caps): (Dev, Status)
    requires 0 < caps.rx
  {
    var k := FreeBuf(d.bufs);
    if !d.init then (d, LoopbackNotInit)
    else if d.sleeping then (d, DevSleeping)
    else if k == |d.bufs| then (d, NoFreeMb)
    else if d.tx == [] then (d, QueueEmpty)
    else
      (d.(tx := d.tx[1..],
          bufs := d.bufs[k := Buf(d.tx[0], false)],
          rx := Feed(d.rx, caps.rx, Delivered(d.bufs, d.tx[0]))), Success)
  }

  /** Identifier within its 11 or 29 bits and at most eight data bytes: the frame rules of sections 3.2.1 and 3.2.2
      of the Bosch CAN specification 2.0 part B. */
  predicate WellFormed(p: Packet) {
    && ((p.idType == STANDARD_ID && p.id <= MAX_STANDARD_ID) || (p.idType == EXTENDED_ID && p.id <= MAX_EXTENDED_ID))
    && p.length <= MAX_DATA
  }

  /** Parameter check: the status, and the message, whose length an overlong one gets clipped. */
  function Check(init: bool, msg: Option<Packet>): (r: (Status, Option<Packet>))
    ensures r.0 == Success <==> init && msg.Some? && WellFormed(msg.value)
    ensures r.1.Some? <==> msg.Some?
    ensures r.0 == InvalidDataLength ==>
              init && msg.Some? && WellFormed(r.1.value) && r.1.value == msg.value.(length := MAX_DATA)
    ensures r.0 != InvalidDataLength ==> r.1 == msg
  {
    if msg.None? then (InvalidMsgPointer, msg)
    else if !init then (DevNotInit, msg)
    else
      var p := msg.value;
      if p.idType != STANDARD_ID && p.idType != EXTENDED_ID then (InvalidMsgIdType, msg)
      else if (p.idType == STANDARD_ID && p.id > MAX_STANDARD_ID) || (p.idType == EXTENDED_ID && p.id > MAX_EXTENDED_ID)
      then (IdRangeError, msg)
      else if p.length > MAX_DATA then (InvalidDataLength, Some(p.(length := MAX_DATA)))
      else (Success, msg)
  }

  /** Every answer of the check says exactly what is wrong with the call. */
  lemma CheckOutcome(init: bool, msg: Option<Packet>)
    ensures var status := Check(init, msg).0;
            && (status == InvalidMsgPointer <==> msg.None?)
            && (status == DevNotInit <==> msg.Some? && !init)
            && (msg.Some? && init ==>
                  var p := msg.value;
                  var typed := p.idType in {STANDARD_ID, EXTENDED_ID};
                  var ranged := typed && p.id <= if p.idType == STANDARD_ID then MAX_STANDARD_ID else MAX_EXTENDED_ID;
                  && (status == InvalidMsgIdType <==> !typed)
                  && (status == IdRangeError <==> typed && !ranged)
                  && (status == InvalidDataLength <==> ranged && p.length > MAX_DATA)
                  && (status == Success <==> ranged && p.length <= MAX_DATA))
            && status in {InvalidMsgPointer, DevNotInit, InvalidMsgIdType, IdRangeError, InvalidDataLength, Success}
  {
  }

  function Request(d: Dev, caps: Caps, msg: Option<Packet>, msgType: nat): (Dev, Status)
    requires 0 < caps.rx
  {
    var (status, m) := Check(d.init, msg);
    if status != Success then (d, status)
    else if |d.tx| >= caps.tx then (d, QueueFull)
    else Transmit(d.(tx := d.tx + [m.value.(msgType := msgType)]), caps)
  }

  /** Some buffer, assigned or not, holds a packet with identifier `id`. */
  predicate Mentions(bufs: seq<Buf>, id: nat) {
    exists i :: 0 <= i < |bufs| && bufs[i].packet.id == id
  }

  function Assign(d: Dev, msg: Option<Packet>): (Dev, Status) {
    var (status, m) := Check(d.init, msg);
    if status != Success then (d, status)
    else if Mentions(d.bufs, m.value.id) then (d, RtrAlreadyAssigned)
    else
      var k := FreeBuf(d.bufs);
      if k == |d.bufs| then (d, NoFreeMb)
      else (d.(bufs := d.bufs[k := Buf(m.value.(msgType := DATA_MSG), true)]), Success)
  }

  function Clear(d: Dev, msg: Option<Packet>): (Dev, Status) {
    var (status, m) := Check(d.init, msg);
    if status != Success && status != InvalidDataLength then (d, status)
    else
      var k := ResponseTo(d.bufs, m.value.id);
      if k == |d.bufs| then (d, NoAssignedMb)
      else (d.(bufs := d.bufs[k := Buf(d.bufs[k].packet.(id := 0), false)]), Success)
  }

  function Receive(d: Dev, msg: Option<Packet>): (Dev, Status) {
    if msg.None? then (d, InvalidParameter)
    else if !d.init then (d, DevNotInit)
    else (d.(rx := RxGet(d.rx).0), RxGet(d.rx).1)
  }

  const ZERO_PACKET: Packet := Packet(0, 0, 0, 0, 0, [0, 0, 0, 0, 0, 0, 0, 0])

  function ZeroBufs(): (bufs: seq<Buf>)
    ensures |bufs| == HWMB_COUNT
  {
    seq(HWMB_COUNT, i => Buf(ZERO_PACKET, false))
  }

  function Start(): Dev {
    Dev([], Rx([], Success), ZeroBufs(), false, true)
  }

  datatype Op =
    | DataRequest(msg: Option<Packet>) | RemoteRequest(msg: Option<Packet>)
    | AssignRemote(msg: Option<Packet>) | ClearRemote(msg: Option<Packet>)
    | ReceiveData(msg: Option<Packet>) | Sleep | Wakeup | Shutdown | Restart

  function Apply(d: Dev, caps: Caps, op: Op): (Dev, Status)
    requires 0 < caps.rx
  {
    match op
    case DataRequest(msg) => Request(d, caps, msg, DATA_MSG)
    case RemoteRequest(msg) => Request(d, caps, msg, RTR_MSG)
    case AssignRemote(msg) => Assign(d, msg)
    case ClearRemote(msg) => Clear(d, msg)
    case ReceiveData(msg) => Receive(d, msg)
    case Sleep => if d.init then (d.(sleeping := true), Success) else (d, DevNotInit)
    case Wakeup => if d.init then (d.(sleeping := false), Success) else (d, DevNotInit)
    case Shutdown => (d.(bufs := ZeroBufs(), init := false), Success)
    case Restart => (d.(tx := [], rx := Rx([], d.rx.error), init := true), Success)
  }

  // ----- the device invariant -----

  /** Responses have distinct identifiers, every packet anywhere is well formed, and received packets are data. */
  ghost predicate Inv(d: Dev, caps: Caps) {
    && |d.bufs| == HWMB_COUNT && 0 < caps.rx
    && |d.tx| <= caps.tx && |d.rx.items| <= caps.rx && d.rx.error in {Success, SwOverrun}
    && DistinctResponses(d.bufs)
    && (forall i | 0 <= i < |d.bufs| :: WellFormed(d.bufs[i].packet))
    && (forall i | 0 <= i < |d.tx| :: WellFormed(d.tx[i]))
    && (forall i | 0 <= i < |d.rx.items| :: WellFormed(d.rx.items[i]) && d.rx.items[i].msgType == DATA_MSG)
  }

  lemma StartInv(caps: Caps)
    requires 0 < caps.rx
    ensures Inv(Start(), caps)
  {
  }

  lemma PutInv(q: Rx, cap: nat, p: Packet)
    requires 0 < cap && |q.items| <= cap && WellFormed(p) && p.msgType == DATA_MSG
    requires forall i | 0 <= i < |q.items| :: WellFormed(q.items[i]) && q.items[i].msgType == DATA_MSG
    ensures var r := RxPut(q, cap, p, Success).0;
            && |r.items| <= cap && (r.error == q.error || r.error == SwOverrun)
            && forall i | 0 <= i < |r.items| :: WellFormed(r.items[i]) && r.items[i].msgType == DATA_MSG
  {
  }

  lemma TransmitInv(d: Dev, caps: Caps)
    requires Inv(d, caps)
    ensures Inv(Transmit(d, caps).0, caps)
  {
    if Transmit(d, caps).1 == Success {
      var ps := Delivered(d.bufs, d.tx[0]);
      if ps != [] {
        assert Feed(d.rx, caps.rx, ps) == RxPut(d.rx, caps.rx, ps[0], Success).0;
        PutInv(d.rx, caps.rx, ps[0]);
      }
    }
  }

  /** Every API call, in any order and with any message, keeps the invariant. */
  lemma ApplyInv(d: Dev, caps: Caps, op: Op)
    requires Inv(d, caps)
    ensures Inv(Apply(d, caps, op).0, caps)
  {
    match op
    case DataRequest(msg) => RequestInv(d, caps, msg, DATA_MSG);
    case RemoteRequest(msg) => RequestInv(d, caps, msg, RTR_MSG);
    case AssignRemote(msg) =>
    case ClearRemote(msg) =>
    case ReceiveData(msg) =>
    case Sleep =>
    case Wakeup =>
    case Shutdown =>
    case Restart =>
  }

  lemma RequestInv(d: Dev, caps: Caps, msg: Option<Packet>, msgType: nat)
    requires Inv(d, caps)
    ensures Inv(Request(d, caps, msg, msgType).0, caps)
  {
    if Check(d.init, msg).0 == Success && |d.tx| < caps.tx {
      TransmitInv(d.(tx := d.tx + [msg.value.(msgType := msgType)]), caps);
    }
  }

  // ----- runs -----

  function MsgType(op: Op): nat { if op.DataRequest? then DATA_MSG else RTR_MSG }

  predicate IsRequest(op: Op) { op.DataRequest? || op.RemoteRequest? }

  /** A packet that left the transmit queue: handed to the interrupt routine, or lost in a restart. */
  datatype Exit = Exit(p: Packet, lost: bool)

  function PacketsOf(left: seq<Exit>): (ps: seq<Packet>)
    ensures |ps| == |left| && forall i | 0 <= i < |left| :: ps[i] == left[i].p
  {
    seq(|left|, i requires 0 <= i < |left| => left[i].p)
  }

  /** Packets that leave the queue together. */
  function Exits(ps: seq<Packet>, lost: bool): (left: seq<Exit>)
    ensures |left| == |ps| && forall i | 0 <= i < |ps| :: left[i] == Exit(ps[i], lost)
  {
    seq(|ps|, i requires 0 <= i < |ps| => Exit(ps[i], lost))
  }

  /** What a run did: packets the transmit queue accepted, packets that left it, packets put into the receive queue, and
      the history of the receive queue. */
  datatype History = History(accepted: seq<Packet>, left: seq<Exit>, puts: seq<Packet>, log: seq<RxEvent>)

  const NO_HISTORY := History([], [], [], [])

  function Join(g: History, h: History): History {
    History(g.accepted + h.accepted, g.left + h.left, g.puts + h.puts, g.log + h.log)
  }

  /** A request is accepted when it passes the check and finds room, whatever status the driver then returns. */
  function AcceptedBy(d: Dev, caps: Caps, op: Op): seq<Packet> {
    if IsRequest(op) && Check(d.init, op.msg).0 == Success && |d.tx| < caps.tx
    then [op.msg.value.(msgType := MsgType(op))] else []
  }

  /** An accepted request that returns success has handed over the oldest queued packet. */
  function HandedBy(d: Dev, caps: Caps, op: Op): seq<Packet>
    requires 0 < caps.rx
  {
    var a := AcceptedBy(d, caps, op);
    if a != [] && Apply(d, caps, op).1 == Success then (d.tx + a)[..1] else []
  }

  /** The packets that leave the transmit queue: the one handed over, or all of them lost in a restart. */
  function LeftBy(d: Dev, caps: Caps, op: Op): seq<Exit>
    requires 0 < caps.rx
  {
    if op.Restart? then Exits(d.tx, true) else Exits(HandedBy(d, caps, op), false)
  }

  function PutsBy(d: Dev, caps: Caps, op: Op): seq<Packet>
    requires 0 < caps.rx
  {
    var h := HandedBy(d, caps, op);
    if h == [] then [] else Delivered(d.bufs, h[0])
  }

  function LogBy(d: Dev, caps: Caps, op: Op): seq<RxEvent>
    requires 0 < caps.rx
  {
    if op.ReceiveData? then if op.msg.Some? && d.init then EventOf(d.rx, caps.rx, Get) else []
    else if op.Restart? then EventOf(d.rx, caps.rx, Empty)
    else
      var ps := PutsBy(d, caps, op);
      if ps == [] then [] else EventOf(d.rx, caps.rx, Put(ps[0], Success))
  }

  function HistoryOf(d: Dev, caps: Caps, op: Op): History
    requires 0 < caps.rx
  {
    History(AcceptedBy(d, caps, op), LeftBy(d, caps, op), PutsBy(d, caps, op), LogBy(d, caps, op))
  }

  function Run(d: Dev, caps: Caps, ops: seq<Op>): (Dev, History)
    requires 0 < caps.rx
    decreases ops
  {
    if ops == [] then (d, NO_HISTORY)
    else
      var (e, h) := Run(Apply(d, caps, ops[0]).0, caps, ops[1..]);
      (e, Join(HistoryOf(d, caps, ops[0]), h))
  }

  /** The packets a history put into the queue, as opposed to those it dropped or read. */
  function PutOf(e: RxEvent): seq<Packet> {
    if e.Stored? || e.Replaced? then [e.p] else []
  }

  function PutsIn(log: seq<RxEvent>): seq<Packet> {
    if log == [] then [] else PutOf(log[0]) + PutsIn(log[1..])
  }

  lemma {:induction false} PutsInAppend(a: seq<RxEvent>, b: seq<RxEvent>)
    ensures PutsIn(a + b) == PutsIn(a) + PutsIn(b)
  {
    if a == [] {
      assert a + b == b;
    } else {
      assert (a + b)[1..] == a[1..] + b;
      PutsInAppend(a[1..], b);
    }
  }

  ghost predicate NothingDropped(log: seq<RxEvent>) {
    forall i | 0 <= i < |log| :: !log[i].Dropped?
  }

  lemma JoinLogs(log: seq<RxEvent>, g: seq<RxEvent>, h: seq<RxEvent>)
    requires NothingDropped(g) && NothingDropped(h)
    ensures NothingDropped(g + h) && (log + g) + h == log + (g + h)
  {
  }

  /** Conservation of a stretch of a run from device `d` to device `e`, with `log` the history of the receive queue
      before it. */
  ghost predicate Conserved(d: Dev, h: History, e: Dev, log: seq<RxEvent>) {
    && d.tx + h.accepted == PacketsOf(h.left) + e.tx
    && PutsIn(h.log) == h.puts
    && NothingDropped(h.log)
    && LogFits(log + h.log, e.rx)
  }

  lemma ConservedCompose(d: Dev, g: History, d': Dev, h: History, e: Dev, log: seq<RxEvent>)
    requires Conserved(d, g, d', log) && Conserved(d', h, e, log + g.log)
    ensures Conserved(d, Join(g, h), e, log)
  {
    Telescope(d.tx, g.accepted, h.accepted, PacketsOf(g.left), d'.tx, PacketsOf(h.left), e.tx);
    assert PacketsOf(g.left + h.left) == PacketsOf(g.left) + PacketsOf(h.left);
    PutsInAppend(g.log, h.log);
    JoinLogs(log, g.log, h.log);
  }

  /** The transmit queue in one call. */
  lemma StepTx(d: Dev, caps: Caps, op: Op)
    requires 0 < caps.rx
    ensures d.tx + AcceptedBy(d, caps, op) == PacketsOf(LeftBy(d, caps, op)) + Apply(d, caps, op).0.tx
    ensures !op.Restart? ==> d.tx + AcceptedBy(d, caps, op) == HandedBy(d, caps, op) + Apply(d, caps, op).0.tx
    ensures HandedBy(d, caps, op) == [] <==> AcceptedBy(d, caps, op) == [] || Apply(d, caps, op).1 != Success
    ensures |HandedBy(d, caps, op)| <= 1 && |AcceptedBy(d, caps, op)| <= 1
  {
    var a := AcceptedBy(d, caps, op);
    var t := d.tx + a;
    assert PacketsOf(LeftBy(d, caps, op)) == if op.Restart? then d.tx else HandedBy(d, caps, op);
    if a != [] {
      TransmitTx(d.(tx := t), caps);
      assert Apply(d, caps, op) == Transmit(d.(tx := t), caps);
    } else {
      assert t == d.tx;
    }
  }

  lemma TransmitTx(d: Dev, caps: Caps)
    requires 0 < caps.rx
    ensures if Transmit(d, caps).1 == Success then d.tx != [] && d.tx == d.tx[..1] + Transmit(d, caps).0.tx
            else Transmit(d, caps).0 == d
  {
  }

  lemma TransmitRx(d: Dev, caps: Caps)
    requires 0 < caps.rx && Transmit(d, caps).1 == Success && d.tx != []
    ensures var ps := Delivered(d.bufs, d.tx[0]);
            Transmit(d, caps).0.rx == if ps == [] then d.rx else RxPut(d.rx, caps.rx, ps[0], Success).0
  {
    var ps := Delivered(d.bufs, d.tx[0]);
    if ps != [] {
      assert Feed(d.rx, caps.rx, ps) == RxPut(d.rx, caps.rx, ps[0], Success).0;
    }
  }

  /** The receive queue in one call: one step for each packet put or read. */
  lemma StepRx(d: Dev, caps: Caps, op: Op)
    requires 0 < caps.rx
    ensures var es, q := LogBy(d, caps, op), Apply(d, caps, op).0.rx;
            if es == [] then q == d.rx
            else if op.ReceiveData? then es == EventOf(d.rx, caps.rx, Get) && q == RxStep(d.rx, caps.rx, Get)
            else if op.Restart? then es == EventOf(d.rx, caps.rx, Empty) && q == RxStep(d.rx, caps.rx, Empty)
            else
              && PutsBy(d, caps, op) != []
              && var put := Put(PutsBy(d, caps, op)[0], Success);
              es == EventOf(d.rx, caps.rx, put) && q == RxStep(d.rx, caps.rx, put)
  {
    var h := HandedBy(d, caps, op);
    if h != [] {
      TransmitRx(d.(tx := d.tx + AcceptedBy(d, caps, op)), caps);
    }
  }

  lemma StepLog(d: Dev, caps: Caps, op: Op, log: seq<RxEvent>)
    requires 0 < caps.rx && LogFits(log, d.rx)
    ensures LogFits(log + LogBy(d, caps, op), Apply(d, caps, op).0.rx)
  {
    var es := LogBy(d, caps, op);
    StepRx(d, caps, op);
    if es == [] {
      assert log + es == log;
    } else if op.ReceiveData? {
      LogFitsStep(log, d.rx, caps.rx, Get);
    } else if op.Restart? {
      LogFitsStep(log, d.rx, caps.rx, Empty);
    } else {
      LogFitsStep(log, d.rx, caps.rx, Put(PutsBy(d, caps, op)[0], Success));
    }
  }

  lemma PutsLogged(d: Dev, caps: Caps, op: Op)
    requires 0 < caps.rx
    ensures PutsIn(LogBy(d, caps, op)) == PutsBy(d, caps, op)
    ensures NothingDropped(LogBy(d, caps, op))
  {
    var log := LogBy(d, caps, op);
    if op.Restart? {
      OnlyDiscards(d.rx.items);
    } else if log != [] {
      assert log[1..] == [];
      assert PutsIn(log) == PutOf(log[0]) + PutsIn(log[1..]);
    }
  }

  lemma {:induction false} OnlyDiscards(items: seq<Packet>)
    ensures PutsIn(Discards(items)) == [] && NothingDropped(Discards(items))
  {
    if items != [] {
      OnlyDiscards(items[1..]);
      assert Discards(items)[1..] == Discards(items[1..]);
    }
  }

  lemma StepConserves(d: Dev, caps: Caps, op: Op, log: seq<RxEvent>)
    requires Inv(d, caps) && LogFits(log, d.rx)
    ensures Conserved(d, HistoryOf(d, caps, op), Apply(d, caps, op).0, log)
  {
    StepTx(d, caps, op);
    StepLog(d, caps, op, log);
    PutsLogged(d, caps, op);
  }

  /** Conservation over every run of API calls, in order and by content: packets accepted for transmission are those
      handed over or lost in a restart followed by those still queued; each packet handed over puts exactly what the
      responses assigned at that moment say; the receive queue never drops one; and packets put and not overwritten are
      those read or discarded in a restart followed by those still queued. */
  lemma {:induction false} EveryRunConserves(d: Dev, caps: Caps, ops: seq<Op>, log: seq<RxEvent>)
    requires Inv(d, caps) && LogFits(log, d.rx)
    ensures Inv(Run(d, caps, ops).0, caps)
    ensures Conserved(d, Run(d, caps, ops).1, Run(d, caps, ops).0, log)
    decreases ops
  {
    if ops == [] {
      assert log + [] == log && d.tx + [] == [] + d.tx;
    } else {
      var d' := Apply(d, caps, ops[0]).0;
      var g := HistoryOf(d, caps, ops[0]);
      ApplyInv(d, caps, ops[0]);
      StepConserves(d, caps, ops[0], log);
      EveryRunConserves(d', caps, ops[1..], log + g.log);
      var (e, h) := Run(d', caps, ops[1..]);
      ConservedCompose(d, g, d', h, e, log);
    }
  }

  // ----- what the receiver sees -----

  /** The packet a receive call copies out to its caller. */
  function ReturnedBy(d: Dev, caps: Caps, op: Op): seq<Packet>
    requires 0 < caps.rx
  {
    if op.ReceiveData? && Apply(d, caps, op).1 == Success && d.rx.items != [] then d.rx.items[..1] else []
  }

  function Returned(d: Dev, caps: Caps, ops: seq<Op>): seq<Packet>
    requires 0 < caps.rx
    decreases ops
  {
    if ops == [] then [] else ReturnedBy(d, caps, ops[0]) + Returned(Apply(d, caps, ops[0]).0, caps, ops[1..])
  }

  lemma StepReads(d: Dev, caps: Caps, op: Op)
    requires Inv(d, caps)
    ensures Count(LogBy(d, caps, op), IsTaken) == |ReturnedBy(d, caps, op)| + Count(LogBy(d, caps, op), IsReport)
  {
    var log := LogBy(d, caps, op);
    if op.Restart? {
      CountDiscards(d.rx.items, IsTaken);
      CountDiscards(d.rx.items, IsReport);
    } else if log != [] {
      assert log[..|log| - 1] == [];
      assert Count(log, IsTaken) == (if IsTaken(log[0]) then 1 else 0);
      assert Count(log, IsReport) == (if IsReport(log[0]) then 1 else 0);
    }
  }

  lemma {:induction false} RunReads(d: Dev, caps: Caps, ops: seq<Op>)
    requires Inv(d, caps)
    ensures var log := Run(d, caps, ops).1.log;
            Count(log, IsTaken) == |Returned(d, caps, ops)| + Count(log, IsReport)
    decreases ops
  {
    if ops != [] {
      var d' := Apply(d, caps, ops[0]).0;
      ApplyInv(d, caps, ops[0]);
      StepReads(d, caps, ops[0]);
      RunReads(d', caps, ops[1..]);
      CountAppend(LogBy(d, caps, ops[0]), Run(d', caps, ops[1..]).1.log, IsTaken);
      CountAppend(LogBy(d, caps, ops[0]), Run(d', caps, ops[1..]).1.log, IsReport);
    }
  }

  /** Over every run from the start, the packets taken off the receive queue and never handed to a caller are as many
      as the bursts of overruns reported: the read that reports a burst loses one more packet. */
  lemma EachReportedBurstLosesOneMore(caps: Caps, ops: seq<Op>)
    requires 0 < caps.rx
    ensures var log := Run(Start(), caps, ops).1.log;
            |TakenOf(log)| == |Returned(Start(), caps, ops)| + Bursts(log) - (if Unreported(log) then 1 else 0)
  {
    var log := Run(Start(), caps, ops).1.log;
    StartInv(caps);
    EveryRunConserves(Start(), caps, ops, []);
    assert [] + log == log;
    RunReads(Start(), caps, ops);
    SurvivorCount(log);
    BurstsReportedOnce(log);
  }

  // ----- the transmit queue never drains -----

  /** A run without a restart. */
  ghost predicate NoRestart(ops: seq<Op>) {
    forall op | op in ops :: !op.Restart?
  }

  /** The device can hand a packet over: it is started, awake and has a buffer that is not assigned. */
  ghost predicate Ready(d: Dev) {
    d.init && !d.sleeping && FreeSet(d.bufs) != {}
  }

  /** Requests accepted while the device could not hand a packet over. */
  ghost function Delayed(d: Dev, caps: Caps, ops: seq<Op>): nat
    requires 0 < caps.rx
    decreases ops
  {
    if ops == [] then 0
    else
      (if AcceptedBy(d, caps, ops[0]) != [] && !Ready(d) then 1 else 0)
      + Delayed(Apply(d, caps, ops[0]).0, caps, ops[1..])
  }

  lemma FreeIsFound(bufs: seq<Buf>)
    ensures FreeBuf(bufs) < |bufs| <==> FreeSet(bufs) != {}
  {
    if FreeBuf(bufs) < |bufs| {
      assert FreeBuf(bufs) in FreeSet(bufs);
    }
  }

  /** The status of a request says exactly what the device was like: the result of the check, a full queue, a sleeping
      device, no free buffer, or a hand-over. */
  lemma RequestOutcome(d: Dev, caps: Caps, msg: Option<Packet>, msgType: nat)
    requires 0 < caps.rx
    ensures var status, checked := Request(d, caps, msg, msgType).1, Check(d.init, msg).0;
            var queued := checked == Success && |d.tx| < caps.tx;
            && (checked != Success ==> status == checked)
            && (status == QueueFull <==> checked == Success && |d.tx| >= caps.tx)
            && (status == DevSleeping <==> queued && d.sleeping)
            && (status == NoFreeMb <==> queued && !d.sleeping && FreeSet(d.bufs) == {})
            && (status == Success <==> queued && Ready(d))
  {
    FreeIsFound(d.bufs);
    CheckOutcome(d.init, msg);
  }

  /** And what it did to the device: nothing unless it was queued; queued only unless the device was ready; and then the
      oldest packet went through the lowest free buffer, where it stays, and no other buffer changed. */
  lemma RequestEffect(d: Dev, caps: Caps, msg: Option<Packet>, msgType: nat)
    requires 0 < caps.rx
    ensures var e, checked := Request(d, caps, msg, msgType).0, Check(d.init, msg).0;
            var queued := checked == Success && |d.tx| < caps.tx;
            && (!queued ==> e == d)
            && (queued && !Ready(d) ==> e == d.(tx := d.tx + [msg.value.(msgType := msgType)]))
            && (queued && Ready(d) ==>
                  && var q := d.tx + [msg.value.(msgType := msgType)];
                  && e.tx == q[1..] && e.init == d.init && e.sleeping == d.sleeping && |e.bufs| == |d.bufs|
                  && (forall i | 0 <= i < |d.bufs| && e.bufs[i] != d.bufs[i] ::
                        !d.bufs[i].rtr && (forall j | 0 <= j < i :: d.bufs[j].rtr))
                  && (exists i :: 0 <= i < |d.bufs| && !d.bufs[i].rtr && e.bufs[i] == Buf(q[0], false)))
  {
    FreeIsFound(d.bufs);
    if Check(d.init, msg).0 == Success && |d.tx| < caps.tx && Ready(d) {
      var e, k := Request(d, caps, msg, msgType).0, FreeBuf(d.bufs);
      assert e.bufs[k] == Buf((d.tx + [msg.value.(msgType := msgType)])[0], false);
    }
  }

  lemma HandedWhenReady(d: Dev, caps: Caps, op: Op)
    requires 0 < caps.rx
    ensures HandedBy(d, caps, op) != [] <==> AcceptedBy(d, caps, op) != [] && Ready(d)
  {
    if IsRequest(op) {
      RequestOutcome(d, caps, op.msg, MsgType(op));
    }
  }

  lemma StepLengths<T>(t: seq<T>, a: seq<T>, h: seq<T>, t': seq<T>)
    requires t + a == h + t'
    ensures |t| + |a| == |h| + |t'|
  {
    assert |t + a| == |h + t'|;
  }

  /** Over every run the backlog grows by exactly the requests accepted while the device slept or had no free buffer,
      and nothing but a restart shrinks it. */
  lemma {:induction false} BacklogOnlyGrows(d: Dev, caps: Caps, ops: seq<Op>)
    requires 0 < caps.rx && NoRestart(ops)
    ensures |Run(d, caps, ops).0.tx| == |d.tx| + Delayed(d, caps, ops)
    decreases ops
  {
    if ops != [] {
      StepTx(d, caps, ops[0]);
      HandedWhenReady(d, caps, ops[0]);
      StepLengths(d.tx, AcceptedBy(d, caps, ops[0]), HandedBy(d, caps, ops[0]), Apply(d, caps, ops[0]).0.tx);
      BacklogOnlyGrows(Apply(d, caps, ops[0]).0, caps, ops[1..]);
    }
  }

  /** Every accepted request finds the device ready. */
  ghost predicate AlwaysReady(d: Dev, caps: Caps, ops: seq<Op>)
    requires 0 < caps.rx
    decreases ops
  {
    ops == [] ||
    ((AcceptedBy(d, caps, ops[0]) != [] ==> Ready(d)) && AlwaysReady(Apply(d, caps, ops[0]).0, caps, ops[1..]))
  }

  /** A device that is awake and has a free buffer whenever it accepts a request hands one packet over for each. */
  lemma {:induction false} ReadyHandsOver(d: Dev, caps: Caps, ops: seq<Op>)
    requires 0 < caps.rx && NoRestart(ops) && AlwaysReady(d, caps, ops)
    ensures |Run(d, caps, ops).1.left| == |Run(d, caps, ops).1.accepted| && |Run(d, caps, ops).0.tx| == |d.tx|
    decreases ops
  {
    if ops != [] {
      StepTx(d, caps, ops[0]);
      HandedWhenReady(d, caps, ops[0]);
      StepLengths(d.tx, AcceptedBy(d, caps, ops[0]), HandedBy(d, caps, ops[0]), Apply(d, caps, ops[0]).0.tx);
      ReadyHandsOver(Apply(d, caps, ops[0]).0, caps, ops[1..]);
    }
  }

  lemma FullStep(d: Dev, caps: Caps, op: Op)
    requires 0 < caps.rx && |d.tx| >= caps.tx && !op.Restart?
    ensures AcceptedBy(d, caps, op) == HandedBy(d, caps, op) == [] && LeftBy(d, caps, op) == []
    ensures Apply(d, caps, op).0.tx == d.tx
  {
    StepTx(d, caps, op);
  }

  /** Once the transmit queue is full it stays exactly as it is in every later run until a restart, which loses all of
      it, and no request is accepted. */
  lemma {:induction false} FullQueueIsStuck(d: Dev, caps: Caps, ops: seq<Op>)
    requires 0 < caps.rx && |d.tx| >= caps.tx && NoRestart(ops)
    ensures Run(d, caps, ops).0.tx == d.tx && Run(d, caps, ops).1.accepted == [] && Run(d, caps, ops).1.left == []
    ensures Apply(Run(d, caps, ops).0, caps, Restart).0.tx == []
    ensures PacketsOf(LeftBy(Run(d, caps, ops).0, caps, Restart)) == d.tx
    decreases ops
  {
    if ops != [] {
      FullStep(d, caps, ops[0]);
      FullQueueIsStuck(Apply(d, caps, ops[0]).0, caps, ops[1..]);
    }
  }

  function Fill(p: Packet, n: nat): seq<Op> {
    if n == 0 then [] else [DataRequest(Some(p))] + Fill(p, n - 1)
  }

  lemma {:induction false} FillAsleep(d: Dev, caps: Caps, p: Packet, n: nat)
    requires 0 < caps.rx && d.init && d.sleeping && WellFormed(p) && |d.tx| + n <= caps.tx
    ensures var e := Run(d, caps, Fill(p, n)).0;
            |e.tx| == |d.tx| + n && e.bufs == d.bufs && e.init && e.sleeping
    decreases n
  {
    if n > 0 {
      assert Fill(p, n)[1..] == Fill(p, n - 1);
      FillAsleep(Apply(d, caps, Fill(p, n)[0]).0, caps, p, n - 1);
    }
  }

  /** A device that is put to sleep, sent as many requests as its transmit queue holds, and woken up again is awake,
      has every buffer free, and is stuck until a restart. */
  lemma SleepCanStick(caps: Caps, p: Packet, ops: seq<Op>)
    requires 0 < caps.rx && WellFormed(p) && NoRestart(ops)
    ensures var asleep := Apply(Start(), caps, Sleep).0;
            var d := Apply(Run(asleep, caps, Fill(p, caps.tx)).0, caps, Wakeup).0;
            && !d.sleeping && d.init && d.bufs == ZeroBufs()
            && Run(d, caps, ops).0.tx == d.tx && Run(d, caps, ops).1.accepted == []
  {
    var asleep := Apply(Start(), caps, Sleep).0;
    FillAsleep(asleep, caps, p, caps.tx);
    FullQueueIsStuck(Apply(Run(asleep, caps, Fill(p, caps.tx)).0, caps, Wakeup).0, caps, ops);
  }

  // ----- responses to remote requests -----

  /** The buffers assigned to respond to `id`. */
  ghost function Responders(bufs: seq<Buf>, id: nat): set<nat> {
    set i: nat | i < |bufs| && bufs[i].rtr && bufs[i].packet.id == id
  }

  ghost function FreeSet(bufs: seq<Buf>): set<nat> {
    set i: nat | i < |bufs| && !bufs[i].rtr
  }

  ghost predicate DistinctResponses(bufs: seq<Buf>) {
    forall i, j | 0 <= i < j < |bufs| && bufs[i].rtr && bufs[j].rtr :: bufs[i].packet.id != bufs[j].packet.id
  }

  lemma OnlyResponder(bufs: seq<Buf>, id: nat)
    requires DistinctResponses(bufs)
    ensures var k := ResponseTo(bufs, id); Responders(bufs, id) == if k < |bufs| then {k} else {}
  {
  }

  /** The buffers after the response in buffer `k` is taken back. */
  lemma ClearedBufs(bufs: seq<Buf>, k: nat, id: nat)
    requires k < |bufs| && bufs[k].rtr
    ensures var after := bufs[k := Buf(bufs[k].packet.(id := 0), false)];
            && FreeSet(after) == FreeSet(bufs) + {k}
            && Responders(after, id) == Responders(bufs, id) - {k}
            && (bufs[k].packet.id != id ==> Responders(after, id) == Responders(bufs, id))
  {
  }

  /** What a successful clear does to the buffers. */
  lemma ClearEffect(d: Dev, p: Packet, other: nat)
    requires DistinctResponses(d.bufs) && Clear(d, Some(p)).1 == Success
    ensures var e := Clear(d, Some(p)).0;
            && Responders(e.bufs, p.id) == {}
            && (other != p.id ==> Responders(e.bufs, other) == Responders(d.bufs, other))
            && FreeSet(e.bufs) == FreeSet(d.bufs) + Responders(d.bufs, p.id)
  {
    var k := ResponseTo(d.bufs, p.id);
    OnlyResponder(d.bufs, p.id);
    ClearedBufs(d.bufs, k, p.id);
    ClearedBufs(d.bufs, k, other);
  }

  /** In every reachable state at most one buffer responds to an identifier; a successful clear removes it, leaves
      every other response alone, and an immediate second clear finds none. */
  lemma ClearRemovesTheResponse(d: Dev, caps: Caps, p: Packet, other: nat)
    requires Inv(d, caps)
    ensures var (e, status) := Clear(d, Some(p));
            && |Responders(d.bufs, p.id)| <= 1
            && (status == Success <==>
                  Check(d.init, Some(p)).0 in {Success, InvalidDataLength} && Responders(d.bufs, p.id) != {})
            && (status == Success ==>
                  && Responders(e.bufs, p.id) == {}
                  && (other != p.id ==> Responders(e.bufs, other) == Responders(d.bufs, other))
                  && FreeSet(e.bufs) == FreeSet(d.bufs) + Responders(d.bufs, p.id)
                  && Clear(e, Some(p)).1 == NoAssignedMb)
  {
    var (e, status) := Clear(d, Some(p));
    OnlyResponder(d.bufs, p.id);
    NoResponder(d.bufs, p.id);
    if status == Success {
      ClearEffect(d, p, other);
      NoResponder(e.bufs, p.id);
    }
  }

  lemma NoResponder(bufs: seq<Buf>, id: nat)
    ensures Responders(bufs, id) == {} <==> ResponseTo(bufs, id) == |bufs|
  {
    var k := ResponseTo(bufs, id);
    if k < |bufs| {
      assert k in Responders(bufs, id);
    }
  }

  /** What a transmitted packet delivers: itself if it is a data packet; for a remote request one data packet with
      the same identifier exactly when a response is assigned to it, and that packet is the response. */
  lemma DeliveredIsTheResponse(d: Dev, caps: Caps, p: Packet)
    requires Inv(d, caps)
    ensures var ps := Delivered(d.bufs, p);
            && (p.msgType == DATA_MSG ==> ps == [p])
            && (p.msgType != DATA_MSG ==> (ps == [] <==> Responders(d.bufs, p.id) == {}))
            && (p.msgType != DATA_MSG && ps != [] ==>
                  && ps[0].id == p.id && ps[0].msgType == DATA_MSG
                  && forall i | i in Responders(d.bufs, p.id) :: ps == [d.bufs[i].packet.(msgType := DATA_MSG)])
  {
    OnlyResponder(d.bufs, p.id);
    NoResponder(d.bufs, p.id);
  }

  /** An assignment succeeds exactly when no buffer, not even a free one, mentions the identifier and one is free.
      Clearing it again restores the set of free buffers and every other response. */
  lemma AssignThenClear(d: Dev, caps: Caps, p: Packet)
    requires Inv(d, caps) && d.init && WellFormed(p)
    ensures var (e, status) := Assign(d, Some(p));
            && (status == Success <==> !Mentions(d.bufs, p.id) && FreeSet(d.bufs) != {})
            && (status == RtrAlreadyAssigned <==> Mentions(d.bufs, p.id))
            && (Responders(d.bufs, p.id) != {} ==> status == RtrAlreadyAssigned)
            && (status == Success ==>
                  && |Responders(e.bufs, p.id)| == 1
                  && Clear(e, Some(p)).1 == Success
                  && FreeSet(Clear(e, Some(p)).0.bufs) == FreeSet(d.bufs))
  {
    var (e, status) := Assign(d, Some(p));
    var k := FreeBuf(d.bufs);
    assert k < |d.bufs| <==> FreeSet(d.bufs) != {} by {
      if k < |d.bufs| { assert k in FreeSet(d.bufs); }
    }
    if status == Success {
      assert Responders(e.bufs, p.id) == {k};
      assert ResponseTo(e.bufs, p.id) == k;
    }
  }

  /** Some buffer is assigned and holds exactly `p`. */
  ghost predicate Responds(bufs: seq<Buf>, p: Packet) {
    exists i :: 0 <= i < |bufs| && bufs[i] == Buf(p, true)
  }

  /** The call takes no response to `id` back. */
  predicate Spares(op: Op, id: nat) {
    !op.Shutdown? && (op.ClearRemote? && op.msg.Some? ==> op.msg.value.id != id)
  }

  lemma AssignedResponds(d: Dev, p: Packet)
    requires Assign(d, Some(p)).1 == Success
    ensures Responds(Assign(d, Some(p)).0.bufs, p.(msgType := DATA_MSG))
  {
    var k := FreeBuf(d.bufs);
    assert Assign(d, Some(p)).0.bufs[k] == Buf(p.(msgType := DATA_MSG), true);
  }

  lemma RespondsStep(d: Dev, caps: Caps, op: Op, p: Packet)
    requires 0 < caps.rx && Responds(d.bufs, p) && Spares(op, p.id)
    ensures Responds(Apply(d, caps, op).0.bufs, p)
  {
    var i :| 0 <= i < |d.bufs| && d.bufs[i] == Buf(p, true);
    assert Apply(d, caps, op).0.bufs[i] == d.bufs[i];
  }

  lemma RespondsDelivers(bufs: seq<Buf>, p: Packet, r: Packet)
    requires DistinctResponses(bufs) && Responds(bufs, p) && r.msgType != DATA_MSG && r.id == p.id
    ensures Delivered(bufs, r) == [p.(msgType := DATA_MSG)]
  {
    var i :| 0 <= i < |bufs| && bufs[i] == Buf(p, true);
    var k := ResponseTo(bufs, r.id);
    assert k == i;
  }

  lemma {:induction false} RespondsRun(d: Dev, caps: Caps, ops: seq<Op>, p: Packet)
    requires Inv(d, caps) && Responds(d.bufs, p) && forall op | op in ops :: Spares(op, p.id)
    ensures Responds(Run(d, caps, ops).0.bufs, p) && Inv(Run(d, caps, ops).0, caps)
    decreases ops
  {
    if ops != [] {
      RespondsStep(d, caps, ops[0], p);
      ApplyInv(d, caps, ops[0]);
      RespondsRun(Apply(d, caps, ops[0]).0, caps, ops[1..], p);
    }
  }

  /** The response that was assigned is the response that is sent: after every run that neither clears the identifier
      nor shuts the device down, a remote request for it that is handed over puts exactly the message assigned, as
      data, with its length and all its bytes. */
  lemma AssignedIsDelivered(d: Dev, caps: Caps, p: Packet, ops: seq<Op>, op: Op)
    requires Inv(d, caps) && Assign(d, Some(p)).1 == Success && forall o | o in ops :: Spares(o, p.id)
    ensures var e := Run(Assign(d, Some(p)).0, caps, ops).0;
            var handed := HandedBy(e, caps, op);
            handed != [] && handed[0].msgType != DATA_MSG && handed[0].id == p.id ==>
              PutsBy(e, caps, op) == [p.(msgType := DATA_MSG)]
  {
    var d' := Assign(d, Some(p)).0;
    var e := Run(d', caps, ops).0;
    ApplyInv(d, caps, AssignRemote(Some(p)));
    AssignedResponds(d, p);
    RespondsRun(d', caps, ops, p.(msgType := DATA_MSG));
    var handed := HandedBy(e, caps, op);
    if handed != [] && handed[0].msgType != DATA_MSG && handed[0].id == p.id {
      RespondsDelivers(e.bufs, p.(msgType := DATA_MSG), handed[0]);
    }
  }

  /** What an assignment returns and changes: one buffer, the lowest free one. */
  lemma AssignOutcome(d: Dev, msg: Option<Packet>)
    ensures var (e, status), checked := Assign(d, msg), Check(d.init, msg).0;
            && (checked != Success ==> status == checked)
            && (checked == Success ==>
                  && (status == RtrAlreadyAssigned <==> Mentions(d.bufs, msg.value.id))
                  && (status == NoFreeMb <==> !Mentions(d.bufs, msg.value.id) && FreeSet(d.bufs) == {})
                  && (status == Success <==> !Mentions(d.bufs, msg.value.id) && FreeSet(d.bufs) != {}))
            && (status != Success ==> e == d)
            && e == d.(bufs := e.bufs) && |e.bufs| == |d.bufs|
            && (forall i | 0 <= i < |d.bufs| && e.bufs[i] != d.bufs[i] ::
                  !d.bufs[i].rtr && e.bufs[i].rtr && (forall j | 0 <= j < i :: d.bufs[j].rtr))
  {
    FreeIsFound(d.bufs);
    CheckOutcome(d.init, msg);
  }

  /** What a clear returns and changes: the buffer of the response, which is free afterwards and mentions identifier
      0, so that the identifier can be assigned again unless a free buffer mentions it. */
  lemma ClearOutcome(d: Dev, caps: Caps, p: Packet)
    requires Inv(d, caps)
    ensures var (e, status), checked := Clear(d, Some(p)), Check(d.init, Some(p)).0;
            && (checked !in {Success, InvalidDataLength} ==> status == checked)
            && (checked in {Success, InvalidDataLength} ==>
                  && (status == NoAssignedMb <==> Responders(d.bufs, p.id) == {})
                  && (status == Success <==> Responders(d.bufs, p.id) != {}))
            && (status != Success ==> e == d)
            && e == d.(bufs := e.bufs) && |e.bufs| == |d.bufs|
            && (status == Success ==>
                  && (forall i | 0 <= i < |d.bufs| ::
                        if i in Responders(d.bufs, p.id) then e.bufs[i] == Buf(d.bufs[i].packet.(id := 0), false)
                        else e.bufs[i] == d.bufs[i])
                  && (Mentions(e.bufs, p.id) <==>
                        p.id == 0 || exists i :: 0 <= i < |d.bufs| && !d.bufs[i].rtr && d.bufs[i].packet.id == p.id))
  {
    var (e, status) := Clear(d, Some(p));
    var k := ResponseTo(d.bufs, p.id);
    OnlyResponder(d.bufs, p.id);
    NoResponder(d.bufs, p.id);
    CheckOutcome(d.init, Some(p));
    if status == Success {
      assert e.bufs[k].packet.id == 0;
      if i :| 0 <= i < |d.bufs| && !d.bufs[i].rtr && d.bufs[i].packet.id == p.id {
        assert e.bufs[i] == d.bufs[i];
      }
      if i :| 0 <= i < |e.bufs| && e.bufs[i].packet.id == p.id && i != k {
        assert e.bufs[i] == d.bufs[i] && i !in Responders(d.bufs, p.id);
      }
    }
  }

  // ----- reading, sleeping, stopping -----

  /** What a read returns and changes. */
  lemma ReceiveOutcome(d: Dev, caps: Caps, msg: Option<Packet>)
    requires Inv(d, caps)
    ensures var (e, status) := Receive(d, msg);
            var read := msg.Some? && d.init && d.rx.items != [];
            && (status == InvalidParameter <==> msg.None?)
            && (status == DevNotInit <==> msg.Some? && !d.init)
            && (status == QueueEmpty <==> msg.Some? && d.init && d.rx.items == [])
            && (status == SwOverrun <==> read && d.rx.error == SwOverrun)
            && (status == Success <==> read && d.rx.error == Success)
            && e == (if read then d.(rx := Rx(d.rx.items[1..], Success)) else d)
  {
  }

  /** What one call does to whether the device is started and asleep. */
  function ModeAfter(mode: (bool, bool), op: Op): (bool, bool) {
    match op
    case Sleep => (mode.0, mode.1 || mode.0)
    case Wakeup => (mode.0, mode.1 && !mode.0)
    case Shutdown => (false, mode.1)
    case Restart => (true, mode.1)
    case _ => mode
  }

  function Mode(mode: (bool, bool), ops: seq<Op>): (bool, bool)
    decreases ops
  {
    if ops == [] then mode else Mode(ModeAfter(mode, ops[0]), ops[1..])
  }

  lemma ModeStep(d: Dev, caps: Caps, op: Op)
    requires 0 < caps.rx
    ensures var e := Apply(d, caps, op).0; (e.init, e.sleeping) == ModeAfter((d.init, d.sleeping), op)
  {
  }

  /** Over every run only sleep, wake-up, shutdown and restart decide whether the device is started and asleep. */
  lemma {:induction false} ModeOverRuns(d: Dev, caps: Caps, ops: seq<Op>)
    requires 0 < caps.rx
    ensures var e := Run(d, caps, ops).0; (e.init, e.sleeping) == Mode((d.init, d.sleeping), ops)
    decreases ops
  {
    if ops != [] {
      ModeStep(d, caps, ops[0]);
      ModeOverRuns(Apply(d, caps, ops[0]).0, caps, ops[1..]);
    }
  }

  /** Sleep and wake-up are refused exactly while the device is not started, and change nothing but the sleep flag. */
  lemma SleepOutcome(d: Dev, caps: Caps, op: Op)
    requires 0 < caps.rx && op in {Sleep, Wakeup}
    ensures Apply(d, caps, op).1 == if d.init then Success else DevNotInit
    ensures Apply(d, caps, op).0 == d.(sleeping := if d.init then op.Sleep? else d.sleeping)
  {
  }

  /** After a shutdown nothing responds, every buffer is free, and every call but a restart is refused. */
  lemma ShutdownStops(d: Dev, caps: Caps, op: Op, id: nat)
    requires Inv(d, caps) && (IsRequest(op) || op.AssignRemote? || op.ClearRemote? || op.ReceiveData?) && op.msg.Some?
    ensures var e := Apply(d, caps, Shutdown).0;
            && Responders(e.bufs, id) == {} && (forall i: nat | i < HWMB_COUNT :: i in FreeSet(e.bufs))
            && e.tx == d.tx && e.rx == d.rx
            && Apply(e, caps, op) == (e, DevNotInit)
  {
  }

  /** The refusal is not complete: an identifier is refused although nothing responds to it exactly when only free
      buffers still mention it. That is so for identifier 0 on a fresh device. */
  lemma StaleIdIsRefused(d: Dev, caps: Caps, p: Packet)
    requires Inv(d, caps) && d.init && WellFormed(p)
    ensures (Assign(d, Some(p)).1 == RtrAlreadyAssigned && Responders(d.bufs, p.id) == {}) <==>
            Mentions(d.bufs, p.id) && forall i | 0 <= i < |d.bufs| && d.bufs[i].packet.id == p.id :: !d.bufs[i].rtr
    ensures WellFormed(ZERO_PACKET) && Assign(Start(), Some(ZERO_PACKET)).1 == RtrAlreadyAssigned
    ensures Responders(Start().bufs, 0) == {}
  {
    assert Start().bufs[0].packet.id == 0;
    if i :| 0 <= i < |d.bufs| && d.bufs[i].packet.id == p.id && d.bufs[i].rtr {
      assert i in Responders(d.bufs, p.id);
    }
  }

  /** A packet just transmitted blocks the assignment of a response to its own identifier. */
  lemma TransmittedIdIsRefused(d: Dev, caps: Caps, p: Packet)
    requires Inv(d, caps) && d.init && d.tx != [] && Transmit(d, caps).1 == Success
    requires WellFormed(p) && p.id == d.tx[0].id
    ensures Assign(Transmit(d, caps).0, Some(p)).1 == RtrAlreadyAssigned
  {
    assert Transmit(d, caps).0.bufs[FreeBuf(d.bufs)].packet.id == p.id;
  }

  /** Transmissions never disturb assigned responses and never use up a buffer. */
  lemma RequestsKeepResponses(d: Dev, caps: Caps, msg: Option<Packet>, msgType: nat, id: nat)
    requires Inv(d, caps)
    ensures var e := Request(d, caps, msg, msgType).0;
            && FreeSet(e.bufs) == FreeSet(d.bufs)
            && Responders(e.bufs, id) == Responders(d.bufs, id)
            && (forall i | i in Responders(d.bufs, id) :: e.bufs[i] == d.bufs[i])
  {
  }
}
