/** The CAN packet queues (`cqm.c`): two rings over caller-sized buffers. The transmit ring rejects when it is
    full, the receive ring replaces its newest entry and remembers the overrun. */
module CanQueue {

  datatype Packet = Packet(id: nat, idType: nat, msgType: nat, length: nat, dev: int, data: seq<nat>)

  datatype Status =
    | Success | QueueEmpty | QueueFull | SwOverrun
    | NoFreeMb | NoAssignedMb | RtrAlreadyAssigned | DevSleeping | DevNotInit | LoopbackNotInit
    | InvalidMsgPointer | InvalidMsgIdType | IdRangeError | InvalidDataLength | InvalidParameter

  // ----- bounded FIFO queues -----

  /** The receive queue as a value: its packets, oldest first, and the error kept since the last read. */
  datatype Rx = Rx(items: seq<Packet>, error: Status)

  /** Put into a receive queue of capacity `cap`. A status that is already an overrun makes a queue with room drop
      the packet. */
  function RxPut(q: Rx, cap: nat, p: Packet, status: Status): (Rx, Status)
    requires 0 < cap
  {
    if |q.items| >= cap then (Rx(q.items[..|q.items| - 1] + [p], SwOverrun), SwOverrun)
    else if status != SwOverrun then (q.(items := q.items + [p]), status)
    else (q, status)
  }

  /** The status a put is called with matters exactly when it is an overrun and the queue has room: then the packet is
      lost. */
  lemma StatusMattersExactly(q: Rx, cap: nat, p: Packet, status: Status)
    requires 0 < cap
    ensures RxPut(q, cap, p, status).0 == RxPut(q, cap, p, Success).0 <==> !(status == SwOverrun && |q.items| < cap)
  {
    assert |q.items + [p]| != |q.items|;
  }

  function RxGet(q: Rx): (Rx, Status)
  {
    if q.items != [] then (Rx(q.items[1..], Success), q.error) else (q, QueueEmpty)
  }

  /** What a put and a get return, on every queue. */
  lemma RxOutcome(q: Rx, cap: nat, p: Packet, status: Status)
    requires 0 < cap
    ensures RxPut(q, cap, p, status).1 == if |q.items| >= cap then SwOverrun else status
    ensures RxGet(q).1 == if q.items == [] then QueueEmpty else q.error
    ensures q.items == [] ==> RxGet(q).0 == q
  {
  }

  // ----- the rings -----

  /** Position `i` places after `read` in a ring of `n` places. */
  function Pos(read: nat, i: nat, n: nat): (k: nat)
    requires read < n && i <= n
    ensures k < n
  {
    if read + i < n then read + i else read + i - n
  }

  /** The `count` entries of a ring from `read` on. */
  function Window(b: seq<Packet>, read: nat, count: nat): (w: seq<Packet>)
    requires read < |b| && count <= |b|
    ensures |w| == count
    ensures forall i | 0 <= i < count :: w[i] == b[Pos(read, i, |b|)]
  {
    seq(count, i requires 0 <= i < count => b[Pos(read, i, |b|)])
  }

  lemma WindowTake(b: seq<Packet>, read: nat, count: nat)
    requires read < |b| && 0 < count <= |b|
    ensures Window(b, Pos(read, 1, |b|), count - 1) == Window(b, read, count)[1..]
    ensures Window(b, read, count)[0] == b[read]
  {
  }

  lemma WindowPut(b: seq<Packet>, read: nat, count: nat, p: Packet)
    requires read < |b| && count < |b|
    ensures Window(b[Pos(read, count, |b|) := p], read, count + 1) == Window(b, read, count) + [p]
  {
  }

  lemma WindowReplace(b: seq<Packet>, read: nat, p: Packet)
    requires read < |b|
    ensures Window(b[Pos(read, |b| - 1, |b|) := p], read, |b|) == Window(b, read, |b|)[..|b| - 1] + [p]
  {
  }

  lemma PosIsModular(read: nat, i: nat, n: nat)
    requires read < n && i <= n
    ensures Pos(read, i, n) == (read + i) % n
  {
    if read + i < n {
      SmallMod(read + i, n);
    } else {
      SmallMod(read + i - n, n);
      assert (read + i) / n == 1 by { DivOne(read + i, n); }
    }
  }

  lemma SmallMod(x: nat, n: nat)
    requires x < n
    ensures x % n == x
  {
  }

  lemma DivOne(x: nat, n: nat)
    requires 0 < n <= x < 2 * n
    ensures x / n == 1 && x % n == x - n
  {
    var q, r := x / n, x % n;
    assert x == q * n + r;
    assert q >= 2 ==> q * n >= 2 * n;
    assert q <= 0 ==> q * n <= 0;
  }

  class Ring {
    const buf: array<Packet>
    var write: nat
    var read: nat
    var count: nat
    var error: Status

    ghost predicate Valid()
      reads this
    {
      && read < buf.Length && count <= buf.Length
      && write == Pos(read, count, buf.Length)
    }

    /** The queued packets, oldest first. */
    ghost function Items(): (s: seq<Packet>)
      requires Valid()
      reads this, buf
      ensures |s| == count
    {
      Window(buf[..], read, count)
    }

    ghost function RxState(): Rx
      requires Valid()
      reads this, buf
    {
      Rx(Items(), error)
    }

    /** The write position is `(read + count) mod size`. */
    lemma WriteIsModular()
      requires Valid()
      ensures write == (read + count) % buf.Length
    {
      PosIsModular(read, count, buf.Length);
    }

    /** The first start, on a cleared control block. */
    constructor (buffer: array<Packet>)
      requires 0 < buffer.Length
      ensures Valid() && Items() == [] && error == Success && buf == buffer
    {
      buf := buffer;
      read, write, count, error := 0, 0, 0, Success;
    }

    /** Every later start: the ring is empty again, but the kept error is not reset, so that the first read may report
        an overrun from before. */
    method Restart()
      modifies this
      requires 0 < buf.Length
      ensures Valid() && Items() == [] && error == old(error)
    {
      read, write, count := 0, 0, 0;
    }

    method GetRx(packet: Packet) returns (out: Packet, status: Status)
      requires Valid()
      modifies this
      ensures Valid()
      ensures RxState() == RxGet(old(RxState())).0 && status == RxGet(old(RxState())).1
      ensures out == if old(Items()) != [] then old(Items())[0] else packet
    {
      out := packet;
      if count != 0 {
        WindowTake(buf[..], read, count);
        out := buf[read];
        read := read + 1;
        count := count - 1;
        if read >= buf.Length {
          read := 0;
        }
        status := error;
        error := Success;
      } else {
        status := QueueEmpty;
      }
    }

    /** Writes at the write position and moves it on, wrapping at the end. */
    method Append(packet: Packet)
      requires Valid() && count < buf.Length
      modifies this`write, this`count, buf
      ensures Valid() && Items() == old(Items()) + [packet]
    {
      WindowPut(buf[..], read, count, packet);
      buf[write] := packet;
      assert buf[..] == old(buf[..])[write := packet];
      write := write + 1;
      count := count + 1;
      if write >= buf.Length {
        write := 0;
      }
    }

    /** Overwrites the newest entry of a full ring, which lies before the write position or at the end. */
    method ReplaceNewest(packet: Packet)
      requires Valid() && count == buf.Length
      modifies this`write, buf
      ensures Valid() && Items() == old(Items())[..count - 1] + [packet]
    {
      WindowReplace(buf[..], read, packet);
      if write <= 0 {
        write := buf.Length;
      }
      buf[write - 1] := packet;
      assert buf[..] == old(buf[..])[write - 1 := packet];
      if write >= buf.Length {
        write := 0;
      }
    }

    method PutRx(packet: Packet, statusIn: Status) returns (status: Status)
      requires Valid()
      modifies this, buf
      ensures Valid()
      ensures RxState() == RxPut(old(RxState()), buf.Length, packet, statusIn).0
      ensures status == RxPut(old(RxState()), buf.Length, packet, statusIn).1
    {
      status := statusIn;
      if count >= buf.Length {
        ReplaceNewest(packet);
        error := SwOverrun;
        status := SwOverrun;
      }
      if status != SwOverrun {
        Append(packet);
      }
    }

    method PutTx(packet: Packet, statusIn: Status) returns (status: Status)
      requires Valid()
      modifies this, buf
      ensures Valid() && error == old(error)
      ensures old(count) < buf.Length ==> Items() == old(Items()) + [packet] && status == statusIn
      ensures old(count) == buf.Length ==> Items() == old(Items()) && status == QueueFull
    {
      status := statusIn;
      if count < buf.Length {
        Append(packet);
      } else {
        status := QueueFull;
      }
    }

    method GetTx(packet: Packet, statusIn: Status) returns (out: Packet, status: Status)
      requires Valid()
      modifies this
      ensures Valid() && error == old(error)
      ensures old(count) > 0 ==> Items() == old(Items())[1..] && out == old(Items())[0] && status == statusIn
      ensures old(count) == 0 ==> Items() == old(Items()) && out == packet && status == QueueEmpty
    {
      out, status := packet, statusIn;
      if count != 0 {
        WindowTake(buf[..], read, count);
        out := buf[read];
        read := read + 1;
        count := count - 1;
        if read >= buf.Length {
          read := 0;
        }
      } else {
        status := QueueEmpty;
      }
    }
  }

  // ----- what happens to the packets of a receive queue over a run -----

  /** One entry of the history of a receive queue. */
  datatype RxEvent =
    | Stored(p: Packet) | Replaced(p: Packet) | Dropped(p: Packet)
    | Taken(p: Packet, reported: bool) | Discarded(p: Packet)

  datatype RxOp = Put(p: Packet, status: Status) | Get | Empty

  /** The history entries of a restart: every queued packet is discarded. */
  function Discards(items: seq<Packet>): seq<RxEvent> {
    if items == [] then [] else [Discarded(items[0])] + Discards(items[1..])
  }

  /** The history entries an operation leaves, if any. */
  function EventOf(q: Rx, cap: nat, op: RxOp): seq<RxEvent> {
    match op
    case Put(p, status) =>
      if |q.items| >= cap then [Replaced(p)] else if status == SwOverrun then [Dropped(p)] else [Stored(p)]
    case Get => if q.items == [] then [] else [Taken(q.items[0], q.error == SwOverrun)]
    case Empty => Discards(q.items)
  }

  function RxStep(q: Rx, cap: nat, op: RxOp): Rx
    requires 0 < cap
  {
    match op
    case Put(p, status) => RxPut(q, cap, p, status).0
    case Get => RxGet(q).0
    case Empty => Rx([], q.error)
  }

  function RxRun(q: Rx, cap: nat, ops: seq<RxOp>): Rx
    requires 0 < cap
    decreases ops
  {
    if ops == [] then q else RxStep(RxRun(q, cap, ops[..|ops| - 1]), cap, ops[|ops| - 1])
  }

  function RxLog(q: Rx, cap: nat, ops: seq<RxOp>): seq<RxEvent>
    requires 0 < cap
    decreases ops
  {
    if ops == [] then []
    else RxLog(q, cap, ops[..|ops| - 1]) + EventOf(RxRun(q, cap, ops[..|ops| - 1]), cap, ops[|ops| - 1])
  }

  /** The packets that were not overwritten, after one more entry. */
  function Surviving(s: seq<Packet>, e: RxEvent): seq<Packet> {
    match e
    case Stored(p) => s + [p]
    case Replaced(p) => (if s == [] then s else s[..|s| - 1]) + [p]
    case Dropped(_) => s
    case Taken(_, _) => s
    case Discarded(_) => s
  }

  /** The packets of a history that were not overwritten, in the order they were put. */
  function Survivors(log: seq<RxEvent>): seq<Packet> {
    if log == [] then [] else Surviving(Survivors(log[..|log| - 1]), log[|log| - 1])
  }

  function TakenBy(e: RxEvent): seq<Packet> {
    if e.Taken? then [e.p] else []
  }

  /** The packets read out, in order. */
  function TakenOf(log: seq<RxEvent>): seq<Packet> {
    if log == [] then [] else TakenOf(log[..|log| - 1]) + TakenBy(log[|log| - 1])
  }

  function GoneBy(e: RxEvent): seq<Packet> {
    if e.Taken? || e.Discarded? then [e.p] else []
  }

  /** The packets that left the queue at its front, read or discarded, in order. */
  function GoneOf(log: seq<RxEvent>): seq<Packet> {
    if log == [] then [] else GoneOf(log[..|log| - 1]) + GoneBy(log[|log| - 1])
  }

  /** Some packet was overwritten since the last read. */
  predicate Unreported(log: seq<RxEvent>) {
    log != [] && (log[|log| - 1].Replaced? || (!log[|log| - 1].Taken? && Unreported(log[..|log| - 1])))
  }

  /** Every read reports an overrun exactly when a packet was overwritten since the read before it. */
  ghost predicate ReportsExact(log: seq<RxEvent>) {
    forall i | 0 <= i < |log| && log[i].Taken? :: log[i].reported <==> Unreported(log[..i])
  }

  /** Only packets that were there are overwritten. */
  ghost predicate ReplacesSome(log: seq<RxEvent>) {
    forall i | 0 <= i < |log| && log[i].Replaced? :: Survivors(log[..i]) != []
  }

  /** What a history says about the queue it led to: no packet that was not overwritten is lost, duplicated or
      reordered, and overruns are reported exactly. */
  ghost predicate LogFits(log: seq<RxEvent>, q: Rx) {
    && Survivors(log) == GoneOf(log) + q.items
    && (q.error == SwOverrun <==> Unreported(log))
    && ReportsExact(log) && ReplacesSome(log)
  }

  /** One more history entry. */
  lemma Snoc(log: seq<RxEvent>, e: RxEvent)
    ensures Survivors(log + [e]) == Surviving(Survivors(log), e)
    ensures GoneOf(log + [e]) == GoneOf(log) + GoneBy(e)
    ensures Unreported(log + [e]) <==> e.Replaced? || (!e.Taken? && Unreported(log))
  {
    assert (log + [e])[..|log + [e]| - 1] == log;
  }

  lemma SnocReports(log: seq<RxEvent>, e: RxEvent)
    requires ReportsExact(log) && (e.Taken? ==> (e.reported <==> Unreported(log)))
    requires ReplacesSome(log) && (e.Replaced? ==> Survivors(log) != [])
    ensures ReportsExact(log + [e]) && ReplacesSome(log + [e])
  {
    var log' := log + [e];
    forall i | 0 <= i < |log'|
      ensures log'[..i] == log[..i] && (i == |log| ==> log'[..i] == log)
    {
    }
  }

  lemma ItemsStep(t: seq<Packet>, q: Rx, cap: nat, op: RxOp, e: RxEvent)
    requires 0 < cap && !op.Empty? && EventOf(q, cap, op) == [e]
    ensures Surviving(t + q.items, e) == (t + GoneBy(e)) + RxStep(q, cap, op).items
  {
    var q' := RxStep(q, cap, op);
    match e
    case Stored(p) => assert (t + q.items) + [p] == t + q'.items;
    case Replaced(p) => assert (t + q.items)[..|t + q.items| - 1] + [p] == t + q'.items;
    case Dropped(_) =>
    case Taken(p, _) => assert t + q.items == (t + [p]) + q'.items;
    case Discarded(_) =>
  }

  /** The error an operation leaves. */
  lemma ErrorStep(q: Rx, cap: nat, op: RxOp, e: RxEvent)
    requires 0 < cap && !op.Empty? && EventOf(q, cap, op) == [e]
    ensures RxStep(q, cap, op).error == if e.Replaced? then SwOverrun else if e.Taken? then Success else q.error
    ensures e.Taken? ==> (e.reported <==> q.error == SwOverrun)
    ensures e.Replaced? ==> q.items != []
  {
  }

  lemma LogFitsOne(log: seq<RxEvent>, q: Rx, cap: nat, op: RxOp, e: RxEvent)
    requires 0 < cap && LogFits(log, q) && !op.Empty? && EventOf(q, cap, op) == [e]
    ensures LogFits(log + [e], RxStep(q, cap, op))
  {
    ErrorStep(q, cap, op, e);
    assert q.items != [] ==> Survivors(log) != [];
    SnocReports(log, e);
    ItemsStep(GoneOf(log), q, cap, op, e);
    Snoc(log, e);
  }

  lemma LogFitsStep(log: seq<RxEvent>, q: Rx, cap: nat, op: RxOp)
    requires 0 < cap && LogFits(log, q)
    ensures LogFits(log + EventOf(q, cap, op), RxStep(q, cap, op))
  {
    var es := EventOf(q, cap, op);
    if op.Empty? {
      LogFitsCleared(log, q);
    } else if es == [] {
      assert log + es == log;
    } else {
      LogFitsOne(log, q, cap, op, es[0]);
    }
  }

  /** The oldest packet is discarded. */
  lemma LogFitsDiscard(log: seq<RxEvent>, q: Rx)
    requires LogFits(log, q) && q.items != []
    ensures LogFits(log + [Discarded(q.items[0])], Rx(q.items[1..], q.error))
  {
    var e := Discarded(q.items[0]);
    SnocReports(log, e);
    Snoc(log, e);
    assert GoneOf(log) + q.items == (GoneOf(log) + [q.items[0]]) + q.items[1..];
  }

  lemma DiscardsCons(log: seq<RxEvent>, items: seq<Packet>)
    requires items != []
    ensures (log + [Discarded(items[0])]) + Discards(items[1..]) == log + Discards(items)
  {
  }

  lemma {:induction false} LogFitsCleared(log: seq<RxEvent>, q: Rx)
    requires LogFits(log, q)
    ensures LogFits(log + Discards(q.items), Rx([], q.error))
    decreases |q.items|
  {
    if q.items == [] {
      assert log + [] == log;
    } else {
      var e := Discarded(q.items[0]);
      LogFitsDiscard(log, q);
      LogFitsCleared(log + [e], Rx(q.items[1..], q.error));
      DiscardsCons(log, q.items);
    }
  }

  /** Every run of puts, gets and restarts from an empty queue: packets come out in order, each exactly once, except
      those that a full queue overwrote. */
  lemma {:induction false} EveryRxRun(cap: nat, ops: seq<RxOp>)
    requires 0 < cap
    ensures LogFits(RxLog(Rx([], Success), cap, ops), RxRun(Rx([], Success), cap, ops))
    decreases ops
  {
    if ops != [] {
      var init := ops[..|ops| - 1];
      EveryRxRun(cap, init);
      LogFitsStep(RxLog(Rx([], Success), cap, init), RxRun(Rx([], Success), cap, init), cap, ops[|ops| - 1]);
    }
  }

  predicate IsStored(e: RxEvent) { e.Stored? }
  predicate IsReplaced(e: RxEvent) { e.Replaced? }
  predicate IsDropped(e: RxEvent) { e.Dropped? }
  predicate IsTaken(e: RxEvent) { e.Taken? }
  predicate IsDiscarded(e: RxEvent) { e.Discarded? }
  predicate IsReport(e: RxEvent) { e.Taken? && e.reported }

  function Count(log: seq<RxEvent>, f: RxEvent -> bool): nat {
    if log == [] then 0 else Count(log[..|log| - 1], f) + if f(log[|log| - 1]) then 1 else 0
  }

  lemma {:induction false} CountAppend(a: seq<RxEvent>, b: seq<RxEvent>, f: RxEvent -> bool)
    ensures Count(a + b, f) == Count(a, f) + Count(b, f)
    decreases b
  {
    if b == [] {
      assert a + b == a;
    } else {
      assert (a + b)[..|a + b| - 1] == a + b[..|b| - 1];
      CountAppend(a, b[..|b| - 1], f);
    }
  }

  /** Number of bursts: overwrites that follow a read, with no earlier overwrite in between. */
  function Bursts(log: seq<RxEvent>): nat {
    if log == [] then 0
    else Bursts(log[..|log| - 1]) + if log[|log| - 1].Replaced? && !Unreported(log[..|log| - 1]) then 1 else 0
  }

  lemma {:induction false} SurvivorCount(log: seq<RxEvent>)
    requires ReplacesSome(log)
    ensures |Survivors(log)| == Count(log, IsStored)
    ensures |TakenOf(log)| == Count(log, IsTaken)
    ensures |GoneOf(log)| == Count(log, IsTaken) + Count(log, IsDiscarded)
  {
    if log != [] {
      var init := log[..|log| - 1];
      assert forall i | 0 <= i < |init| :: init[..i] == log[..i];
      SurvivorCount(init);
    }
  }

  function PutCount(ops: seq<RxOp>): nat {
    if ops == [] then 0 else PutCount(ops[..|ops| - 1]) + if ops[|ops| - 1].Put? then 1 else 0
  }

  lemma PutCounted(q: Rx, cap: nat, op: RxOp)
    ensures var es := EventOf(q, cap, op);
            Count(es, IsStored) + Count(es, IsReplaced) + Count(es, IsDropped) == if op.Put? then 1 else 0
  {
    var es := EventOf(q, cap, op);
    if op.Empty? {
      CountDiscards(q.items, IsStored);
      CountDiscards(q.items, IsReplaced);
      CountDiscards(q.items, IsDropped);
    } else {
      CountOne(es, IsStored);
      CountOne(es, IsReplaced);
      CountOne(es, IsDropped);
    }
  }

  /** A restart leaves only entries about discarded packets. */
  lemma {:induction false} CountDiscards(items: seq<Packet>, f: RxEvent -> bool)
    requires forall p :: !f(Discarded(p))
    ensures Count(Discards(items), f) == 0
  {
    if items != [] {
      var e := Discarded(items[0]);
      CountDiscards(items[1..], f);
      CountAppend([e], Discards(items[1..]), f);
      CountOne([e], f);
    }
  }

  /** Every put leaves one history entry. */
  lemma {:induction false} PutsCounted(cap: nat, ops: seq<RxOp>)
    requires 0 < cap
    ensures var log := RxLog(Rx([], Success), cap, ops);
            PutCount(ops) == Count(log, IsStored) + Count(log, IsReplaced) + Count(log, IsDropped)
    decreases ops
  {
    if ops != [] {
      var init := ops[..|ops| - 1];
      var log, q := RxLog(Rx([], Success), cap, init), RxRun(Rx([], Success), cap, init);
      var es := EventOf(q, cap, ops[|ops| - 1]);
      PutsCounted(cap, init);
      PutCounted(q, cap, ops[|ops| - 1]);
      CountAppend(log, es, IsStored);
      CountAppend(log, es, IsReplaced);
      CountAppend(log, es, IsDropped);
    }
  }

  lemma CountOne(es: seq<RxEvent>, f: RxEvent -> bool)
    requires |es| <= 1
    ensures Count(es, f) == if es != [] && f(es[0]) then 1 else 0
  {
    if es != [] {
      assert es[..|es| - 1] == [];
    }
  }

  /** Accounting over every run: the puts are as many as the packets read, the packets still queued, the overwrites, the
      packets dropped because the put was called with an overrun, and the packets discarded by restarts. */
  lemma Accounting(cap: nat, ops: seq<RxOp>)
    requires 0 < cap
    ensures var log := RxLog(Rx([], Success), cap, ops);
            PutCount(ops) == Count(log, IsTaken) + |RxRun(Rx([], Success), cap, ops).items|
                             + Count(log, IsReplaced) + Count(log, IsDropped) + Count(log, IsDiscarded)
  {
    var log := RxLog(Rx([], Success), cap, ops);
    EveryRxRun(cap, ops);
    SurvivorCount(log);
    PutsCounted(cap, ops);
    assert |Survivors(log)| == |GoneOf(log)| + |RxRun(Rx([], Success), cap, ops).items|;
  }

  /** Any burst of overruns is reported by exactly one later read, or is still to be reported. */
  lemma {:induction false} BurstsReportedOnce(log: seq<RxEvent>)
    requires ReportsExact(log)
    ensures Bursts(log) == Count(log, IsReport) + if Unreported(log) then 1 else 0
  {
    if log != [] {
      var init := log[..|log| - 1];
      assert forall i | 0 <= i < |init| :: init[..i] == log[..i];
      BurstsReportedOnce(init);
      assert log[|log| - 1].Taken? ==> (log[|log| - 1].reported <==> Unreported(init));
    }
  }
}
