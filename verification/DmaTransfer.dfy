/** The transfer protocol of a DMA device: acquiring the first slot of a channel creates its semaphore, starting a
    transfer takes the semaphore and lists a request, the interrupt handler counts it down and completes it, a
    synchronous caller waits for one of the two event bits of its channel, and reset and release interfere with all of
    that. Tasks and interrupts interleave as arbitrary sequences of steps. */
module DmaTransfer {
  import opened Bits
  import opened Common
  import opened DmaRequestList

  /** `DMA_LENGTH_CONTINUOUS`, which is also the wrap-around of 0 - 1 on `UINT32`. */
  const CONTINUOUS: Count := 0xFFFF_FFFF

  /** A listed request: its channel and user slot, its type and the requests left. */
  datatype Record = Record(chan: nat, user: nat, kind: RequestType, left: Count)

  /** Semaphore counts, event groups, the request list and whether its last record is its own successor, the number of
      waiting synchronous callers, the enabled slots and the channels that have a semaphore. */
  datatype State = State(sems: seq<nat>, groups: seq<nat>, queue: seq<Record>, looped: bool, waiters: seq<nat>,
                         enabled: set<Slot>, made: set<nat>)

  datatype Event =
    | Start(chan: nat, user: nat, kind: RequestType, total: Count, waited: bool, driverOk: bool)
    | Interrupt(ok: bool)
    | Wake(wchan: nat)
    | Acquire(slot: Slot, semOk: bool)
    | Release(slot: Slot)
    | Reset(slot: Slot)

  datatype Status =
    | Success | DriverError | Timeout | InvalidHandle | InvalidRequestCount | NoSemaphore | DriverRefused | NoStatus

  /** Shape of a state with `n` channels: two event bits a channel, sixteen channels a group. */
  predicate Shape(s: State, n: nat) {
    && |s.sems| == |s.waiters| == n
    && |s.groups| == (n + 15) / 16
    && (forall r | r in s.queue :: r.chan < n)
    && (s.looped ==> s.queue != [])
  }

  function Zeros(n: nat): (z: seq<nat>)
    ensures |z| == n && forall i | 0 <= i < n :: z[i] == 0
  {
    seq(n, i => 0)
  }

  /** A freshly opened device: no slot is enabled, and nothing is listed, posted or awaited. */
  function Init(n: nat): State {
    State(Zeros(n), Zeros((n + 15) / 16), [], false, Zeros(n), {}, {})
  }

  // ----- event bits -----

  /** Position of the completion bit of a channel in its group; the error bit is the next one. */
  function Shift(c: nat): nat { 2 * (c % 16) }

  /** Completion (`ok`) or error bit of channel `c`. */
  predicate Posted(groups: seq<nat>, c: nat, ok: bool)
    requires c / 16 < |groups|
  {
    Bit(groups[c / 16], if ok then Shift(c) else Shift(c) + 1)
  }

  /** Neither bit of channel `c` is set. */
  predicate NonePosted(groups: seq<nat>, c: nat)
    requires c / 16 < |groups|
  {
    !Posted(groups, c, true) && !Posted(groups, c, false)
  }

  /** `NU_Set_Events(group, 1 << shift or 2 << shift, NU_OR)` */
  function Post(groups: seq<nat>, c: nat, ok: bool): (r: seq<nat>)
    requires c / 16 < |groups|
    ensures |r| == |groups|
  {
    groups[c / 16 := Or(groups[c / 16], Mask(if ok then Shift(c) else Shift(c) + 1))]
  }

  /** `NU_Retrieve_Events(group, 3 << shift, NU_OR_CONSUME)` */
  function Consume(groups: seq<nat>, c: nat): (r: seq<nat>)
    requires c / 16 < |groups|
    ensures |r| == |groups|
  {
    groups[c / 16 := AndNot(groups[c / 16], 3 * Mask(Shift(c)))]
  }

  /** Posting on one channel sets its own bit and no bit of any channel otherwise. */
  lemma PostIsExact(groups: seq<nat>, c: nat, ok: bool, d: nat, b: bool)
    requires c / 16 < |groups| && d / 16 < |groups|
    ensures Posted(Post(groups, c, ok), d, b) <==> Posted(groups, d, b) || (d == c && b == ok)
  {
    if d / 16 == c / 16 {
      var i := if ok then Shift(c) else Shift(c) + 1;
      var j := if b then Shift(d) else Shift(d) + 1;
      OrBit(groups[c / 16], Mask(i), j);
      MaskBit(i, j);
      assert i == j <==> d == c && b == ok;
    }
  }

  /** Consuming clears both bits of the channel and no bit of any other channel. */
  lemma ConsumeIsExact(groups: seq<nat>, c: nat, d: nat, b: bool)
    requires c / 16 < |groups| && d / 16 < |groups|
    ensures Posted(Consume(groups, c), d, b) <==> Posted(groups, d, b) && d != c
  {
    if d / 16 == c / 16 {
      var j := if b then Shift(d) else Shift(d) + 1;
      AndNotBit(groups[c / 16], 3 * Mask(Shift(c)), j);
      PairBit(Shift(c), j);
      assert d == c <==> j == Shift(c) || j == Shift(c) + 1;
    }
  }

  // ----- steps -----

  function Dec(n: Count): Count { if n == CONTINUOUS then n else if n == 0 then CONTINUOUS else n - 1 }

  /** Some user slot of channel `c` is enabled. */
  predicate InUse(enabled: set<Slot>, c: nat) {
    exists k :: k in enabled && k.0 == c
  }

  predicate Enabled(s: State, e: Event)
    requires |s.sems| == |s.waiters| && |s.groups| == (|s.sems| + 15) / 16
  {
    match e
    case Start(c, _, _, _, _, _) => c < |s.sems|
    case Interrupt(_) => s.queue != []
    case Wake(c) => c < |s.sems| && s.waiters[c] > 0 && !NonePosted(s.groups, c)
    case Acquire(slot, _) => slot.0 < |s.sems| && slot !in s.enabled
    case Release(slot) => slot.0 < |s.sems|
    case Reset(slot) => slot.0 < |s.sems|
  }

  /** Position of the record of a slot, or the length of the list. */
  function Position(q: seq<Record>, c: nat, u: nat): (k: nat)
    ensures k <= |q|
    ensures k < |q| ==> q[k].chan == c && q[k].user == u
    ensures forall j | 0 <= j < k :: !(q[j].chan == c && q[j].user == u)
  {
    if q == [] || (q[0].chan == c && q[0].user == u) then 0 else 1 + Position(q[1..], c, u)
  }

  /** Storing a request in its channel and linking the channel. A channel that is linked already has one record only:
      the request replaces its old one, everything behind it is cut off, and a tail becomes its own successor. */
  function Link(s: State, r: Record): (t: State)
    ensures t.queue != [] && forall x | x in t.queue :: x in s.queue || x == r
  {
    var k := Position(s.queue, r.chan, r.user);
    s.(queue := s.queue[..k] + [r], looped := k + 1 == |s.queue|)
  }

  /** Taking the semaphore and listing the request. */
  function Listing(s: State, r: Record): State
    requires r.chan < |s.sems| && s.sems[r.chan] > 0
  {
    Link(s.(sems := s.sems[r.chan := s.sems[r.chan] - 1]), r)
  }

  /** A start obtains the semaphore. A caller that waited for it was found enabled before. */
  predicate Obtains(s: State, c: nat, u: nat, kind: RequestType, total: Count, waited: bool)
    requires c < |s.sems|
  {
    && !(total == CONTINUOUS && kind.IsSync()) && (waited || (c, u) in s.enabled)
    && c in s.made && s.sems[c] > 0
  }

  /** `NU_DMA_Data_Transfer` up to the return (asynchronous) or the wait (synchronous): the driver lists the
      request before it starts the hardware, and a refusal leaves both the record and the semaphore as they are. */
  function StartStep(s: State, c: nat, u: nat, kind: RequestType, total: Count, waited: bool, driverOk: bool)
    : (State, Status)
    requires |s.sems| == |s.waiters| && c < |s.sems|
  {
    if total == CONTINUOUS && kind.IsSync() then (s, InvalidRequestCount)
    else if !waited && (c, u) !in s.enabled then (s, InvalidHandle)
    else if c !in s.made then (s, NoSemaphore)
    else if s.sems[c] == 0 then (s, Timeout)
    else
      var s' := Listing(s, Record(c, u, kind, total));
      if !driverOk then (s', DriverRefused)
      else if kind.IsSync() then (s'.(waiters := s'.waiters[c := s'.waiters[c] + 1]), NoStatus)
      else (s', Success)
  }

  /** The list after an interrupt: the head counts down, and leaves the list when it reaches zero, unless it is its own
      successor. */
  function Served(q: seq<Record>, looped: bool): seq<Record>
    requires q != []
  {
    var h := q[0].(left := Dec(q[0].left));
    if h.left == 0 && !(looped && |q| == 1) then q[1..] else [h] + q[1..]
  }

  /** `NU_Release_Semaphore`, without effect on a channel that has none. */
  function Signal(s: State, c: nat): State
    requires c < |s.sems|
  {
    if c in s.made then s.(sems := s.sems[c := s.sems[c] + 1]) else s
  }

  /** The transfer-complete interrupt: count the head down, unlink it at zero, and call back. */
  function InterruptStep(s: State, ok: bool): State
    requires s.queue != [] && s.queue[0].chan < |s.sems| && |s.groups| == (|s.sems| + 15) / 16
  {
    var h := s.queue[0].(left := Dec(s.queue[0].left));
    var s' := s.(queue := Served(s.queue, s.looped));
    if h.kind.IsSync() then s'.(groups := Post(s.groups, h.chan, ok))
    else if h.kind.IsAsync() && h.left == 0 then Signal(s', h.chan)
    else s'
  }

  /** A synchronous caller finds its event, consumes both bits and releases the semaphore. */
  function WakeStep(s: State, c: nat): (State, Status)
    requires |s.sems| == |s.waiters| && c < |s.sems| && |s.groups| == (|s.sems| + 15) / 16
    requires s.waiters[c] > 0
  {
    (Signal(s.(groups := Consume(s.groups, c), waiters := s.waiters[c := s.waiters[c] - 1]), c),
     if !Posted(s.groups, c, true) then DriverError else if c in s.made then Success else NoSemaphore)
  }

  /** The allocator enables a slot; the first of its channel gets the channel a semaphore of count 1, if the OS can. */
  function AcquireStep(s: State, slot: Slot, semOk: bool): State
    requires slot.0 < |s.sems|
  {
    var s' := s.(enabled := s.enabled + {slot});
    if InUse(s.enabled, slot.0) || !semOk then s' else s'.(made := s.made + {slot.0}, sems := s.sems[slot.0 := 1])
  }

  /** `NU_DMA_Release_Channel`: the last slot of a channel takes the semaphore with it. */
  function ReleaseStep(s: State, slot: Slot): State
    requires slot.0 < |s.sems|
  {
    var s' := s.(enabled := s.enabled - {slot});
    if InUse(s'.enabled, slot.0) then s' else s'.(made := s.made - {slot.0}, sems := s.sems[slot.0 := 0])
  }

  /** `NU_DMA_Reset_Channel`: the semaphore of an enabled slot's channel gets count 1, whatever the driver returned. */
  function ResetStep(s: State, slot: Slot): (State, Status)
    requires slot.0 < |s.sems|
  {
    if slot !in s.enabled then (s, InvalidHandle)
    else if slot.0 in s.made then (s.(sems := s.sems[slot.0 := 1]), NoStatus)
    else (s, NoStatus)
  }

  function Step(s: State, e: Event): (r: (State, Status))
    requires Shape(s, |s.sems|) && Enabled(s, e)
    ensures Shape(r.0, |s.sems|)
  {
    match e
    case Start(c, u, kind, total, waited, driverOk) => StartStep(s, c, u, kind, total, waited, driverOk)
    case Interrupt(ok) => (InterruptStep(s, ok), NoStatus)
    case Wake(c) => WakeStep(s, c)
    case Acquire(slot, semOk) => (AcquireStep(s, slot, semOk), NoStatus)
    case Release(slot) => (ReleaseStep(s, slot), NoStatus)
    case Reset(slot) => ResetStep(s, slot)
  }

  // ----- the protocol invariant -----

  predicate Lists(q: seq<Record>, c: nat) {
    exists i :: 0 <= i < |q| && q[i].chan == c
  }

  predicate Listed(s: State, c: nat) {
    Lists(s.queue, c)
  }

  /** Nothing of channel `c` is listed, awaited or posted. */
  predicate Idle(s: State, c: nat)
    requires c < |s.waiters| && c / 16 < |s.groups|
  {
    !Listed(s, c) && s.waiters[c] == 0 && NonePosted(s.groups, c)
  }

  ghost predicate OnePerChannel(q: seq<Record>) {
    forall i, j | 0 <= i < j < |q| :: q[i].chan != q[j].chan
  }

  /** A channel is idle, in flight (listed), or landed (one event bit posted). Only an idle one has its semaphore
      available, and only an idle one may be without. */
  ghost predicate ChannelInv(s: State, n: nat, c: nat)
    requires Shape(s, n) && c < n
  {
    && s.sems[c] <= 1 && s.waiters[c] <= 1
    && (s.sems[c] == 1 ==> Idle(s, c))
    && (c !in s.made ==> s.sems[c] == 0 && Idle(s, c))
    && (c in s.made ==> InUse(s.enabled, c))
    && (Listed(s, c) ==> NonePosted(s.groups, c))
    && (s.waiters[c] == 1 && !Listed(s, c) ==> Posted(s.groups, c, true) != Posted(s.groups, c, false))
    && !(Posted(s.groups, c, true) && Posted(s.groups, c, false))
  }

  /** Some record never finishes: it is continuous, or its count will wrap. */
  predicate Blocked(q: seq<Record>) {
    exists i :: 0 <= i < |q| && q[i].left in {0, CONTINUOUS}
  }

  /** A synchronous record has one request left, unless it will never be served. */
  ghost predicate RecordInv(s: State, n: nat, i: nat)
    requires Shape(s, n) && i < |s.queue|
  {
    var r := s.queue[i];
    && r in s.queue
    && (r.kind.IsSync() ==> r.left == 1 || Blocked(s.queue[..i]))
    && (!r.kind.IsSync() ==> s.waiters[r.chan] == 0)
  }

  ghost predicate Inv(s: State, n: nat) {
    && Shape(s, n)
    && (forall c | 0 <= c < n :: ChannelInv(s, n, c))
    && (forall i | 0 <= i < |s.queue| :: RecordInv(s, n, i))
    && OnePerChannel(s.queue) && !s.looped
  }

  /** What an observer asks of a state: at most one record a channel, a list that ends, at most one semaphore count a
      channel and none while a record of it is listed, a caller of it waits or an event of it is posted, and never both
      events of a channel. */
  ghost predicate Safe(s: State)
    requires Shape(s, |s.sems|)
  {
    && OnePerChannel(s.queue) && !s.looped
    && (forall c | 0 <= c < |s.sems| :: ChannelSafe(s, c))
  }

  ghost predicate ChannelSafe(s: State, c: nat)
    requires Shape(s, |s.sems|) && c < |s.sems|
  {
    && s.sems[c] <= 1 && (s.sems[c] == 1 ==> Idle(s, c))
    && !(Posted(s.groups, c, true) && Posted(s.groups, c, false))
  }

  lemma InvIsSafe(s: State, n: nat)
    requires Inv(s, n)
    ensures Safe(s)
  {
    forall c | 0 <= c < n ensures ChannelSafe(s, c) {
      assert ChannelInv(s, n, c);
    }
  }

  /** The guard of a step: a synchronous transfer that starts carries one request or will never be served, and the
      semaphore of a channel is reset or deleted only while nothing of it is listed, awaited or posted. */
  predicate Guard(s: State, e: Event)
    requires Shape(s, |s.sems|) && Enabled(s, e)
  {
    match e
    case Start(c, u, kind, total, waited, _) => StartGuard(s, c, u, kind, total, waited)
    case Interrupt(_) => true
    case Wake(_) => true
    case Acquire(_, _) => true
    case Release(slot) => InUse(s.enabled - {slot}, slot.0) || Idle(s, slot.0)
    case Reset(slot) => slot in s.enabled && slot.0 in s.made ==> Idle(s, slot.0)
  }

  predicate StartGuard(s: State, c: nat, u: nat, kind: RequestType, total: Count, waited: bool)
    requires c < |s.sems|
  {
    kind.IsSync() && Obtains(s, c, u, kind, total, waited) ==> total == 1 || Blocked(s.queue)
  }

  lemma InitInv(n: nat)
    ensures Inv(Init(n), n)
  {
    forall i: nat ensures !Bit(0, i) { ZeroHasNoBit(i); }
  }

  lemma ListsAppend(q: seq<Record>, r: Record, d: nat)
    ensures Lists(q + [r], d) <==> Lists(q, d) || d == r.chan
  {
    if i :| 0 <= i < |q| && q[i].chan == d {
      assert (q + [r])[i].chan == d;
    }
    assert (q + [r])[|q|] == r;
  }

  /** A slot whose channel is not listed is appended. */
  lemma LinkAppends(s: State, r: Record)
    requires !Lists(s.queue, r.chan)
    ensures Link(s, r) == s.(queue := s.queue + [r], looped := false)
  {
    assert Position(s.queue, r.chan, r.user) == |s.queue|;
    assert s.queue[..|s.queue|] == s.queue;
  }

  /** The state of a start that obtains the semaphore. */
  lemma ObtainedState(s: State, n: nat, c: nat, u: nat, kind: RequestType, total: Count, waited: bool, driverOk: bool)
    requires Inv(s, n) && c < n && Obtains(s, c, u, kind, total, waited)
    ensures var s' := StartStep(s, c, u, kind, total, waited, driverOk).0;
            s' == s.(queue := s.queue + [Record(c, u, kind, total)], sems := s.sems[c := s.sems[c] - 1],
                     waiters := if driverOk && kind.IsSync() then s.waiters[c := s.waiters[c] + 1] else s.waiters)
  {
    assert ChannelInv(s, n, c);
    LinkAppends(s.(sems := s.sems[c := s.sems[c] - 1]), Record(c, u, kind, total));
  }

  /** The records of a list with one more at its end. */
  lemma AppendedRecords(s: State, s': State, n: nat, r: Record)
    requires Inv(s, n) && Shape(s', n) && s'.queue == s.queue + [r] && !Listed(s, r.chan)
    requires forall c | 0 <= c < n && c != r.chan :: s'.waiters[c] == s.waiters[c]
    ensures OnePerChannel(s'.queue)
    ensures forall i | 0 <= i < |s.queue| :: RecordInv(s', n, i)
    ensures !r.kind.IsSync() ==> (RecordInv(s', n, |s.queue|) <==> s'.waiters[r.chan] == 0)
    ensures r.kind.IsSync() ==> (RecordInv(s', n, |s.queue|) <==> r.left == 1 || Blocked(s.queue))
  {
    assert forall i | 0 <= i < |s.queue| :: s'.queue[i] == s.queue[i] && s.queue[i].chan != r.chan;
    forall i | 0 <= i < |s.queue| ensures RecordInv(s', n, i) {
      assert RecordInv(s, n, i) && s'.queue[..i] == s.queue[..i];
    }
    assert s'.queue[..|s.queue|] == s.queue;
    assert s'.queue[|s.queue|] == r;
  }

  /** A channel takes its semaphore and is listed at the end. */
  lemma AppendedInv(s: State, s': State, n: nat, r: Record, waits: bool)
    requires Inv(s, n) && r.chan < n && s.sems[r.chan] == 1 && r.chan in s.made && (waits ==> r.kind.IsSync())
    requires s' == s.(queue := s.queue + [r], sems := s.sems[r.chan := 0],
                      waiters := if waits then s.waiters[r.chan := s.waiters[r.chan] + 1] else s.waiters)
    ensures Inv(s', n) <==> (r.kind.IsSync() ==> r.left == 1 || Blocked(s.queue))
  {
    assert ChannelInv(s, n, r.chan);
    AppendedRecords(s, s', n, r);
    forall d | 0 <= d < n ensures ChannelInv(s', n, d) {
      assert ChannelInv(s, n, d);
      ListsAppend(s.queue, r, d);
    }
    assert Inv(s', n) <==> RecordInv(s', n, |s.queue|);
  }

  lemma ObtainedInv(s: State, n: nat, c: nat, u: nat, kind: RequestType, total: Count, waited: bool, driverOk: bool)
    requires Inv(s, n) && c < n && Obtains(s, c, u, kind, total, waited)
    ensures Inv(StartStep(s, c, u, kind, total, waited, driverOk).0, n) <==>
            (kind.IsSync() ==> total == 1 || Blocked(s.queue))
  {
    assert ChannelInv(s, n, c);
    ObtainedState(s, n, c, u, kind, total, waited, driverOk);
    var s' := StartStep(s, c, u, kind, total, waited, driverOk).0;
    AppendedInv(s, s', n, Record(c, u, kind, total), driverOk && kind.IsSync());
  }

  /** Starting a transfer keeps the invariant exactly under its guard. */
  lemma StartInv(s: State, n: nat, c: nat, u: nat, kind: RequestType, total: Count, waited: bool, driverOk: bool)
    requires Inv(s, n) && c < n
    ensures Inv(StartStep(s, c, u, kind, total, waited, driverOk).0, n) <==> StartGuard(s, c, u, kind, total, waited)
  {
    if Obtains(s, c, u, kind, total, waited) {
      ObtainedInv(s, n, c, u, kind, total, waited, driverOk);
    }
  }

  /** An interrupt keeps one record a channel and takes the head's channel off the list exactly at zero. */
  lemma ServedQueue(q: seq<Record>)
    requires q != [] && OnePerChannel(q)
    ensures OnePerChannel(Served(q, false))
    ensures forall d :: Lists(Served(q, false), d) <==> Lists(q, d) && !(d == q[0].chan && Dec(q[0].left) == 0)
  {
    var q' := Served(q, false);
    var off := if Dec(q[0].left) == 0 then 1 else 0;
    assert |q'| == |q| - off && forall i | 0 <= i < |q'| :: q'[i].chan == q[i + off].chan;
    forall d | Lists(q, d) && !(d == q[0].chan && off == 1) ensures Lists(q', d) {
      var i :| 0 <= i < |q| && q[i].chan == d;
      assert q'[i - off].chan == d;
    }
  }

  lemma InterruptChannel(s: State, n: nat, ok: bool, d: nat)
    requires Inv(s, n) && s.queue != [] && d < n && Shape(InterruptStep(s, ok), n)
    ensures ChannelInv(InterruptStep(s, ok), n, d)
  {
    var h := s.queue[0];
    assert RecordInv(s, n, 0) && Listed(s, h.chan);
    assert ChannelInv(s, n, h.chan) && ChannelInv(s, n, d);
    PostIsExact(s.groups, h.chan, ok, d, true);
    PostIsExact(s.groups, h.chan, ok, d, false);
    ServedQueue(s.queue);
  }

  /** A record that will never be served stays behind the one that blocks it. */
  lemma StaysBlocked(q: seq<Record>, i: nat)
    requires i < |q| && Blocked(q[..i + 1]) && Dec(q[0].left) == 0
    ensures Blocked(Served(q, false)[..i])
  {
    var j :| 0 <= j < i + 1 && q[..i + 1][j].left in {0, CONTINUOUS};
    assert j > 0 && Served(q, false)[..i][j - 1] == q[j];
  }

  lemma StaysBlockedBehind(q: seq<Record>, i: nat)
    requires 0 < i < |q| && Blocked(q[..i]) && Dec(q[0].left) != 0
    ensures Blocked(Served(q, false)[..i])
  {
    var q' := Served(q, false);
    var j :| 0 <= j < i && q[..i][j].left in {0, CONTINUOUS};
    assert q'[..i][j].left in {0, CONTINUOUS};
  }

  lemma InterruptRecord(s: State, n: nat, ok: bool, i: nat)
    requires Inv(s, n) && s.queue != [] && Shape(InterruptStep(s, ok), n)
    requires i < |InterruptStep(s, ok).queue|
    ensures RecordInv(InterruptStep(s, ok), n, i)
  {
    var q := s.queue;
    assert RecordInv(s, n, 0) && !Blocked(q[..0]);
    if Dec(q[0].left) == 0 {
      assert RecordInv(s, n, i + 1);
      if Blocked(q[..i + 1]) {
        StaysBlocked(q, i);
      }
    } else if i > 0 {
      assert RecordInv(s, n, i);
      if Blocked(q[..i]) {
        StaysBlockedBehind(q, i);
      }
    }
  }

  lemma InterruptInv(s: State, n: nat, ok: bool)
    requires Inv(s, n) && s.queue != []
    ensures Inv(InterruptStep(s, ok), n)
  {
    ServedQueue(s.queue);
    var s' := InterruptStep(s, ok);
    forall r | r in s'.queue ensures r.chan < n {
      assert Lists(s'.queue, r.chan);
    }
    forall i | 0 <= i < |s'.queue| ensures RecordInv(s', n, i) {
      InterruptRecord(s, n, ok, i);
    }
    forall d | 0 <= d < n ensures ChannelInv(s', n, d) {
      InterruptChannel(s, n, ok, d);
    }
  }

  lemma WakeInv(s: State, n: nat, c: nat)
    requires Inv(s, n) && Enabled(s, Wake(c))
    ensures Inv(WakeStep(s, c).0, n)
  {
    var s' := WakeStep(s, c).0;
    assert ChannelInv(s, n, c);
    forall i | 0 <= i < |s'.queue| ensures RecordInv(s', n, i) {
      assert RecordInv(s, n, i);
    }
    forall d | 0 <= d < n ensures ChannelInv(s', n, d) {
      assert ChannelInv(s, n, d);
      ConsumeIsExact(s.groups, c, d, true);
      ConsumeIsExact(s.groups, c, d, false);
      assert Listed(s', d) <==> Listed(s, d);
    }
  }

  /** A step that touches neither list nor events nor waiters: what is left to show is each channel. */
  lemma QuietStep(s: State, s': State, n: nat)
    requires Inv(s, n) && Shape(s', n) && s'.queue == s.queue && s'.waiters == s.waiters && s'.looped == s.looped
    ensures Inv(s', n) <==> forall c | 0 <= c < n :: ChannelInv(s', n, c)
  {
    forall i | 0 <= i < |s'.queue| ensures RecordInv(s', n, i) {
      assert RecordInv(s, n, i);
    }
  }

  lemma InUseAfter(enabled: set<Slot>, slot: Slot, c: nat)
    ensures InUse(enabled + {slot}, c) <==> InUse(enabled, c) || c == slot.0
    ensures c != slot.0 ==> (InUse(enabled - {slot}, c) <==> InUse(enabled, c))
  {
    if k :| k in enabled && k.0 == c {
      assert k in enabled + {slot} && (c != slot.0 ==> k in enabled - {slot});
    }
    assert slot in enabled + {slot};
  }

  /** Acquiring a slot keeps the invariant. */
  lemma AcquireInv(s: State, n: nat, slot: Slot, semOk: bool)
    requires Inv(s, n) && slot.0 < n
    ensures Inv(AcquireStep(s, slot, semOk), n)
  {
    var s' := AcquireStep(s, slot, semOk);
    forall c | 0 <= c < n ensures ChannelInv(s', n, c) {
      assert ChannelInv(s, n, c);
      InUseAfter(s.enabled, slot, c);
      assert Listed(s', c) <==> Listed(s, c);
    }
    QuietStep(s, s', n);
  }

  /** Releasing a slot keeps the invariant exactly when another slot of the channel is enabled or the channel is
      idle. */
  lemma ReleaseInv(s: State, n: nat, slot: Slot)
    requires Inv(s, n) && slot.0 < n
    ensures Inv(ReleaseStep(s, slot), n) <==> InUse(s.enabled - {slot}, slot.0) || Idle(s, slot.0)
  {
    var s' := ReleaseStep(s, slot);
    forall c | 0 <= c < n
      ensures c != slot.0 ==> ChannelInv(s', n, c)
      ensures ChannelInv(s', n, slot.0) <==> InUse(s.enabled - {slot}, slot.0) || Idle(s, slot.0)
    {
      assert ChannelInv(s, n, c) && ChannelInv(s, n, slot.0);
      InUseAfter(s.enabled, slot, c);
      assert Listed(s', c) <==> Listed(s, c);
      assert Listed(s', slot.0) <==> Listed(s, slot.0);
    }
    QuietStep(s, s', n);
    assert ChannelInv(s', n, slot.0) <==> InUse(s.enabled - {slot}, slot.0) || Idle(s, slot.0);
  }

  /** Resetting a channel keeps the invariant exactly when nothing of it is listed, awaited or posted. */
  lemma ResetInv(s: State, n: nat, slot: Slot)
    requires Inv(s, n) && slot.0 < n
    ensures Inv(ResetStep(s, slot).0, n) <==> (slot in s.enabled && slot.0 in s.made ==> Idle(s, slot.0))
  {
    var s' := ResetStep(s, slot).0;
    if s' != s {
      forall c | 0 <= c < n
        ensures c != slot.0 ==> ChannelInv(s', n, c)
        ensures ChannelInv(s', n, slot.0) <==> Idle(s, slot.0)
      {
        assert ChannelInv(s, n, c) && ChannelInv(s, n, slot.0);
        assert Listed(s', c) <==> Listed(s, c);
        assert Listed(s', slot.0) <==> Listed(s, slot.0);
      }
      QuietStep(s, s', n);
      assert ChannelInv(s', n, slot.0) <==> Idle(s, slot.0);
    } else if slot in s.enabled && slot.0 in s.made {
      assert s.sems[slot.0] == 1;
      assert ChannelInv(s, n, slot.0);
    }
  }

  /** Every step keeps the invariant if and only if it meets its guard. */
  lemma StepInv(s: State, n: nat, e: Event)
    requires Inv(s, n) && Enabled(s, e)
    ensures Inv(Step(s, e).0, n) <==> Guard(s, e)
  {
    match e
    case Start(c, u, kind, total, waited, driverOk) => StartInv(s, n, c, u, kind, total, waited, driverOk);
    case Interrupt(ok) => InterruptInv(s, n, ok);
    case Wake(c) => WakeInv(s, n, c);
    case Acquire(slot, semOk) => AcquireInv(s, n, slot, semOk);
    case Release(slot) => ReleaseInv(s, n, slot);
    case Reset(slot) => ResetInv(s, n, slot);
  }

  // ----- runs -----

  /** Every event of the run is possible when it happens. */
  predicate Possible(s: State, es: seq<Event>)
    requires Shape(s, |s.sems|)
    decreases es
  {
    es == [] || (Enabled(s, es[0]) && Possible(Step(s, es[0]).0, es[1..]))
  }

  function Final(s: State, es: seq<Event>): (r: State)
    requires Shape(s, |s.sems|) && Possible(s, es)
    ensures Shape(r, |s.sems|)
    decreases es
  {
    if es == [] then s else Final(Step(s, es[0]).0, es[1..])
  }

  /** Every event of the run meets its guard when it happens. */
  predicate Guarded(s: State, es: seq<Event>)
    requires Shape(s, |s.sems|) && Possible(s, es)
    decreases es
  {
    es == [] || (Guard(s, es[0]) && Guarded(Step(s, es[0]).0, es[1..]))
  }

  /** The device is safe before, between and after the events. */
  ghost predicate AlwaysSafe(s: State, es: seq<Event>)
    requires Shape(s, |s.sems|) && Possible(s, es)
    decreases es
  {
    Safe(s) && (es == [] || AlwaysSafe(Step(s, es[0]).0, es[1..]))
  }

  /** Safety of every interleaving: if every step meets its guard, then in every state of the run there is at most one
      record a channel, and no semaphore available while a record is listed, an event is posted or a caller waits. */
  lemma {:induction false} EveryRunIsSafe(s: State, n: nat, es: seq<Event>)
    requires Inv(s, n) && Possible(s, es) && Guarded(s, es)
    ensures AlwaysSafe(s, es) && Inv(Final(s, es), n)
    decreases es
  {
    InvIsSafe(s, n);
    if es != [] {
      StepInv(s, n, es[0]);
      EveryRunIsSafe(Step(s, es[0]).0, n, es[1..]);
    }
  }

  lemma {:induction false} LastIsUnsafe(s: State, es: seq<Event>)
    requires Shape(s, |s.sems|) && Possible(s, es) && !Safe(Final(s, es))
    ensures !AlwaysSafe(s, es)
    decreases es
  {
    if es != [] {
      LastIsUnsafe(Step(s, es[0]).0, es[1..]);
    }
  }

  /** Interrupts that serve the records ahead of a synchronous one with more or fewer requests than one, and then that
      one twice: they post both of its events. */
  lemma BothEvents(s: State, k: nat) returns (es: seq<Event>)
    requires Shape(s, |s.sems|) && !s.looped && k < |s.queue| && !Blocked(s.queue[..k])
    requires s.queue[k].kind.IsSync() && s.queue[k].left !in {1, CONTINUOUS}
    ensures Possible(s, es) && Guarded(s, es) && forall i | 0 <= i < |es| :: es[i].Interrupt?
    ensures var c := s.queue[k].chan; Posted(Final(s, es).groups, c, true) && Posted(Final(s, es).groups, c, false)
    decreases k, s.queue[0].left
  {
    if k == 0 {
      es := [Interrupt(true), Interrupt(false)];
      TwoInterrupts(s);
    } else {
      var s' := Step(s, Interrupt(true)).0;
      assert s.queue[..k][0] == s.queue[0];
      assert s.queue[0].left !in {0, CONTINUOUS};
      var k' := if s.queue[0].left == 1 then k - 1 else k;
      assert s'.queue[k'] == s.queue[k];
      NotBlockedAhead(s.queue, k, k');
      var rest := BothEvents(s', k');
      es := [Interrupt(true)] + rest;
      assert es[1..] == rest;
    }
  }

  lemma NotBlockedAhead(q: seq<Record>, k: nat, k': nat)
    requires 0 < k < |q| && !Blocked(q[..k]) && q[0].left !in {0, CONTINUOUS}
    requires k' == if q[0].left == 1 then k - 1 else k
    ensures k' < |Served(q, false)| && !Blocked(Served(q, false)[..k'])
  {
    var q' := Served(q, false);
    forall i | 0 <= i < k' ensures q'[..k'][i].left !in {0, CONTINUOUS} {
      assert q'[i] == (if q[0].left == 1 then q[i + 1] else if i == 0 then q[0].(left := q[0].left - 1) else q[i]);
      assert q[..k][if q[0].left == 1 then i + 1 else i].left !in {0, CONTINUOUS};
    }
  }

  lemma TwoInterrupts(s: State)
    requires Shape(s, |s.sems|) && s.queue != [] && s.queue[0].kind.IsSync() && s.queue[0].left !in {1, CONTINUOUS}
    ensures var es := [Interrupt(true), Interrupt(false)];
            && Possible(s, es) && Guarded(s, es)
            && Posted(Final(s, es).groups, s.queue[0].chan, true) && Posted(Final(s, es).groups, s.queue[0].chan, false)
  {
    var es := [Interrupt(true), Interrupt(false)];
    var c := s.queue[0].chan;
    var s1 := Step(s, es[0]).0;
    assert s1.queue[0].chan == c && s1.queue[0].kind == s.queue[0].kind;
    var s2 := Step(s1, es[1]).0;
    PostIsExact(s.groups, c, true, c, true);
    PostIsExact(s1.groups, c, false, c, true);
    PostIsExact(s1.groups, c, false, c, false);
    assert es[1..] == [es[1]] && es[1..][1..] == [];
    assert Final(s1, es[1..]) == Final(s2, []) == s2;
  }

  /** A step that does not meet its guard, and a guarded continuation that is not safe. */
  lemma Breaks(s: State, n: nat, e: Event) returns (es: seq<Event>)
    requires Inv(s, n) && Enabled(s, e) && !Guard(s, e)
    ensures var s' := Step(s, e).0; Possible(s', es) && Guarded(s', es) && !AlwaysSafe(s', es)
    ensures !e.Release? ==> forall i | 0 <= i < |es| :: es[i].Interrupt?
  {
    es := [];
    var s' := Step(s, e).0;
    match e
    case Start(c, u, kind, total, waited, driverOk) =>
      ObtainedState(s, n, c, u, kind, total, waited, driverOk);
      assert s'.queue[..|s.queue|] == s.queue;
      es := BothEvents(s', |s.queue|);
      assert !ChannelSafe(Final(s', es), c);
      LastIsUnsafe(s', es);
    case Release(slot) =>
      es := [Acquire(slot, true)];
      ReacquiredTooEarly(s, slot);
    case Reset(slot) =>
      assert s'.sems[slot.0] == 1 && !Idle(s', slot.0);
      assert !ChannelSafe(s', slot.0);
    case _ =>
  }

  lemma ReacquiredTooEarly(s: State, slot: Slot)
    requires Shape(s, |s.sems|) && slot.0 < |s.sems| && !InUse(s.enabled - {slot}, slot.0) && !Idle(s, slot.0)
    ensures var s', es := ReleaseStep(s, slot), [Acquire(slot, true)];
            Shape(s', |s.sems|) && Possible(s', es) && Guarded(s', es) && !AlwaysSafe(s', es)
  {
    var s', es := ReleaseStep(s, slot), [Acquire(slot, true)];
    var t := Step(s', es[0]).0;
    assert es[1..] == [];
    assert t.sems[slot.0] == 1 && Listed(t, slot.0) == Listed(s, slot.0);
    assert !ChannelSafe(t, slot.0);
  }

  /** The guards are exact: a step meets its guard if and only if every guarded run that goes on from it is safe in
      all its states. */
  lemma GuardIsExact(s: State, n: nat, e: Event)
    requires Inv(s, n) && Enabled(s, e)
    ensures var s' := Step(s, e).0;
            Guard(s, e) <==> forall es | Possible(s', es) && Guarded(s', es) :: AlwaysSafe(s', es)
  {
    var s' := Step(s, e).0;
    if Guard(s, e) {
      StepInv(s, n, e);
      forall es | Possible(s', es) && Guarded(s', es) ensures AlwaysSafe(s', es) {
        EveryRunIsSafe(s', n, es);
      }
    } else {
      var es := Breaks(s, n, e);
    }
  }

  /** The status an interrupt posts for channel `c`: one when the head is a synchronous request of `c`. */
  function PostOf(s: State, e: Event, c: nat): seq<bool>
    requires Shape(s, |s.sems|) && Enabled(s, e)
  {
    if e.Interrupt? && s.queue[0].chan == c && s.queue[0].kind.IsSync() then [e.ok] else []
  }

  /** The result a synchronous caller of channel `c` returns with. */
  function ResultOf(s: State, e: Event, c: nat): seq<bool>
    requires Shape(s, |s.sems|) && Enabled(s, e)
  {
    if e == Wake(c) then [Step(s, e).1 == Success] else []
  }

  function Posts(s: State, es: seq<Event>, c: nat): seq<bool>
    requires Shape(s, |s.sems|) && Possible(s, es)
    decreases es
  {
    if es == [] then [] else PostOf(s, es[0], c) + Posts(Step(s, es[0]).0, es[1..], c)
  }

  function Results(s: State, es: seq<Event>, c: nat): seq<bool>
    requires Shape(s, |s.sems|) && Possible(s, es)
    decreases es
  {
    if es == [] then [] else ResultOf(s, es[0], c) + Results(Step(s, es[0]).0, es[1..], c)
  }

  /** What is posted for channel `c` and not yet consumed. */
  function Pending(s: State, c: nat): seq<bool>
    requires Shape(s, |s.sems|) && c < |s.sems|
  {
    (if Posted(s.groups, c, true) then [true] else []) + (if Posted(s.groups, c, false) then [false] else [])
  }

  lemma RoutedInterrupt(s: State, n: nat, ok: bool, c: nat)
    requires Inv(s, n) && s.queue != [] && c < n
    ensures Pending(s, c) + PostOf(s, Interrupt(ok), c) == Pending(Step(s, Interrupt(ok)).0, c)
  {
    assert ChannelInv(s, n, c) && RecordInv(s, n, 0) && Listed(s, s.queue[0].chan);
    PostIsExact(s.groups, s.queue[0].chan, ok, c, true);
    PostIsExact(s.groups, s.queue[0].chan, ok, c, false);
  }

  lemma RoutedWake(s: State, n: nat, d: nat, c: nat)
    requires Inv(s, n) && Enabled(s, Wake(d)) && c < n
    ensures Pending(s, c) == ResultOf(s, Wake(d), c) + Pending(Step(s, Wake(d)).0, c)
  {
    assert ChannelInv(s, n, c) && ChannelInv(s, n, d);
    ConsumeIsExact(s.groups, d, c, true);
    ConsumeIsExact(s.groups, d, c, false);
  }

  lemma RoutedStep(s: State, n: nat, e: Event, c: nat)
    requires Inv(s, n) && Enabled(s, e) && c < n
    ensures Pending(s, c) + PostOf(s, e, c) == ResultOf(s, e, c) + Pending(Step(s, e).0, c)
  {
    match e
    case Interrupt(ok) => RoutedInterrupt(s, n, ok, c);
    case Wake(d) => RoutedWake(s, n, d, c);
    case _ => assert Step(s, e).0.groups == s.groups;
  }

  /** Completion routing over every run: the results a channel's callers see are exactly the statuses posted
      for that channel, in order, with nothing lost, duplicated or taken from another channel. */
  lemma {:induction false} RoutingIsExact(s: State, n: nat, es: seq<Event>, c: nat)
    requires Inv(s, n) && Possible(s, es) && Guarded(s, es) && c < n
    ensures Pending(s, c) + Posts(s, es, c) == Results(s, es, c) + Pending(Final(s, es), c)
    decreases es
  {
    if es != [] {
      var s' := Step(s, es[0]).0;
      StepInv(s, n, es[0]);
      RoutedStep(s, n, es[0], c);
      RoutingIsExact(s', n, es[1..], c);
      Telescope(Pending(s, c), PostOf(s, es[0], c), Posts(s', es[1..], c),
                ResultOf(s, es[0], c), Pending(s', c), Results(s', es[1..], c), Pending(Final(s, es), c));
    }
  }

  /** An asynchronous completion releases the semaphore exactly when it unlinks the record. */
  lemma AsyncReleaseIsUnlink(s: State, n: nat, ok: bool)
    requires Inv(s, n) && s.queue != [] && s.queue[0].kind.IsAsync()
    ensures var c, s' := s.queue[0].chan, InterruptStep(s, ok);
            && s.sems[c] == 0
            && s'.sems[c] == (if Listed(s', c) then 0 else 1)
            && (Listed(s', c) <==> s.queue[0].left != 1)
            && s'.groups == s.groups
  {
    var c := s.queue[0].chan;
    assert Listed(s, c) && ChannelInv(s, n, c);
    ServedQueue(s.queue);
  }
}
