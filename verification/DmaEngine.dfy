/** The transfer path of a DMA device over its linked request list, semaphores and event groups, updated in place: in
    every state, safe or not, each operation takes the step that `DmaTransfer` describes. */
module DmaEngine {
  import opened Bits
  import opened Common
  import opened DmaRequestList
  import opened DmaTransfer

  class TransferEngine {
    const list: RequestList
    const channels: seq<seq<DmaChannel>>  // the control block of every slot
    const sems: array<nat>
    const groups: array<nat>
    const waiters: array<nat>  // callers blocked on an event of the channel
    var enabled: set<Slot>
    var made: set<nat>  // channels with a semaphore

    ghost predicate Wired() {
      && sems != groups && sems != waiters && groups != waiters
      && sems.Length == waiters.Length == |channels| && groups.Length == (sems.Length + 15) / 16
    }

    /** Every slot has its own control block. */
    ghost predicate Matrix() {
      forall c, u | 0 <= c < |channels| && 0 <= u < |channels[c]| ::
        channels[c][u].chanIndex == c && channels[c][u].userIndex == u
    }

    /** The record is the control block of its slot. */
    ghost predicate Ours(ch: DmaChannel) {
      && ch.chanIndex < |channels| && ch.userIndex < |channels[ch.chanIndex]|
      && channels[ch.chanIndex][ch.userIndex] == ch
    }

    /** The list is well linked, looped or not, and holds control blocks of this device. */
    ghost predicate ListOk()
      reads list, list.Nodes
    {
      list.Valid() && forall i | 0 <= i < |list.Nodes| :: Ours(list.Nodes[i])
    }

    ghost function RecordOf(ch: DmaChannel): Record
      reads ch`curReqType, ch`curReqLength
    {
      Record(ch.chanIndex, ch.userIndex, ch.curReqType, ch.curReqLength)
    }

    ghost function Queue(): (q: seq<Record>)
      reads list, list.Nodes
      ensures |q| == |list.Nodes|
      ensures forall i | 0 <= i < |q| :: q[i] == RecordOf(list.Nodes[i])
    {
      seq(|list.Nodes|, i requires 0 <= i < |list.Nodes| reads list, list.Nodes => RecordOf(list.Nodes[i]))
    }

    ghost function View(): State
      reads this, list, list.Nodes, sems, groups, waiters
    {
      State(sems[..], groups[..], Queue(), list.Looped, waiters[..], enabled, made)
    }

    ghost predicate Valid()
      reads this, list, list.Nodes, sems, groups, waiters
    {
      Wired() && ListOk() && Inv(View(), sems.Length)
    }

    constructor (n: nat, users: nat)
      ensures Valid() && Matrix() && View() == Init(n) && sems.Length == n
      ensures forall c | 0 <= c < n :: |channels[c]| == users
    {
      var matrix := NewChannels(n, users);
      list := new RequestList();
      channels := matrix;
      sems := new nat[n](i => 0);
      groups := new nat[(n + 15) / 16](i => 0);
      waiters := new nat[n](i => 0);
      enabled, made := {}, {};
      new;
      assert sems[..] == Zeros(n) && groups[..] == Zeros((n + 15) / 16) && waiters[..] == Zeros(n);
      InitInv(n);
    }

    /** Writes the semaphore count of a channel. */
    method SetCount(c: nat, count: nat)
      requires Wired() && ListOk() && c < sems.Length
      modifies sems
      ensures ListOk() && View() == old(View()).(sems := old(sems[..])[c := count])
    {
      sems[c] := count;
      assert sems[..] == old(sems[..])[c := count];
    }

    method SetWaiters(c: nat, count: nat)
      requires Wired() && ListOk() && c < waiters.Length
      modifies waiters
      ensures ListOk() && View() == old(View()).(waiters := old(waiters[..])[c := count])
    {
      waiters[c] := count;
      assert waiters[..] == old(waiters[..])[c := count];
    }

    method SetGroup(i: nat, flags: nat)
      requires Wired() && ListOk() && i < groups.Length
      modifies groups
      ensures ListOk() && View() == old(View()).(groups := old(groups[..])[i := flags])
    {
      groups[i] := flags;
      assert groups[..] == old(groups[..])[i := flags];
    }

    /** Writes the enabled slots and the channels with a semaphore. */
    method SetSlots(slots: set<Slot>, chans: set<nat>)
      requires Wired() && ListOk()
      modifies this
      ensures ListOk() && View() == old(View()).(enabled := slots, made := chans)
    {
      enabled, made := slots, chans;
    }

    /** Enables a slot; the first of its channel creates the semaphore, if the OS can. */
    method Acquire(slot: Slot, semOk: bool)
      requires Wired() && ListOk() && slot.0 < sems.Length
      modifies this, sems
      ensures ListOk() && View() == AcquireStep(old(View()), slot, semOk)
      ensures old(Valid()) ==> Valid()
    {
      ghost var s := View();
      if !InUse(enabled, slot.0) && semOk {
        SetCount(slot.0, 1);
        SetSlots(enabled + {slot}, made + {slot.0});
      } else {
        SetSlots(enabled + {slot}, made);
      }
      if Inv(s, sems.Length) {
        AcquireInv(s, sems.Length, slot, semOk);
      }
    }

    /** Disables a slot; the last of its channel deletes the semaphore. */
    method Release(slot: Slot)
      requires Wired() && ListOk() && slot.0 < sems.Length
      modifies this, sems
      ensures ListOk() && View() == ReleaseStep(old(View()), slot)
      ensures old(Valid()) ==>
                (Valid() <==> InUse(old(enabled) - {slot}, slot.0) || Idle(old(View()), slot.0))
    {
      ghost var s := View();
      if !InUse(enabled - {slot}, slot.0) {
        SetCount(slot.0, 0);
        SetSlots(enabled - {slot}, made - {slot.0});
      } else {
        SetSlots(enabled - {slot}, made);
      }
      if Inv(s, sems.Length) {
        ReleaseInv(s, sems.Length, slot);
      }
    }

    /** Resets a channel: its semaphore becomes available, whatever the state of the channel. */
    method Reset(slot: Slot) returns (status: Status)
      requires Wired() && ListOk() && slot.0 < sems.Length
      modifies sems
      ensures ListOk() && (View(), status) == ResetStep(old(View()), slot)
      ensures old(Valid()) ==> (Valid() <==> (slot in enabled && slot.0 in made ==> Idle(old(View()), slot.0)))
    {
      ghost var s := View();
      status := NoStatus;
      if slot !in enabled {
        status := InvalidHandle;
      } else if slot.0 in made {
        SetCount(slot.0, 1);
      }
      if Inv(s, sems.Length) {
        ResetInv(s, sems.Length, slot);
      }
    }

    /** The place of a control block on the list is the place of its slot among the records. */
    lemma PlaceOf(ch: DmaChannel, q: seq<Record>, k: nat)
      requires Wired() && Ours(ch) && |q| == |list.Nodes| && k <= |q|
      requires forall i | 0 <= i < |list.Nodes| :: Ours(list.Nodes[i])
      requires forall i | 0 <= i < |q| :: q[i].chan == list.Nodes[i].chanIndex && q[i].user == list.Nodes[i].userIndex
      requires k < |q| ==> list.Nodes[k] == ch && (forall i | 0 <= i < k :: list.Nodes[i] != ch)
      requires k == |q| ==> ch !in list.Nodes
      ensures Position(q, ch.chanIndex, ch.userIndex) == k
    {
      var j := Position(q, ch.chanIndex, ch.userIndex);
      assert forall i | 0 <= i < |q| && q[i].chan == ch.chanIndex && q[i].user == ch.userIndex :: list.Nodes[i] == ch;
    }

    /** Stores a request in its control block, at place `k` of the list if it is linked. */
    method Store(ch: DmaChannel, kind: RequestType, total: Count, ghost k: nat)
      requires ListOk() && k <= |list.Nodes|
      requires if k < |list.Nodes| then list.Nodes[k] == ch else ch !in list.Nodes
      modifies ch`curReqLength, ch`curReqType
      ensures ListOk() && RecordOf(ch) == Record(ch.chanIndex, ch.userIndex, kind, total)
      ensures View() == old(View()).(queue := Queue()) && Queue()[..k] == old(Queue())[..k]
    {
      ch.curReqLength := total;
      ch.curReqType := kind;
      forall i | 0 <= i < k ensures Queue()[i] == old(Queue())[i] {
        assert list.Nodes[i] != ch;
      }
    }

    /** Links a control block that is at place `k` of the list, or not linked at all. */
    method LinkBlock(ch: DmaChannel, ghost k: nat)
      requires ListOk() && Ours(ch) && k <= |list.Nodes|
      requires if k < |list.Nodes| then list.Nodes[k] == ch else ch !in list.Nodes
      modifies list, list.Nodes`next, ch`next
      ensures ListOk()
      ensures View() == old(View()).(queue := old(Queue())[..k] + [RecordOf(ch)], looped := k + 1 == |old(Queue())|)
    {
      ghost var nodes, q := list.Nodes, Queue();
      list.Add(ch);
      assert list.Nodes == nodes[..k] + [ch];
      QueuePrefix(nodes, q, k, ch);
    }

    lemma QueuePrefix(nodes: seq<DmaChannel>, q: seq<Record>, k: nat, ch: DmaChannel)
      requires k <= |nodes| == |q| && list.Nodes == nodes[..k] + [ch]
      requires forall i | 0 <= i < |q| :: q[i] == RecordOf(nodes[i])
      ensures Queue() == q[..k] + [RecordOf(ch)]
    {
      forall i | 0 <= i < k ensures Queue()[i] == q[i] {
        assert list.Nodes[i] == nodes[i];
      }
    }

    /** Stores a request in its control block and links the block, which may be linked already. */
    method ListRequest(ch: DmaChannel, kind: RequestType, total: Count)
      requires Wired() && ListOk() && Ours(ch)
      modifies list, list.Nodes, ch
      ensures ListOk() && View() == Link(old(View()), Record(ch.chanIndex, ch.userIndex, kind, total))
    {
      ghost var s, k := View(), |list.Nodes|;
      if ch in list.Nodes {
        k :| 0 <= k < |list.Nodes| && list.Nodes[k] == ch;
      }
      PlaceOf(ch, s.queue, k);
      Store(ch, kind, total, k);
      ghost var t := View();
      LinkBlock(ch, k);
      assert View() == t.(queue := s.queue[..k] + [RecordOf(ch)], looped := k + 1 == |s.queue|);
      assert View() == Link(s, Record(ch.chanIndex, ch.userIndex, kind, total));
    }

    /** Takes the semaphore, and lists the request. */
    method TakeAndList(ch: DmaChannel, kind: RequestType, total: Count)
      requires Wired() && ListOk() && Ours(ch) && sems[ch.chanIndex] > 0
      modifies list, list.Nodes, ch, sems
      ensures ListOk()
      ensures View() == Listing(old(View()), Record(ch.chanIndex, ch.userIndex, kind, total))
    {
      SetCount(ch.chanIndex, sems[ch.chanIndex] - 1);
      ListRequest(ch, kind, total);
    }

    /** Takes the semaphore, stores the request in the channel and lists it; a synchronous caller starts to wait. */
    method Launch(ch: DmaChannel, kind: RequestType, total: Count, waited: bool, driverOk: bool)
      returns (status: Status)
      requires Wired() && ListOk() && Ours(ch)
      requires Obtains(View(), ch.chanIndex, ch.userIndex, kind, total, waited)
      modifies list, list.Nodes, ch, sems, waiters
      ensures ListOk()
      ensures (View(), status) == StartStep(old(View()), ch.chanIndex, ch.userIndex, kind, total, waited, driverOk)
    {
      TakeAndList(ch, kind, total);
      ghost var s := View();
      status := if !driverOk then DriverRefused else if kind.IsSync() then NoStatus else Success;
      if status == NoStatus {
        assert s.waiters[ch.chanIndex] == waiters[ch.chanIndex];
        SetWaiters(ch.chanIndex, waiters[ch.chanIndex] + 1);
        assert View() == s.(waiters := s.waiters[ch.chanIndex := s.waiters[ch.chanIndex] + 1]);
      }
    }

    /** Starts a transfer on a slot of this device, in every state: also one whose control block is still linked. What
        it leaves behind is safe exactly under its guard. `waited` says that the slot was found enabled before the
        caller waited for the semaphore. */
    method Start(c: nat, u: nat, kind: RequestType, total: Count, waited: bool, driverOk: bool) returns (status: Status)
      requires Wired() && Matrix() && ListOk() && c < sems.Length && u < |channels[c]|
      modifies list, list.Nodes, channels[c][u], sems, waiters
      ensures ListOk()
      ensures (View(), status) == StartStep(old(View()), c, u, kind, total, waited, driverOk)
      ensures old(Valid()) ==> (Valid() <==> StartGuard(old(View()), c, u, kind, total, waited))
    {
      ghost var s := View();
      status := Begin(c, u, kind, total, waited, driverOk);
      if Inv(s, sems.Length) {
        StartInv(s, sems.Length, c, u, kind, total, waited, driverOk);
      }
    }

    method Begin(c: nat, u: nat, kind: RequestType, total: Count, waited: bool, driverOk: bool) returns (status: Status)
      requires Wired() && Matrix() && ListOk() && c < sems.Length && u < |channels[c]|
      modifies list, list.Nodes, channels[c][u], sems, waiters
      ensures ListOk()
      ensures (View(), status) == StartStep(old(View()), c, u, kind, total, waited, driverOk)
    {
      if total == CONTINUOUS && kind.IsSync() {
        return InvalidRequestCount;
      }
      if !waited && (c, u) !in enabled {
        return InvalidHandle;
      }
      if c !in made {
        return NoSemaphore;
      }
      if sems[c] == 0 {
        return Timeout;
      }
      status := Launch(channels[c][u], kind, total, waited, driverOk);
    }

    /** The completion names the hardware id of the head, or leaves the head requests to do. */
    ghost predicate NamesHead(hw: nat)
      requires list.Nodes != []
      reads list, list.Nodes
    {
      Dec(list.Nodes[0].curReqLength) == 0 ==> hw == list.Nodes[0].hwChanId
    }

    /** Counts the head down and unlinks it at zero. */
    method ServeHead(hw: nat) returns (head: DmaChannel)
      requires ListOk() && list.Nodes != [] && NamesHead(hw)
      modifies list, list.Nodes
      ensures ListOk() && Ours(head) && RecordOf(head) == Counted(old(Queue()))[0]
      ensures View() == old(View()).(queue := Unlinked(Counted(old(Queue())), old(list.Looped)))
    {
      head := list.first;
      CountDown(head);
      Unlink(head, hw);
    }

    method Unlink(head: DmaChannel, hw: nat)
      requires ListOk() && list.Nodes != [] && list.Nodes[0] == head
      requires head.curReqLength == 0 ==> hw == head.hwChanId
      modifies list, list.Nodes`next
      ensures ListOk() && RecordOf(head) == old(RecordOf(head))
      ensures View() == old(View()).(queue := Unlinked(old(Queue()), old(list.Looped)))
    {
      ghost var nodes, q := list.Nodes, Queue();
      ghost var off := if head.curReqLength == 0 && !(list.Looped && |q| == 1) then 1 else 0;
      var notified := CompleteHead(hw);
      assert list.Nodes == nodes[off..];
      QueueIs(nodes, q, off);
    }

    /** The records of a list that lost its first `off` nodes. */
    lemma QueueIs(nodes: seq<DmaChannel>, q: seq<Record>, off: nat)
      requires off <= |nodes| == |q| && list.Nodes == nodes[off..]
      requires forall i | 0 <= i < |q| :: q[i] == RecordOf(nodes[i])
      ensures Queue() == q[off..]
    {
      forall i | 0 <= i < |list.Nodes| ensures Queue()[i] == q[off..][i] {
        assert list.Nodes[i] == nodes[i + off];
      }
    }

    /** A completion that names the head notifies it, and unlinks it when it has no request left and is not its own
        successor. */
    method CompleteHead(hw: nat) returns (notified: DmaChannel?)
      requires list.Valid() && list.Nodes != [] && (list.Nodes[0].curReqLength == 0 ==> hw == list.Nodes[0].hwChanId)
      modifies list, list.Nodes`next
      ensures list.Valid() && notified == old(list.Nodes)[0] && list.Looped == old(list.Looped)
      ensures var nodes := old(list.Nodes);
              var gone := old(list.Nodes[0].curReqLength) == 0 && !(list.Looped && |nodes| == 1);
              list.Nodes == if gone then nodes[1..] else nodes
    {
      assert list.Ids()[0] == list.Nodes[0].hwChanId;
      notified := list.TransComplete(hw);
    }

    /** Serves the head of the list and calls back. */
    method Complete(ok: bool, hw: nat)
      requires Wired() && ListOk() && list.Nodes != [] && NamesHead(hw)
      modifies list, list.Nodes, sems, groups
      ensures ListOk() && View() == InterruptStep(old(View()), ok)
    {
      ServedIs(Queue(), list.Looped);
      var head := ServeHead(hw);
      Callback(head, ok);
    }

    /** The transfer-complete interrupt, for a completion that names the hardware id of the head. */
    method Interrupt(ok: bool, hw: nat)
      requires Wired() && ListOk() && list.Nodes != [] && NamesHead(hw)
      modifies list, list.Nodes, sems, groups
      ensures ListOk() && View() == InterruptStep(old(View()), ok)
      ensures old(Valid()) ==> Valid()
    {
      ghost var s := View();
      Complete(ok, hw);
      if Inv(s, sems.Length) {
        InterruptInv(s, sems.Length, ok);
      }
    }

    method CountDown(head: DmaChannel)
      requires ListOk() && list.Nodes != [] && list.Nodes[0] == head
      modifies head`curReqLength
      ensures ListOk()
      ensures RecordOf(head) == Counted(old(Queue()))[0]
      ensures View() == old(View()).(queue := Counted(old(Queue())))
    {
      if head.curReqLength != CONTINUOUS {
        head.curReqLength := if head.curReqLength == 0 then 0xFFFF_FFFF else head.curReqLength - 1;
      }
    }

    /** The completion callback: an event for a synchronous request, the semaphore for the last of an asynchronous
        one. */
    method Callback(ch: DmaChannel, ok: bool)
      requires Wired() && ListOk() && ch.chanIndex < sems.Length
      modifies sems, groups
      ensures ListOk()
      ensures View() == if ch.curReqType.IsSync() then
                          old(View()).(groups := Post(old(View()).groups, ch.chanIndex, ok))
                        else if ch.curReqType.IsAsync() && ch.curReqLength == 0 then
                          Signal(old(View()), ch.chanIndex)
                        else old(View())
    {
      var c := ch.chanIndex;
      if ch.curReqType.IsSync() {
        var event := if ok then Mask(2 * (c % 16)) else Mask(2 * (c % 16) + 1);
        SetGroup(c / 16, Or(groups[c / 16], event));
      } else if ch.curReqType.IsAsync() {
        if ch.curReqLength == 0 && c in made {
          SetCount(c, sems[c] + 1);
        }
      }
    }

    /** Retrieves and consumes the events of a channel. */
    method TakeEvents(c: nat) returns (completed: bool)
      requires Wired() && ListOk() && c < sems.Length
      modifies groups
      ensures ListOk() && View() == old(View()).(groups := Consume(old(View()).groups, c))
      ensures completed <==> Posted(old(View()).groups, c, true)
    {
      var shift, flags := 2 * (c % 16), groups[c / 16];
      var retrieved := And(flags, 3 * Mask(shift));
      RetrievedBits(flags, shift);
      SetGroup(c / 16, AndNot(flags, 3 * Mask(shift)));
      completed := And(retrieved, Mask(shift)) != 0;
    }

    /** A caller stops waiting and releases the semaphore of its channel, if there is one. */
    method StopWaiting(c: nat)
      requires Wired() && ListOk() && c < sems.Length && waiters[c] > 0
      modifies sems, waiters
      ensures ListOk()
      ensures var s := old(View()); View() == Signal(s.(waiters := s.waiters[c := s.waiters[c] - 1]), c)
    {
      SetWaiters(c, waiters[c] - 1);
      if c in made {
        SetCount(c, sems[c] + 1);
      }
    }

    /** Retrieves and consumes the events of a channel and releases its semaphore. */
    method Collect(c: nat) returns (status: Status)
      requires Wired() && ListOk() && c < sems.Length && waiters[c] > 0
      modifies sems, groups, waiters
      ensures ListOk() && (View(), status) == WakeStep(old(View()), c)
    {
      var completed := TakeEvents(c);
      StopWaiting(c);
      status := if !completed then DriverError else if c in made then Success else NoSemaphore;
    }

    /** A blocked synchronous caller finds an event of its channel. */
    method Wake(c: nat) returns (status: Status)
      requires Wired() && ListOk() && c < sems.Length && waiters[c] > 0
      requires And(groups[c / 16], 3 * Mask(2 * (c % 16))) != 0
      modifies sems, groups, waiters
      ensures ListOk() && (View(), status) == WakeStep(old(View()), c)
      ensures old(Valid()) ==> Valid()
    {
      ghost var s := View();
      RetrievedBits(groups[c / 16], 2 * (c % 16));
      status := Collect(c);
      if Inv(s, sems.Length) {
        WakeInv(s, sems.Length, c);
      }
    }
  }

  /** A list whose head is counted down. */
  function Counted(q: seq<Record>): (r: seq<Record>)
    requires q != []
    ensures |r| == |q|
  {
    q[0 := q[0].(left := Dec(q[0].left))]
  }

  /** A list whose head is unlinked if it has no request left and is not its own successor. */
  function Unlinked(q: seq<Record>, looped: bool): seq<Record>
    requires q != []
  {
    if q[0].left == 0 && !(looped && |q| == 1) then q[1..] else q
  }

  /** Serving a list is counting its head down and then unlinking it at zero. */
  lemma ServedIs(q: seq<Record>, looped: bool)
    requires q != []
    ensures Served(q, looped) == Unlinked(Counted(q), looped)
  {
    var h := q[0].(left := Dec(q[0].left));
    assert q[0 := h] == [h] + q[1..];
  }

  /** The control blocks of one channel. */
  method NewRow(c: nat, users: nat) returns (row: seq<DmaChannel>)
    ensures |row| == users && forall u | 0 <= u < users :: row[u].chanIndex == c && row[u].userIndex == u
  {
    row := [];
    while |row| < users
      invariant |row| <= users && forall u | 0 <= u < |row| :: row[u].chanIndex == c && row[u].userIndex == u
      decreases users - |row|
    {
      var ch := new DmaChannel(c, |row|, 0);
      row := row + [ch];
    }
  }

  /** The control blocks of a device. */
  method NewChannels(n: nat, users: nat) returns (m: seq<seq<DmaChannel>>)
    ensures |m| == n && forall c | 0 <= c < n :: |m[c]| == users
    ensures forall c, u | 0 <= c < n && 0 <= u < |m[c]| :: m[c][u].chanIndex == c && m[c][u].userIndex == u
  {
    m := [];
    while |m| < n
      invariant |m| <= n && forall c | 0 <= c < |m| :: |m[c]| == users
      invariant forall c, u | 0 <= c < |m| && 0 <= u < |m[c]| :: m[c][u].chanIndex == c && m[c][u].userIndex == u
      decreases n - |m|
    {
      var row := NewRow(|m|, users);
      m := m + [row];
    }
  }

  /** What a caller retrieves: its two bits, and through them the completion bit. */
  lemma RetrievedBits(group: nat, shift: nat)
    ensures And(group, 3 * Mask(shift)) != 0 <==> Bit(group, shift) || Bit(group, shift + 1)
    ensures And(And(group, 3 * Mask(shift)), Mask(shift)) != 0 <==> Bit(group, shift)
  {
    var r := And(group, 3 * Mask(shift));
    AndBit(group, 3 * Mask(shift), shift);
    AndBit(group, 3 * Mask(shift), shift + 1);
    PairBit(shift, shift);
    PairBit(shift, shift + 1);
    TestIsBit(r, shift);
    if r != 0 {
      var j := TopBit(r, 0);
      AndBit(group, 3 * Mask(shift), j);
      PairBit(shift, j);
    } else {
      ZeroHasNoBit(shift);
      ZeroHasNoBit(shift + 1);
    }
  }
}
