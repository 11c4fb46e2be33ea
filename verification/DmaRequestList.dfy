/** The transfer request list of a DMA instance (`dma_common.c`): a singly linked list of
    channel control blocks with a first and a last pointer. */
module DmaRequestList {

  /** A `UINT32`. */
  type Count = n: nat | n <= 0xFFFF_FFFF

  datatype RequestType = Free | SyncSend | SyncReceive | AsyncSend | AsyncReceive | SyncMemTrans | AsyncMemTrans {
    predicate IsSync() { SyncSend? || SyncReceive? || SyncMemTrans? }
    predicate IsAsync() { AsyncSend? || AsyncReceive? || AsyncMemTrans? }
  }

  /** A channel control block: the two indices its handle encodes, its hardware id and its current request. */
  class DmaChannel {
    const chanIndex: nat
    const userIndex: nat
    var hwChanId: nat
    var curReqLength: Count
    var curReqType: RequestType
    var next: DmaChannel?

    constructor (chan: nat, user: nat, hw: nat)
      ensures chanIndex == chan && userIndex == user && hwChanId == hw
    {
      chanIndex, userIndex, hwChanId, curReqLength, curReqType, next := chan, user, hw, 0, Free, null;
    }
  }

  /** Position of the first entry carrying `hw`, or the length when there is none. */
  function FirstWithId(ids: seq<nat>, hw: nat): (k: nat)
    ensures k <= |ids|
    ensures k < |ids| ==> ids[k] == hw
    ensures forall j | 0 <= j < k :: ids[j] != hw
  {
    if ids == [] || ids[0] == hw then 0 else 1 + FirstWithId(ids[1..], hw)
  }

  /** The list without its entry at position `k`; unchanged when `k` is its length. */
  function Without<T>(s: seq<T>, k: nat): (r: seq<T>)
    requires k <= |s|
    ensures |r| == if k < |s| then |s| - 1 else |s|
    ensures forall j | 0 <= j < k :: r[j] == s[j]
    ensures forall j | k <= j < |r| :: r[j] == s[j + 1]
  {
    if k < |s| then s[..k] + s[k + 1..] else s
  }

  class RequestList {
    var first: DmaChannel?
    var last: DmaChannel?
    ghost var Nodes: seq<DmaChannel>
    ghost var Looped: bool  // the tail is its own successor

    /** `Nodes` is the chain that starts at `first`, without repetition, and `last` is its true tail whenever it is
        not empty (an empty list may keep a stale `last`). The tail ends the chain or, in a looped list, points at
        itself. */
    ghost predicate Valid()
      reads this, Nodes
    {
      && (forall i, j | 0 <= i < j < |Nodes| :: Nodes[i] != Nodes[j])
      && first == (if Nodes == [] then null else Nodes[0])
      && (forall i {:trigger Nodes[i].next} | 0 <= i < |Nodes| - 1 :: Nodes[i].next == Nodes[i + 1])
      && (Nodes != [] ==> last == Nodes[|Nodes| - 1] && last.next == if Looped then last else null)
      && (Looped ==> Nodes != [])
    }

    ghost function Ids(): (ids: seq<nat>)
      reads this, Nodes
      ensures |ids| == |Nodes|
    {
      seq(|Nodes|, i requires 0 <= i < |Nodes| reads this, Nodes => Nodes[i].hwChanId)
    }

    constructor ()
      ensures Valid() && Nodes == [] && !Looped
    {
      first, last, Nodes, Looped := null, null, [], false;
    }

    /** Appends a record, which also opens a looped list again. A record that is already linked is not detected: linking
        the tail again makes it its own successor, and linking an earlier record again cuts off every record behind
        it. */
    method Add(channel: DmaChannel?)
      requires Valid()
      modifies this, Nodes`next, (if channel == null then {} else {channel})`next
      ensures Valid()
      ensures channel == null ==> Nodes == old(Nodes) && Looped == old(Looped)
      ensures channel != null && channel !in old(Nodes) ==> Nodes == old(Nodes) + [channel] && !Looped
      ensures forall k | 0 <= k < |old(Nodes)| && old(Nodes)[k] == channel ::
                Nodes == old(Nodes)[..k + 1] && Looped == (k == |old(Nodes)| - 1)
    {
      if channel != null {
        channel.next := null;
        if first == null {
          first := channel;
        } else {
          last.next := channel;
        }
        last := channel;
        if channel !in Nodes {
          Nodes, Looped := Nodes + [channel], false;
        } else {
          ghost var k :| 0 <= k < |Nodes| && Nodes[k] == channel;
          Looped := k == |Nodes| - 1;
          Nodes := Nodes[..k + 1];
        }
      }
    }

    /** The search for a record. On a looped list it ends only when there is one. */
    method Find(hw: nat) returns (chanReq: DmaChannel?, before: DmaChannel?)
      requires Valid() && (Looped ==> hw in Ids())
      ensures var k := FirstWithId(Ids(), hw);
              && chanReq == (if k < |Nodes| then Nodes[k] else null)
              && (0 < k ==> before == Nodes[k - 1])
    {
      before := null;
      chanReq := first;
      ghost var k := 0;
      ghost var ids := Ids();
      while chanReq != null
        invariant 0 <= k <= |Nodes| && Valid()
        invariant chanReq == if k < |Nodes| then Nodes[k] else null
        invariant k > 0 ==> before == Nodes[k - 1]
        invariant forall j | 0 <= j < k :: ids[j] != hw
        decreases |Nodes| - k
      {
        assert Nodes[k] == chanReq;
        if chanReq.hwChanId == hw {
          break;
        }
        assert ids[k] != hw;
        assert Looped ==> k < |Nodes| - 1;
        before := chanReq;
        chanReq := chanReq.next;
        k := k + 1;
      }
      assert k < |ids| ==> ids[k] == hw;
      assert k == FirstWithId(ids, hw);
    }

    /** Unlinks the record at position `k`, behind `before`. The only record of a looped list is its own successor, and
        stays. */
    method Unlink(ghost k: nat, node: DmaChannel, before: DmaChannel?)
      requires Valid() && k < |Nodes| && node == Nodes[k] && (0 < k ==> before == Nodes[k - 1])
      modifies this, Nodes`next
      ensures Valid()
      ensures if old(Looped) && |old(Nodes)| == 1 then Nodes == old(Nodes) && Looped
              else Nodes == Without(old(Nodes), k) && Looped == (old(Looped) && k != |old(Nodes)| - 1)
    {
      if node == first {
        first := first.next;
      } else if node == last {
        before.next := null;
        last := before;
      } else {
        before.next := node.next;
      }
      if !(Looped && |Nodes| == 1) {
        Looped := Looped && k != |Nodes| - 1;
        Nodes := Without(Nodes, k);
        assert k > 0 ==> Nodes[k - 1] == before;
      }
    }

    /** Unlinks the first record with the given hardware channel id and returns it, or null. */
    method Remove(hw: nat) returns (chanReq: DmaChannel?)
      requires Valid() && (Looped ==> hw in Ids())
      modifies this, Nodes`next
      ensures Valid()
      ensures var k := FirstWithId(old(Ids()), hw);
              && chanReq == (if k < |old(Nodes)| then old(Nodes)[k] else null)
              && (old(Looped) && |old(Nodes)| == 1 ==> Nodes == old(Nodes) && Looped)
              && (!(old(Looped) && |old(Nodes)| == 1) ==>
                    Nodes == Without(old(Nodes), k) && Looped == (old(Looped) && k != |old(Nodes)| - 1))
    {
      var before;
      chanReq, before := Find(hw);
      if chanReq != null {
        Unlink(FirstWithId(Ids(), hw), chanReq, before);
      }
    }

    /** Completion of a transfer on hardware channel `hw`. While the head has requests left it stays linked
        and is the record notified; otherwise the first record with that id is unlinked and notified. */
    method TransComplete(hw: nat) returns (notified: DmaChannel?)
      requires Valid() && Nodes != [] && (Looped && Nodes[0].curReqLength == 0 ==> hw in Ids())
      modifies this, Nodes`next
      ensures Valid()
      ensures old(Nodes[0].curReqLength) != 0 ==>
                Nodes == old(Nodes) && Looped == old(Looped) && notified == old(Nodes)[0]
      ensures old(Nodes[0].curReqLength) == 0 ==>
                var k := FirstWithId(old(Ids()), hw);
                && notified == (if k < |old(Nodes)| then old(Nodes)[k] else null)
                && (!(old(Looped) && |old(Nodes)| == 1) ==> Nodes == Without(old(Nodes), k))
      // The head of a list without a loop is notified and unlinked together exactly when it has no request left and
      // carries the id.
      ensures !old(Looped) ==>
                ((notified == old(Nodes)[0] && Nodes == old(Nodes)[1..]) <==>
                   old(Nodes[0].curReqLength) == 0 && old(Nodes[0].hwChanId) == hw)
      // A head that is named leaves the list, unless it is the only record of a looped one.
      ensures old(Nodes[0].curReqLength) == 0 && old(Nodes[0].hwChanId) == hw ==>
                && notified == old(Nodes)[0] && Looped == old(Looped)
                && Nodes == if old(Looped) && |old(Nodes)| == 1 then old(Nodes) else old(Nodes)[1..]
    {
      ghost var ids := Ids();
      assert ids[0] == Nodes[0].hwChanId;
      if first.curReqLength == 0 {
        notified := Remove(hw);
      } else {
        notified := first;
      }
    }
  }
}
