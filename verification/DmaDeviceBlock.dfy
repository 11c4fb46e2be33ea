/** A DMA device control block: the channel/user slots, the in-use mask and the channel semaphores
    (`NU_DMA_Acquire_Channel`, `NU_DMA_Release_Channel`, the clean-up loop of `NU_DMA_Close`). */
module DmaDeviceBlock {
  import opened Bits
  import opened Common
  import opened DmaAllocation

  datatype Status = Success | InvalidHandle | ChannelAlreadyOpen | ChannelUserExist | ChannelMaxReached
                  | ChannelMaxUserReached | OsError | DriverFailed

  datatype Channel = Channel(enabled: bool, hwChanId: nat, periId: nat, chanHandle: nat)

  const SIGNATURE: nat := 0xC300_0000

  /** The channel handle: channel, user and device index in the three low bytes under the signature byte. */
  function Pack(chan: nat, user: nat, dev: nat): (h: nat)
    requires chan < 256 && user < 256 && dev < 256
  {
    chan + 0x100 * user + 0x1_0000 * dev + SIGNATURE
  }

  predicate ValidHandle(h: nat) { h / 0x100_0000 == 0xC3 }
  function ChanIndex(h: nat): nat { h % 0x100 }
  function UserIndex(h: nat): nat { h / 0x100 % 0x100 }
  function DevIndex(h: nat): nat { h / 0x1_0000 % 0x100 }

  /** The three decoders undo the packing, and a packed handle passes the signature test. */
  lemma UnpackPack(c: nat, u: nat, d: nat)
    requires c < 256 && u < 256 && d < 256
    ensures var h := Pack(c, u, d);
            ValidHandle(h) && ChanIndex(h) == c && UserIndex(h) == u && DevIndex(h) == d
  {
    var h := Pack(c, u, d);
    assert h / 0x100 == u + 0x100 * d + 0xC3_0000;
    assert h / 0x1_0000 == d + 0xC300;
  }

  /** Only a packed triple passes the signature test. */
  lemma PackUnpack(h: nat)
    requires ValidHandle(h)
    ensures h == Pack(ChanIndex(h), UserIndex(h), DevIndex(h))
  {
    assert h / 0x100 / 0x100 == h / 0x1_0000 && h / 0x1_0000 / 0x100 == h / 0x100_0000;
  }

  class DmaDevice {
    ghost const block: nat  // allocation number
    const devId: nat
    var userCount: nat
    const devIndex: nat
    const channels: array2<Channel>
    var channelsInuse: nat
    var chanSemaphores: set<nat>

    ghost var owners: map<Slot, Pair>  // the enabled slots and what they are held for

    ghost predicate Shape()
      reads this`channelsInuse, this`owners, channels
    {
      && channels.Length0 <= 32 && 0 < channels.Length1 < 256 && devIndex < 256
      && channelsInuse < WORD
      && (forall k | k in owners :: k.0 < channels.Length0 && k.1 < channels.Length1)
      && (forall c: nat, u: nat | c < channels.Length0 && u < channels.Length1 ::
            channels[c, u].enabled <==> (c, u) in owners)
      && (forall c: nat, u: nat | c < channels.Length0 && u < channels.Length1 && (c, u) in owners ::
            owners[(c, u)] == (channels[c, u].hwChanId, channels[c, u].periId))
    }

    ghost function State(): Alloc
      reads this
    {
      Alloc(owners, chanSemaphores)
    }

    /** The in-use mask names exactly the channels with an enabled slot. */
    ghost predicate MaskMatches()
      reads this`channelsInuse, this`owners, channels
    {
      Shape() && Members(channelsInuse) == Chans(owners)
    }

    /** The mask matches and the slots are consistent. */
    ghost predicate Valid()
      reads this`channelsInuse, this`owners, channels
    {
      && MaskMatches()
      && Ok(owners, channels.Length0, channels.Length1)
    }

    /** A cleared control block with one user. */
    constructor (maxChannels: nat, maxUsers: nat, dev: nat, id: nat, ghost number: nat)
      requires maxChannels <= 32 && 0 < maxUsers < 256 && dev < 256
      ensures Valid() && State() == EMPTY && fresh(channels)
      ensures channels.Length0 == maxChannels && channels.Length1 == maxUsers && devIndex == dev
      ensures userCount == 1 && devId == id && block == number
    {
      devIndex, devId, userCount, block := dev, id, 1, number;
      channels := new Channel[maxChannels, maxUsers]((i, j) => Channel(false, 0, 0, 0));
      channelsInuse := 0;
      chanSemaphores := {};
      owners := map[];
      new;
      ZeroIsEmpty(0);
    }

    /** The inner search loop: the users of one channel. */
    method ScanUsers(chan: nat, hw: nat, peri: nat) returns (status: Status)
      requires chan < channels.Length0
      ensures status == Success <==> forall u | 0 <= u < channels.Length1 :: !Matches(chan, u, hw)
      ensures status == ChannelAlreadyOpen <==>
              exists u :: 0 <= u < channels.Length1 && Matches(chan, u, hw) && channels[chan, u].periId == peri
      ensures status == Success || status == ChannelAlreadyOpen || status == ChannelUserExist
    {
      status := Success;
      var user := 0;
      while user < channels.Length1
        invariant user <= channels.Length1
        invariant status == Success || status == ChannelUserExist
        invariant status == Success <==> forall u | 0 <= u < user :: !Matches(chan, u, hw)
        invariant forall u | 0 <= u < user && Matches(chan, u, hw) :: channels[chan, u].periId != peri
      {
        if channels[chan, user].enabled && channels[chan, user].hwChanId == hw {
          assert Matches(chan, user, hw);
          if channels[chan, user].periId == peri {
            return ChannelAlreadyOpen;
          }
          status := ChannelUserExist;
        }
        user := user + 1;
      }
    }

    predicate Matches(c: nat, u: nat, hw: nat)
      requires c < channels.Length0 && u < channels.Length1
      reads channels
    {
      channels[c, u].enabled && channels[c, u].hwChanId == hw
    }

    /** The search for a channel that already serves `hw`. It stops at the first channel whose slots match, and as
        soon as no higher in-use bit is left, and finds the lowest channel that serves the id. */
    method FindChannel(hw: nat, peri: nat) returns (status: Status, chan: nat)
      requires MaskMatches()
      ensures status == Success <==> !Known(owners, hw)
      ensures Known(owners, hw) ==> chan == ChanOf(owners, channels.Length0, hw) && chan < channels.Length0
      ensures status == ChannelAlreadyOpen <==> Known(owners, hw) && HeldAt(owners, chan, (hw, peri))
      ensures status == ChannelUserExist <==> Known(owners, hw) && !HeldAt(owners, chan, (hw, peri))
    {
      status, chan := Success, 0;
      while chan < channels.Length0 && channelsInuse >= Mask(chan)
        invariant chan <= channels.Length0 && status == Success
        invariant forall d: nat | d < chan :: !Serves(owners, d, hw)
      {
        TestIsBit(channelsInuse, chan);
        if And(channelsInuse, Mask(chan)) != 0 {
          status := ScanUsers(chan, hw, peri);
          ServesByMatch(chan, hw, peri);
          if status != Success {
            FirstServing(chan, hw);
            return;
          }
        } else {
          UnusedServesNone(chan, hw);
        }
        chan := chan + 1;
      }
      NoneAbove(chan, hw);
    }

    lemma UnusedServesNone(chan: nat, hw: nat)
      requires MaskMatches() && chan < channels.Length0 && !Bit(channelsInuse, chan)
      ensures !Serves(owners, chan, hw)
    {
      assert chan !in Members(channelsInuse);
      if k :| k in owners && k.0 == chan {
        InChans(owners, k);
      }
    }

    lemma FirstServing(chan: nat, hw: nat)
      requires Shape() && chan < channels.Length0 && Serves(owners, chan, hw)
      requires forall d: nat | d < chan :: !Serves(owners, d, hw)
      ensures Known(owners, hw) && chan == ChanOf(owners, channels.Length0, hw)
    {
      var k :| k in owners && k.0 == chan && owners[k].0 == hw;
      ChanOfIsFirst(owners, channels.Length0, channels.Length1, hw);
    }

    /** What the search has seen when it ends: no in-use bit at or above `chan`, or no channel left. */
    lemma NoneAbove(chan: nat, hw: nat)
      requires MaskMatches() && chan <= channels.Length0
      requires chan == channels.Length0 || channelsInuse < Mask(chan)
      requires forall d: nat | d < chan :: !Serves(owners, d, hw)
      ensures !Known(owners, hw)
    {
      AtLeastMask(channelsInuse, chan);
      forall k | k in owners ensures owners[k].0 != hw {
        InChans(owners, k);
        assert k.0 in Members(channelsInuse);
        assert owners[k].0 == hw ==> Serves(owners, k.0, hw);
      }
    }

    /** The matches of one channel are what the channel serves. */
    lemma ServesByMatch(chan: nat, hw: nat, peri: nat)
      requires Shape() && chan < channels.Length0
      ensures Serves(owners, chan, hw) <==> exists u :: 0 <= u < channels.Length1 && Matches(chan, u, hw)
      ensures HeldAt(owners, chan, (hw, peri)) <==>
              exists u :: 0 <= u < channels.Length1 && Matches(chan, u, hw) && channels[chan, u].periId == peri
    {
      forall u: nat | u < channels.Length1
        ensures Matches(chan, u, hw) <==> (chan, u) in owners && owners[(chan, u)].0 == hw
        ensures Matches(chan, u, hw) ==> channels[chan, u].periId == owners[(chan, u)].1
      {
      }
      if k :| k in owners && k.0 == chan && owners[k].0 == hw {
        assert k == (chan, k.1) && Matches(chan, k.1, hw);
      }
      if k :| k in owners && k.0 == chan && owners[k] == (hw, peri) {
        assert k == (chan, k.1) && Matches(chan, k.1, hw);
      }
    }

    method FindFreeChannel() returns (chan: nat)
      requires MaskMatches()
      ensures chan == FirstFree(Chans(owners), 0, channels.Length0)
    {
      chan := 0;
      ghost var used := Members(channelsInuse);
      while chan < channels.Length0
        invariant chan <= channels.Length0
        invariant forall j | 0 <= j < chan :: j in used
      {
        TestIsBit(channelsInuse, chan);
        if And(channelsInuse, Mask(chan)) == 0 {
          assert chan !in used;
          break;
        }
        chan := chan + 1;
      }
      FirstFreeIsUnique(used, chan, channels.Length0);
    }

    method FindFreeUser(chan: nat) returns (user: nat)
      requires Shape() && chan < channels.Length0
      ensures user == FirstFree(UsersAt(owners, chan, channels.Length1), 0, channels.Length1)
    {
      user := 0;
      ghost var used := UsersAt(owners, chan, channels.Length1);
      while user < channels.Length1
        invariant user <= channels.Length1
        invariant forall j | 0 <= j < user :: j in used
        invariant forall u: nat | u < channels.Length1 :: u in used <==> channels[chan, u].enabled
      {
        if !channels[chan, user].enabled {
          break;
        }
        user := user + 1;
      }
      FirstFreeIsUnique(used, user, channels.Length1);
    }

    /** The slot choice of an acquire: the verdict and the slot of the specification. `Success` means a fresh channel
        and `ChannelUserExist` a further user of a served one. */
    method ChooseSlot(hw: nat, peri: nat) returns (status: Status, chan: nat, user: nat)
      requires MaskMatches()
      ensures var n, m := channels.Length0, channels.Length1;
              var slot := SlotFor(owners, n, m, hw);
              var known, held := Known(owners, hw), HeldAt(owners, slot.0, (hw, peri));
              && (status == ChannelAlreadyOpen <==> known && held)
              && (status == ChannelMaxUserReached <==> known && !held && slot.1 == m)
              && (status == ChannelMaxReached <==> !known && slot.0 == n)
              && (status == ChannelUserExist <==> known && !held && slot.1 < m)
              && (status == Success <==> !known && slot.0 < n)
              && (status == Success || status == ChannelUserExist ==> (chan, user) == slot && chan < n && user < m)
    {
      user := 0;
      SlotIsFresh(owners, channels.Length0, channels.Length1, hw);
      status, chan := FindChannel(hw, peri);
      if status == Success {
        chan := FindFreeChannel();
        if chan == channels.Length0 {
          status := ChannelMaxReached;
        }
      } else if status == ChannelUserExist {
        user := FindFreeUser(chan);
        if user == channels.Length1 {
          status := ChannelMaxUserReached;
        }
      }
    }

    /** Enables a slot and its in-use bit. */
    method Occupy(chan: nat, user: nat, hw: nat, peri: nat) returns (handle: nat)
      requires MaskMatches() && chan < channels.Length0 && user < channels.Length1
      modifies this`channelsInuse, this`owners, channels
      ensures MaskMatches() && handle == Pack(chan, user, devIndex)
      ensures owners == old(owners)[(chan, user) := (hw, peri)]
    {
      handle := Pack(chan, user, devIndex);
      channels[chan, user] := Channel(true, hw, peri, handle);
      owners := owners[(chan, user) := (hw, peri)];
      SetBit(channelsInuse, chan);
      channelsInuse := Or(channelsInuse, Mask(chan));
      ChansOfGrant(old(owners), (chan, user), (hw, peri));
    }

    /** The driver's acquire call, which may store a hardware id of its own in the slot. */
    method DriverAcquire(chan: nat, user: nat, driverHw: nat, ghost before: map<Slot, Pair>, ghost pair: Pair)
      requires MaskMatches() && chan < channels.Length0 && user < channels.Length1
      requires owners == before[(chan, user) := pair]
      modifies this`owners, channels
      ensures MaskMatches()
      ensures owners == before[(chan, user) := (driverHw, pair.1)]
    {
      channels[chan, user] := channels[chan, user].(hwChanId := driverHw);
      owners := before[(chan, user) := (driverHw, pair.1)];
      ChansOfGrant(before, (chan, user), pair);
      ChansOfGrant(before, (chan, user), (driverHw, pair.1));
    }

    /** Creates the semaphore of a channel, if the OS can. */
    method CreateSemaphore(chan: nat, semOk: bool) returns (status: Status)
      requires MaskMatches()
      modifies this`chanSemaphores
      ensures MaskMatches()
      ensures status == if semOk then Success else OsError
      ensures chanSemaphores == if semOk then old(chanSemaphores) + {chan} else old(chanSemaphores)
    {
      if semOk {
        chanSemaphores := chanSemaphores + {chan};
        return Success;
      }
      return OsError;
    }

    /** Fills the chosen slot: enable it, create the semaphore of a fresh channel, and call the driver unless that
        failed. */
    method FillSlot(chan: nat, user: nat, hw: nat, peri: nat, isFresh: bool, semOk: bool, driverOk: bool, driverHw: nat)
      returns (status: Status, handle: nat)
      requires MaskMatches() && chan < channels.Length0 && user < channels.Length1
      modifies this`channelsInuse, this`owners, this`chanSemaphores, channels
      ensures MaskMatches() && handle == Pack(chan, user, devIndex)
      ensures owners == old(owners)[(chan, user) := (if !isFresh || semOk then driverHw else hw, peri)]
      ensures chanSemaphores == if isFresh && semOk then old(chanSemaphores) + {chan} else old(chanSemaphores)
      ensures status == if isFresh && !semOk then OsError else if driverOk then Success else DriverFailed
    {
      status := Success;
      handle := Occupy(chan, user, hw, peri);
      if isFresh {
        status := CreateSemaphore(chan, semOk);
      }
      if status == Success {
        DriverAcquire(chan, user, driverHw, old(owners), (hw, peri));
        status := if driverOk then Success else DriverFailed;
      }
    }

    /** Chooses a slot and fills it. */
    method TakeSlot(hw: nat, peri: nat, semOk: bool, driverOk: bool, driverHw: nat)
      returns (status: Status, handle: nat)
      requires MaskMatches()
      modifies this`channelsInuse, this`owners, this`chanSemaphores, channels
      ensures MaskMatches()
      ensures State() == Acquire(old(State()), channels.Length0, channels.Length1, hw, peri, semOk, driverHw).0
      ensures var verdict := Acquire(old(State()), channels.Length0, channels.Length1, hw, peri, semOk, driverHw).1;
              && (verdict == AlreadyOpen <==> status == ChannelAlreadyOpen)
              && (verdict == MaxUserReached <==> status == ChannelMaxUserReached)
              && (verdict == MaxReached <==> status == ChannelMaxReached)
              && (verdict.Granted? ==> Names(handle, verdict.slot))
              && (status == OsError <==> verdict.Granted? && !semOk && !Known(old(owners), hw))
              && (status == DriverFailed <==> verdict.Granted? && (semOk || Known(old(owners), hw)) && !driverOk)
              && (status == Success <==> verdict.Granted? && (semOk || Known(old(owners), hw)) && driverOk)
    {
      var chan, user;
      handle := 0;
      status, chan, user := ChooseSlot(hw, peri);
      if status == Success || status == ChannelUserExist {
        status, handle := FillSlot(chan, user, hw, peri, status == Success, semOk, driverOk, driverHw);
        UnpackPack(chan, user, devIndex);
      }
    }

    /** Acquires a channel. `semOk` and `driverOk` are the outcomes of the semaphore and driver calls, and `driverHw` is
        the hardware id the driver leaves in the slot. On every table, consistent or not, the mask stays exact and the
        new table, the verdict and the handle are those of the specification; consistency is kept exactly under the
        guard. */
    method AcquireChannel(hw: nat, peri: nat, semOk: bool, driverOk: bool, driverHw: nat)
      returns (status: Status, handle: nat)
      requires MaskMatches()
      modifies this`channelsInuse, this`owners, this`chanSemaphores, channels
      ensures MaskMatches()
      ensures old(Valid()) ==>
                (Valid() <==>
                   Guard(old(State()), channels.Length0, channels.Length1, AcquireOp(hw, peri, semOk, driverHw)))
      ensures State() == Acquire(old(State()), channels.Length0, channels.Length1, hw, peri, semOk, driverHw).0
      ensures var verdict := Acquire(old(State()), channels.Length0, channels.Length1, hw, peri, semOk, driverHw).1;
              && (verdict == AlreadyOpen <==> status == ChannelAlreadyOpen)
              && (verdict == MaxUserReached <==> status == ChannelMaxUserReached)
              && (verdict == MaxReached <==> status == ChannelMaxReached)
              && (verdict.Granted? ==> Names(handle, verdict.slot))
              && (status == OsError <==> verdict.Granted? && !semOk && !Known(old(owners), hw))
              && (status == DriverFailed <==> verdict.Granted? && (semOk || Known(old(owners), hw)) && !driverOk)
              && (status == Success <==> verdict.Granted? && (semOk || Known(old(owners), hw)) && driverOk)
    {
      ghost var a := State();
      status, handle := TakeSlot(hw, peri, semOk, driverOk, driverHw);
      if Ok(a.owners, channels.Length0, channels.Length1) {
        StepKeepsOk(a, channels.Length0, channels.Length1, AcquireOp(hw, peri, semOk, driverHw));
      }
    }

    /** The handle decodes to this device and the slot. */
    predicate Names(handle: nat, slot: Slot) {
      ValidHandle(handle) && DevIndex(handle) == devIndex && (ChanIndex(handle), UserIndex(handle)) == slot
    }

    /** The loop that looks for another enabled user of a channel. */
    method OtherUser(chan: nat, user: nat) returns (found: bool)
      requires chan < channels.Length0 && user < channels.Length1
      ensures found <==> exists u :: 0 <= u < channels.Length1 && u != user && channels[chan, u].enabled
    {
      var index := 0;
      while index < channels.Length1
        invariant index <= channels.Length1
        invariant forall u | 0 <= u < index && u != user :: !channels[chan, u].enabled
      {
        if index != user && channels[chan, index].enabled {
          return true;
        }
        index := index + 1;
      }
      return false;
    }

    method DisableSlot(chan: nat, user: nat)
      requires Shape() && chan < channels.Length0 && user < channels.Length1
      modifies this`owners, channels
      ensures Shape() && !channels[chan, user].enabled
      ensures owners == old(owners) - {(chan, user)}
    {
      channels[chan, user] := channels[chan, user].(enabled := false);
      owners := owners - {(chan, user)};
    }

    method ClearInuse(chan: nat)
      requires Shape() && chan < 32
      modifies this`channelsInuse
      ensures Shape() && Members(channelsInuse) == Members(old(channelsInuse)) - {chan}
    {
      ClearBit(channelsInuse, chan);
      channelsInuse := AndNot(channelsInuse, Mask(chan));
    }

    /** Disables a slot, and clears the in-use bit when no other user is left. */
    method Vacate(chan: nat, user: nat) returns (found: bool)
      requires MaskMatches() && chan < channels.Length0 && user < channels.Length1
      modifies this`channelsInuse, this`owners, channels
      ensures MaskMatches()
      ensures owners == old(owners) - {(chan, user)}
      ensures found <==> chan in Chans(owners)
    {
      DisableSlot(chan, user);
      ChansOfRelease(old(owners), (chan, user));
      found := OtherUser(chan, user);
      OthersKeepChannel(chan, user, found);
      if !found {
        ClearInuse(chan);
      }
    }

    /** Releases the slot a handle of this device names, held or idle, on every table, consistent or not. Deleting a
        semaphore succeeds when the channel has one. */
    method ReleaseChannel(handle: nat, driverOk: bool) returns (status: Status)
      requires MaskMatches()
      requires ValidHandle(handle) ==> DevIndex(handle) == devIndex
      requires ValidHandle(handle) ==> ChanIndex(handle) < channels.Length0 && UserIndex(handle) < channels.Length1
      modifies this`channelsInuse, this`owners, this`chanSemaphores, channels
      ensures MaskMatches() && (old(Valid()) ==> Valid())
      ensures !ValidHandle(handle) ==> status == InvalidHandle && State() == old(State())
      ensures ValidHandle(handle) ==> State() == Release(old(State()), (ChanIndex(handle), UserIndex(handle)))
      ensures ValidHandle(handle) ==>
                var c := ChanIndex(handle);
                status == OsError <==> c !in Chans(owners) && c !in old(chanSemaphores)
      ensures ValidHandle(handle) && status != OsError ==> status == if driverOk then Success else DriverFailed
    {
      if !ValidHandle(handle) {
        return InvalidHandle;
      }
      var chan, user := ChanIndex(handle), UserIndex(handle);
      status := Success;
      if Ok(owners, channels.Length0, channels.Length1) {
        ReleaseKeepsOk(State(), channels.Length0, channels.Length1, (chan, user));
      }
      var found := Vacate(chan, user);
      if !found {
        status := if chan in chanSemaphores then Success else OsError;
        chanSemaphores := chanSemaphores - {chan};
      }
      if status == Success {
        status := if driverOk then Success else DriverFailed;
      }
    }

    lemma OthersKeepChannel(chan: nat, user: nat, found: bool)
      requires Shape() && chan < channels.Length0 && user < channels.Length1 && !channels[chan, user].enabled
      requires found <==> exists u :: 0 <= u < channels.Length1 && u != user && channels[chan, u].enabled
      ensures chan in Chans(owners) <==> found
    {
    }

    /** The clean-up loop of the last close: walks the in-use mask bit by bit and deletes a semaphore for each. It ends
        for every mask, deletes exactly the semaphores of the channels in use, and fails exactly when one is missing. */
    method DeleteSemaphores() returns (ok: bool)
      requires channelsInuse < WORD
      modifies this`chanSemaphores
      ensures ok <==> Members(channelsInuse) <= old(chanSemaphores)
      ensures ok ==> chanSemaphores == old(chanSemaphores) - Members(channelsInuse)
      // A failure keeps the semaphores above the first one that is missing.
      ensures !ok ==> exists j :: j in Members(channelsInuse) && j !in old(chanSemaphores) &&
                        chanSemaphores == old(chanSemaphores) - (set i | i in Members(channelsInuse) && i < j)
    {
      var flags: nat, index: nat := channelsInuse, 0;
      ok := true;
      ZeroIsEmpty(flags);
      while flags != 0 && ok
        invariant flags < WORD && (flags == 0 <==> Members(flags) == {})
        invariant index <= 32 && forall i :: i in Members(flags) <==> i in Members(channelsInuse) && index <= i
        invariant ok ==> Members(channelsInuse) - Members(flags) <= old(chanSemaphores)
        invariant ok ==> chanSemaphores == old(chanSemaphores) - (Members(channelsInuse) - Members(flags))
        invariant !ok ==> 0 < index && index - 1 in Members(channelsInuse) && index - 1 !in old(chanSemaphores)
        invariant !ok ==> chanSemaphores ==
                            old(chanSemaphores) - (set i | i in Members(channelsInuse) && i < index - 1)
        decreases 32 - index
      {
        ghost var i :| i in Members(flags);
        TestIsBit(flags, index);
        if And(flags, Mask(index)) != 0 {
          ok := index in chanSemaphores;
          chanSemaphores := chanSemaphores - {index};
          ClearBit(flags, index);
          flags := AndNot(flags, Mask(index));
          ZeroIsEmpty(flags);
        }
        index := index + 1;
      }
    }
  }

  /** Releasing the handle of a grant restores the table, whatever the OS and the driver did. */
  lemma HandleRoundTrip(a: Alloc, n: nat, m: nat, op: Op, dev: nat)
    requires op.AcquireOp? && InRange(a.owners, n, m) && a.sems <= Chans(a.owners)
    requires n <= 256 && 0 < m <= 256 && dev < 256
    ensures var (b, v) := Acquire(a, n, m, op.hw, op.peri, op.semOk, op.driverHw);
            v.Granted? ==>
              && v.slot.0 < 256 && v.slot.1 < 256
              && var h := Pack(v.slot.0, v.slot.1, dev);
                 ValidHandle(h) && DevIndex(h) == dev && Release(b, (ChanIndex(h), UserIndex(h))) == a
  {
    var v := Acquire(a, n, m, op.hw, op.peri, op.semOk, op.driverHw).1;
    SlotIsFresh(a.owners, n, m, op.hw);
    AcquireThenRelease(a, n, m, op.hw, op.peri, op.semOk, op.driverHw);
    if v.Granted? {
      UnpackPack(v.slot.0, v.slot.1, dev);
    }
  }
}
