/** The DMA device manager: the global table of device control blocks, opened and closed by reference count. */
module DmaManager {
  import opened Common
  import opened Bits
  import opened DmaDeviceTable
  import Block = DmaDeviceBlock
  import Alloc = DmaAllocation

  class Manager {
    const devices: array<Block.DmaDevice?>
    const maxChannels: nat
    const maxUsers: nat
    ghost var st: State

    /** The entry at place `i` describes the control block there, whose mask is exact. */
    ghost predicate Matches(i: nat)
      requires i < devices.Length == |st.table|
      reads this, devices, devices[i], if devices[i] == null then {} else {devices[i].channels}
    {
      var d := devices[i];
      if d == null then st.table[i].None?
      else
        && st.table[i] == Some(Entry(d.block, d.devId, d.userCount)) && d.devIndex == i && d.MaskMatches()
        && d.channels.Length0 == maxChannels && d.channels.Length1 == maxUsers
    }

    ghost function Blocks(): set<object>
      reads devices
    {
      set i | 0 <= i < devices.Length && devices[i] != null :: devices[i]
    }

    ghost function Matrices(): set<object>
      reads devices
    {
      set i | 0 <= i < devices.Length && devices[i] != null :: devices[i].channels
    }

    /** The table of values describes the control blocks, no two of which share a slot matrix, and every count is the
        balance of its block. */
    ghost predicate Valid()
      reads this, devices, Blocks(), Matrices()
    {
      && devices.Length == |st.table| <= 256
      && maxChannels <= 32 && 0 < maxUsers < 256
      && Inv(st)
      && (forall i | 0 <= i < devices.Length :: Matches(i))
      && (forall i, j | 0 <= i < j < devices.Length && devices[i] != null && devices[j] != null ::
            devices[i].channels != devices[j].channels)
    }

    constructor (maxDevices: nat, channels: nat, users: nat)
      requires maxDevices <= 256 && channels <= 32 && 0 < users < 256
      ensures Valid() && st == Empty(maxDevices)
    {
      devices := new Block.DmaDevice?[maxDevices](i => null);
      maxChannels, maxUsers := channels, users;
      st := Empty(maxDevices);
    }

    /** Position of a handle in the table, or of a free place when the handle is null; the table size if there is
        none. */
    method GetDeviceIndex(handle: Block.DmaDevice?) returns (index: nat)
      requires Valid()
      ensures handle == null ==> index == FindFree(st.table)
      ensures index <= devices.Length && (index < devices.Length ==> devices[index] == handle)
      ensures handle != null && index == devices.Length ==> forall i | 0 <= i < devices.Length :: devices[i] != handle
    {
      index := 0;
      while index < devices.Length
        invariant index <= devices.Length && forall j | 0 <= j < index :: devices[j] != handle
      {
        if devices[index] == handle {
          break;
        }
        index := index + 1;
      }
      if handle == null {
        assert forall j | 0 <= j < index :: Matches(j) && st.table[j].Some?;
        assert index < devices.Length ==> Matches(index);
      }
    }

    /** The search for an open device with this id. */
    method FindOpen(devId: nat) returns (index: nat)
      requires Valid()
      ensures index == FindDev(st.table, devId)
    {
      index := 0;
      while index < devices.Length
        invariant index <= devices.Length && forall j | 0 <= j < index :: !HasDev(st.table[j], devId)
      {
        assert Matches(index);
        if devices[index] != null && devices[index].devId == devId {
          break;
        }
        index := index + 1;
      }
    }

    /** Writes the user count of the device at `index`. */
    method SetCount(index: nat, d: Block.DmaDevice, count: nat, ghost after: State)
      requires Valid() && index < devices.Length && devices[index] == d
      requires Inv(after) && after.table == st.table[index := Some(Entry(d.block, d.devId, count))]
      modifies this`st, d`userCount
      ensures Valid() && st == after
    {
      assert Matches(index);
      forall j | 0 <= j < devices.Length && j != index ensures devices[j] != d {
        assert Matches(j);
      }
      d.userCount := count;
      st := after;
      forall j | 0 <= j < devices.Length ensures Matches(j) {
        assert old(Matches(j));
      }
    }

    /** Replaces the control block at `index`. */
    method SetBlock(index: nat, d: Block.DmaDevice?, ghost after: State)
      requires Valid() && index < devices.Length && Inv(after)
      requires d != null ==>
                 && d.devIndex == index && d.MaskMatches()
                 && d.channels.Length0 == maxChannels && d.channels.Length1 == maxUsers && d.channels !in Matrices()
      requires after.table == st.table[index := if d == null then None else Some(Entry(d.block, d.devId, d.userCount))]
      modifies this`st, devices
      ensures Valid() && st == after && devices[index] == d
      ensures forall j | 0 <= j < devices.Length && j != index :: devices[j] == old(devices[j])
    {
      devices[index] := d;
      st := after;
      forall j | 0 <= j < devices.Length ensures Matches(j) {
        assert old(Matches(j));
      }
    }

    /** Allocates a control block for the free place at `index`. */
    method Create(index: nat, devId: nat, ghost after: State) returns (d: Block.DmaDevice)
      requires Valid() && index < devices.Length && Inv(after)
      requires after.table == st.table[index := Some(Entry(st.nextBlock, devId, 1))]
      modifies this`st, devices
      ensures Valid() && st == after && devices[index] == d && d.devId == devId && fresh(d)
      ensures d.State() == Alloc.EMPTY
    {
      d := new Block.DmaDevice(maxChannels, maxUsers, index, devId, st.nextBlock);
      assert forall j | 0 <= j < devices.Length :: old(Matches(j));
      SetBlock(index, d, after);
    }

    /** Takes the control block at `index` out of the table and, when the event groups could be deleted, deletes the
        semaphores of exactly the channels with an enabled slot. */
    method Remove(index: nat, d: Block.DmaDevice, eventsOk: bool, ghost after: State) returns (ok: bool)
      requires Valid() && index < devices.Length && devices[index] == d
      requires Inv(after) && after.table == st.table[index := None]
      modifies this`st, devices, d`chanSemaphores
      ensures Valid() && st == after
      ensures ok <==> eventsOk && Alloc.Chans(d.owners) <= old(d.chanSemaphores)
      ensures ok ==> d.chanSemaphores == old(d.chanSemaphores) - Alloc.Chans(d.owners)
      ensures !eventsOk ==> d.chanSemaphores == old(d.chanSemaphores)
    {
      assert Matches(index);
      SetBlock(index, null, after);
      label Gone:
      ok := eventsOk;
      if ok {
        ok := d.DeleteSemaphores();
      }
      forall j | 0 <= j < devices.Length ensures Matches(j) {
        assert old@Gone(Matches(j));
      }
    }

    /** A further user of the open device at `index`. */
    method Reopen(index: nat, d: Block.DmaDevice, devId: nat, outcome: Outcome)
      requires Valid() && index < devices.Length && index == FindDev(st.table, devId) && devices[index] == d
      modifies this`st, d`userCount
      ensures Valid() && (st, Success) == DmaDeviceTable.Open(old(st), devId, outcome) && d.devId == devId
    {
      assert Matches(index);
      DmaDeviceTable.OpenInv(st, devId, outcome);
      SetCount(index, d, (d.userCount + 1) % COUNT, DmaDeviceTable.Open(st, devId, outcome).0);
    }

    /** Opens a device that is not open yet. */
    method OpenNew(devId: nat, outcome: Outcome) returns (status: Status, handle: Block.DmaDevice?)
      requires Valid() && FindDev(st.table, devId) == |st.table|
      modifies this`st, devices
      ensures Valid()
      ensures (st, status) == DmaDeviceTable.Open(old(st), devId, outcome)
      ensures status == Success ==> handle != null && handle.devId == devId && handle in Blocks()
      ensures handle != null ==> fresh(handle) && handle.State() == Alloc.EMPTY
    {
      ghost var after := DmaDeviceTable.Open(st, devId, outcome).0;
      DmaDeviceTable.OpenInv(st, devId, outcome);
      status, handle := OsError, null;
      var index := GetDeviceIndex(null);
      if index == devices.Length {
        status := DeviceNotFree;
      } else if outcome != DevOpenFails && outcome != AllocFails {
        var d := Create(index, devId, after);
        if outcome != EventsFail {
          handle := d;
          status := if outcome == CallbackFails then OsError else Success;
        }
      }
    }

    /** Opens a device: a further user of an open one, or a new control block in a free place, with no slot held. The
        slots of every open device stay as they are. */
    method Open(devId: nat, pointerOk: bool, outcome: Outcome) returns (status: Status, handle: Block.DmaDevice?)
      requires Valid()
      modifies this`st, devices, Blocks()
      ensures Valid()
      ensures !pointerOk ==> status == InvalidPointer && st == old(st)
      ensures pointerOk ==> (st, status) == DmaDeviceTable.Open(old(st), devId, outcome)
      ensures status == Success ==> handle != null && handle.devId == devId && handle in Blocks()
      ensures handle != null && handle !in old(Blocks()) ==> handle.State() == Alloc.EMPTY
      ensures forall i | 0 <= i < devices.Length && old(devices[i]) != null ::
                old(devices[i]).State() == old(devices[i].State())
    {
      if !pointerOk {
        return InvalidPointer, null;
      }
      status := Success;
      var index := FindOpen(devId);
      if index < devices.Length {
        assert Matches(index);
        handle := devices[index];
        Reopen(index, handle, devId, outcome);
      } else {
        status, handle := OpenNew(devId, outcome);
      }
    }

    /** Closes a device: one user fewer, or, for the last user, out of the table with the semaphores of exactly the
        channels in use deleted. `eventsOk` and `freeOk` are the outcomes of deleting the event groups and freeing the
        block; neither brings the entry back. */
    method Close(handle: Block.DmaDevice?, closeOk: bool, eventsOk: bool, freeOk: bool) returns (status: Status)
      requires Valid()
      modifies this`st, devices, Blocks()
      ensures Valid()
      ensures handle == null || handle !in old(Blocks()) ==> status == InvalidHandle && st == old(st)
      ensures handle != null && handle in old(Blocks()) ==>
                && st == DmaDeviceTable.Close(old(st), handle.block, closeOk).0
                && var chans := Alloc.Chans(handle.owners);
                if old(handle.userCount) == 1 && closeOk then
                  && (status == Success <==> eventsOk && chans <= old(handle.chanSemaphores) && freeOk)
                  && (eventsOk && chans <= old(handle.chanSemaphores) ==>
                        handle.chanSemaphores == old(handle.chanSemaphores) - chans)
                  && (!eventsOk ==> handle.chanSemaphores == old(handle.chanSemaphores))
                else
                  && status == DmaDeviceTable.Close(old(st), handle.block, closeOk).1
                  && handle.chanSemaphores == old(handle.chanSemaphores)
      ensures forall i | 0 <= i < devices.Length && old(devices[i]) != null ::
                && old(devices[i]).owners == old(devices[i].owners)
                && (old(devices[i]) != handle ==> old(devices[i]).State() == old(devices[i].State()))
    {
      if handle == null {
        return InvalidHandle;
      }
      var index := GetDeviceIndex(handle);
      if index == devices.Length {
        return InvalidHandle;
      }
      status := Success;
      ghost var after := DmaDeviceTable.Close(st, handle.block, closeOk).0;
      CloseInv(st, handle.block, closeOk);
      BlockAt(index);
      if handle.userCount == 1 {
        status := OsError;
        if closeOk {
          var ok := Remove(index, handle, eventsOk, after);
          if ok && freeOk {
            status := Success;
          }
        }
      } else {
        SetCount(index, handle, (handle.userCount + COUNT - 1) % COUNT, after);
      }
    }

    lemma BlockAt(index: nat)
      requires Valid() && index < devices.Length && devices[index] != null
      ensures FindBlock(st.table, devices[index].block) == index
      ensures st.table[index] == Some(Entry(devices[index].block, devices[index].devId, devices[index].userCount))
    {
      assert Matches(index);
      var k := FindBlock(st.table, devices[index].block);
    }

    /** A change of the slots of the block at `index` alone keeps the table. */
    twostate lemma SlotsChanged(index: nat)
      requires old(Valid()) && index < devices.Length
      requires devices[index] != null && devices[index].MaskMatches()
      requires st == old(st) && forall i | 0 <= i < devices.Length :: devices[i] == old(devices[i])
      requires devices[index].userCount == old(devices[index].userCount)
      requires forall i | 0 <= i < devices.Length && i != index && devices[i] != null ::
                 unchanged(devices[i]) && unchanged(devices[i].channels)
      ensures Valid()
    {
      forall i | 0 <= i < devices.Length ensures Matches(i) {
        assert old(Matches(i));
      }
    }

    predicate At(index: nat, handle: Block.DmaDevice?)
      reads devices
    {
      index < devices.Length && devices[index] == handle
    }

    /** Acquires a channel of the device at `index`. */
    method AcquireAt(index: nat, d: Block.DmaDevice, hw: nat, peri: nat, semOk: bool, driverOk: bool, driverHw: nat)
      returns (status: Block.Status, chanHandle: nat)
      requires Valid() && At(index, d)
      modifies d`channelsInuse, d`owners, d`chanSemaphores, d.channels
      ensures Valid() && Acquired(d, old(d.State()), hw, peri, semOk, driverOk, driverHw, status, chanHandle)
    {
      assert Matches(index);
      status, chanHandle := d.AcquireChannel(hw, peri, semOk, driverOk, driverHw);
      SlotsChanged(index);
    }

    /** What an acquire on device `d` leaves and returns: the table of the specification, success exactly on a grant
        with successful calls, and a handle that leads back to the device and the slot. */
    ghost predicate Acquired(d: Block.DmaDevice, before: Alloc.Alloc, hw: nat, peri: nat,
                             semOk: bool, driverOk: bool, driverHw: nat, status: Block.Status, chanHandle: nat)
      reads devices, d
    {
      var (after, verdict) := Alloc.Acquire(before, maxChannels, maxUsers, hw, peri, semOk, driverHw);
      && d.State() == after
      && (verdict.Granted? ==> d.Names(chanHandle, verdict.slot) && At(Block.DevIndex(chanHandle), d))
      && (status == Block.ChannelAlreadyOpen <==> verdict == Alloc.AlreadyOpen)
      && (status == Block.ChannelMaxUserReached <==> verdict == Alloc.MaxUserReached)
      && (status == Block.ChannelMaxReached <==> verdict == Alloc.MaxReached)
      && (status == Block.OsError <==> verdict.Granted? && !semOk && !Alloc.Known(before.owners, hw))
      && (status == Block.Success <==> verdict.Granted? && (semOk || Alloc.Known(before.owners, hw)) && driverOk)
    }

    /** Acquires a channel of a device. An unknown device handle is refused; a null one is compared with the free
        places, and must not find one. */
    method AcquireChannel(handle: Block.DmaDevice?, hw: nat, peri: nat, semOk: bool, driverOk: bool, driverHw: nat)
      returns (status: Block.Status, chanHandle: nat)
      requires Valid() && (handle == null ==> FindFree(st.table) == devices.Length)
      modifies Blocks(), Matrices()
      ensures Valid()
      ensures handle == null || handle !in Blocks() ==> status == Block.InvalidHandle
      ensures handle != null && handle in Blocks() ==>
                Acquired(handle, old(handle.State()), hw, peri, semOk, driverOk, driverHw, status, chanHandle)
      ensures forall i | 0 <= i < devices.Length && devices[i] != null && devices[i] != handle ::
                devices[i].State() == old(devices[i].State())
    {
      chanHandle := 0;
      var index := GetDeviceIndex(handle);
      if index == devices.Length {
        return Block.InvalidHandle, 0;
      }
      status, chanHandle := AcquireAt(index, handle, hw, peri, semOk, driverOk, driverHw);
    }

    /** Releases a channel of the device at `index`, which the handle names. */
    method ReleaseAt(index: nat, d: Block.DmaDevice, chanHandle: nat, driverOk: bool) returns (status: Block.Status)
      requires Valid() && At(index, d) && Block.ValidHandle(chanHandle) && index == Block.DevIndex(chanHandle)
      requires Block.ChanIndex(chanHandle) < maxChannels && Block.UserIndex(chanHandle) < maxUsers
      modifies d`channelsInuse, d`owners, d`chanSemaphores, d.channels
      ensures Valid() && Released(d, old(d.State()), chanHandle, driverOk, status)
    {
      assert Matches(index);
      status := d.ReleaseChannel(chanHandle, driverOk);
      SlotsChanged(index);
    }

    /** What a release on device `d` leaves and returns. */
    ghost predicate Released(d: Block.DmaDevice, before: Alloc.Alloc, chanHandle: nat, driverOk: bool,
                             status: Block.Status)
      reads d
    {
      var c := Block.ChanIndex(chanHandle);
      && d.State() == Alloc.Release(before, (c, Block.UserIndex(chanHandle)))
      && status == if c !in Alloc.Chans(d.owners) && c !in before.sems then Block.OsError
                   else if driverOk then Block.Success else Block.DriverFailed
    }

    /** Releases the slot a channel handle names, on the device it names. */
    method ReleaseChannel(chanHandle: nat, driverOk: bool) returns (status: Block.Status)
      requires Valid()
      requires Block.ValidHandle(chanHandle) ==>
                 && Block.DevIndex(chanHandle) < devices.Length && devices[Block.DevIndex(chanHandle)] != null
                 && Block.ChanIndex(chanHandle) < maxChannels && Block.UserIndex(chanHandle) < maxUsers
      modifies Blocks(), Matrices()
      ensures Valid()
      ensures !Block.ValidHandle(chanHandle) ==> status == Block.InvalidHandle
      ensures Block.ValidHandle(chanHandle) ==>
                var d := devices[Block.DevIndex(chanHandle)];
                Released(d, old(d.State()), chanHandle, driverOk, status)
      ensures forall i | 0 <= i < devices.Length && devices[i] != null ::
                !(Block.ValidHandle(chanHandle) && i == Block.DevIndex(chanHandle)) ==>
                  devices[i].State() == old(devices[i].State())
    {
      if !Block.ValidHandle(chanHandle) {
        return Block.InvalidHandle;
      }
      var index := Block.DevIndex(chanHandle);
      forall i | 0 <= i < devices.Length && i != index && devices[i] != null ensures devices[i] != devices[index] {
        assert Matches(i) && Matches(index);
      }
      status := ReleaseAt(index, devices[index], chanHandle, driverOk);
    }
  }
}
