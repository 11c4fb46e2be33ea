# DMA manager, CAN loopback stack, touch panel and settings parser: a verified model

This project models four parts of the board support package and its bridge application, and proves what they keep over
every run. `dafny verify dfyconfig.toml` checks all of it.

- **DMA manager.** `DmaRequestList` is the linked request list with its first and last pointers, looped or not.
  `DmaTransfer` is the protocol of transfer start, interrupt, wake-up, acquire, release and reset over channel
  semaphores and event bits, as steps that interleave freely; a caller that suspends on a semaphore starts when the
  semaphore is there, and a signal to a deleted semaphore is without effect. A start of a slot that is still linked
  does to the list what the pointer code does. `DmaLedger` says of every step what it changes and returns, and where
  the semaphore count of a channel is at any time. `DmaProgress` follows single transfers through every run, guarded
  or not. `DmaEngine` is the same protocol updated in place over the linked list and arrays; in every state each
  operation is proved to take the protocol's step. `DmaAllocation` is the channel/user allocator specified by sets of
  slots, and below it a plain set of pairs; `DmaDeviceBlock` is the control block with its slot matrix, 32-bit in-use
  mask and early-exit searches, proved to follow that specification. `DmaSystem` runs allocator and protocol together
  over the same slots. `DmaDeviceTable` and `DmaManager` are the reference-counted device table.
- **CAN loopback stack.** `CanQueue` holds the two rings and the history of the receive queue. `CanDevice` is the
  device between API calls as a value, with the invariants and the conservation laws over every run; `CanLoopback` is
  the driver in place (rings, five message buffers, interrupt register, interrupt loop), and each API call is proved
  to start and end quiescent and to do what `CanDevice` says.
- **Touch panel.** `TouchPanel` is the fixed-point scaling with its 16-bit stores, and the calibration formulas.
- **Settings page.** `DottedQuad` is the number scanner, the octet loop and the printing it undoes.

`Bits` gives the bit operators of 32-bit registers, and `Common` what the modules share. The outcome of an OS or driver
call is a parameter, so every result holds for every pattern of failures unless it says otherwise.

## Where the code does less than one would expect

Each of these is a lemma about the code as it is, with the condition under which it happens:

- A synchronous transfer of more than one request, or of none, wakes its caller at the first interrupt while its
  record stays listed; only a count of one is safe, or one behind a transfer that never ends
  (`DmaProgress.SyncCountMustBeOne`, `DmaTransfer.StartInv`).
- A synchronous transfer that the driver refuses keeps the channel semaphore until the channel is reset or acquired
  anew (`DmaProgress.RefusedStartKeepsSemaphore`).
- A reset, or the release of the last slot, while a record is listed, an event posted or a caller waiting breaks the
  protocol (`DmaTransfer.ResetInv`, `DmaTransfer.ReleaseInv`, `DmaTransfer.GuardIsExact`): the next start of the slot
  overwrites its linked record and cuts off everything behind it, or makes the tail its own successor
  (`DmaProgress.RevivedTooEarly`, `DmaProgress.RelinkEffect`), and the transfers cut off are lost
  (`DmaProgress.CutOffIsLost`).
- The STM32 driver replaces the requested hardware channel id. Unless callers name the device id, a repeated acquire
  is not refused but takes another channel (`DmaAllocation.FailedAcquireKeepsSlot`,
  `DmaAllocation.RetriesLeakChannels`).
- An acquire or open that fails half-way keeps its slot or table entry (`DmaAllocation.FailedAcquireKeepsSlot`,
  `DmaDeviceTable.FailedOpenLeavesEntry`), and the 16-bit user count wraps, which takes the device away from 2^16
  users (`DmaDeviceTable.CloseFreesAtOne`, `DmaDeviceTable.WrapLosesDevice`).
- The validity test of the channel release joins its two conditions by "and", so an idle slot can be released; the
  allocator survives it (`DmaAllocation.ReleaseKeepsOk`).
- A put into the receive queue with an overrun status and room left loses the packet
  (`CanQueue.StatusMattersExactly`), and the read that reports an overrun hands out no packet
  (`CanDevice.EachReportedBurstLosesOneMore`).
- A full transmit queue never drains without a restart (`CanDevice.FullQueueIsStuck`), and a request is queued even
  when the driver then reports that the device sleeps or has no free buffer.
- A response is refused as "already assigned" when a free buffer still mentions its identifier
  (`CanDevice.StaleIdIsRefused`).


## Model

| member | source | states |
|---|---|---|
| `DmaTransfer.EveryRunIsSafe` | iar_bsp/os/drivers/dma/dma.c:288-378 | Over every interleaving of transfer starts, interrupts, wake-ups, acquires, releases and resets, with driver refusals anywhere, in which every step meets its guard: in every state there is at most one listed record a channel, the list has an end, the semaphore is 0 whenever a record is listed, an event is posted or a caller waits, and never both event bits of a channel are set |
| `DmaTransfer.GuardIsExact` | iar_bsp/os/drivers/dma/dma.c:225-721 | A step meets its guard if and only if every guarded run that goes on from it has those properties in all its states: each guard is necessary for what an observer sees, not only for the invariant |
| `DmaTransfer.Breaks` | iar_bsp/os/drivers/dma/dma.c:338-376 | For every unguarded step, a guarded run after which the device is not safe: interrupts that post both events of a channel, an acquire of a released channel, or the reset itself |
| `DmaTransfer.RoutingIsExact` | iar_bsp/os/drivers/dma/dma.c:346-376 | Over every guarded run, for every channel: the results its synchronous callers return with are exactly the statuses posted for that channel, in order, followed by what is still posted; nothing is lost, left over, or taken from another channel |
| `DmaTransfer.PostIsExact` | iar_bsp/os/drivers/dma/dma.c:905-921 | The callback sets the completion or error bit of its channel and no bit of any other channel, for all channel indices |
| `DmaTransfer.ConsumeIsExact` | iar_bsp/os/drivers/dma/dma.c:346-348 | A waiter consumes both bits of its channel and no bit of any other |
| `DmaTransfer.InitInv` | iar_bsp/os/drivers/dma/dma.c:157-176 | A freshly opened device satisfies the protocol invariant; its event groups cover every channel index |
| `DmaTransfer.StartInv` | iar_bsp/os/drivers/dma/dma.c:281-344 | A start keeps the protocol invariant if and only if a synchronous one that obtains the semaphore carries one request or stands behind a record that never finishes |
| `DmaTransfer.ReleaseInv` | iar_bsp/os/drivers/dma/dma.c:615-642 | Disabling a slot keeps the protocol invariant if and only if another slot of the channel is enabled or nothing of the channel is listed, awaited or posted |
| `DmaTransfer.ResetInv` | iar_bsp/os/drivers/dma/dma.c:704-717 | A channel reset keeps the protocol invariant if and only if nothing of the channel is listed, awaited or posted, or the reset has no effect |
| `DmaProgress.RevivedTooEarly` | iar_bsp/os/drivers/dma/dma.c:709-717 | A reset, or a release of the last slot and its acquire, while a record of the channel is listed makes the semaphore available with the record still linked; the next start of that slot relinks its own record, or lists the channel a second time if the record is another user's |
| `DmaProgress.RelinkEffect` | iar_bsp/os/drivers/dma/dma_common.c:73-103 | A start of a slot that is still linked overwrites its record in place and cuts off exactly the records behind it, and makes a tail its own successor; every other start appends |
| `DmaProgress.GuardedNeverRelinks` | iar_bsp/os/drivers/dma/dma.c:285-300 | Under the protocol invariant no start finds its own slot linked |
| `DmaProgress.CutOffIsLost` | iar_bsp/os/drivers/dma/dma_common.c:78-95 | An asynchronous transfer whose record is cut off keeps the semaphore in every later run that neither resets nor acquires its channel anew |
| `DmaTransfer.StepInv` | iar_bsp/os/drivers/dma/dma.c:281-378 | Every step keeps the protocol invariant if and only if it meets its guard |
| `DmaLedger.StartOutcome` | iar_bsp/os/drivers/dma/dma.c:243-344 | A start changes the state if and only if it obtains the semaphore, and each of its seven statuses is returned if and only if the request, the enabled slots, the semaphore and the driver are as it says |
| `DmaLedger.CountChanges` | iar_bsp/os/drivers/dma/dma.c:285-289 | For every channel and step: the semaphore count changes only by a start that obtains it, a wake-up or last asynchronous completion of that channel, a creation, a deletion or a reset, and by how much |
| `DmaLedger.MadeChanges` | iar_bsp/os/drivers/dma/dma.c:536-541 | A channel has a semaphore after a step if and only if it had one that was not deleted, or the step enabled the first of its slots and could create it |
| `DmaLedger.SlotChanges` | iar_bsp/os/drivers/dma/dma.c:514-526 | A slot is enabled after a step if and only if it was and is not released, or is acquired |
| `DmaLedger.FurtherUser` | iar_bsp/os/drivers/dma/dma.c:536-541 | A further user of a channel in use changes no semaphore of any channel |
| `DmaLedger.WaiterChanges` | iar_bsp/os/drivers/dma/dma.c:341-348 | For every channel and step: one waiting caller more exactly with an accepted synchronous start, one less exactly with a wake-up |
| `DmaLedger.EventChanges` | iar_bsp/os/drivers/dma/dma.c:905-921 | For every channel, event and step: posted exactly by an interrupt for a synchronous head of the channel with that outcome, consumed exactly by its wake-up |
| `DmaLedger.ListChanges` | iar_bsp/os/drivers/dma/dma_common.c:203-230 | Only a start that obtains a semaphore and an interrupt change the request list; an interrupt changes nothing behind the head |
| `DmaLedger.OtherOutcomes` | iar_bsp/os/drivers/dma/dma.c:346-374 | The status of a wake-up and of a reset, each if and only if its condition holds |
| `DmaLedger.EveryCountIsKept` | iar_bsp/os/drivers/dma/dma.c:288-378 | Over every guarded run the one count of a channel is available, or held by what is listed, awaited or posted, except for what creations, deletions, resets and ends of records of no type did to it |
| `DmaLedger.TimeoutIsBusy` | iar_bsp/os/drivers/dma/dma.c:285-289 | A fit request of a channel that has its count is timed out if and only if something of that channel is listed, awaited or posted |
| `DmaTransfer.AsyncReleaseIsUnlink` | iar_bsp/os/drivers/dma/dma.c:924-937 | An asynchronous completion releases the semaphore exactly when it unlinks the record, which is exactly when one request was left, and touches no event |
| `DmaProgress.AsyncCountdown` | iar_bsp/bsp/iar_stm32f429ii_sk/drivers/dma/dma_tgt.c:1598-1612 | An asynchronous transfer anywhere on the list keeps its place and its semaphore for exactly as many interrupts for its channel as it has requests, in every run that neither resets nor acquires the channel anew nor cuts its record off; the last one unlinks it and returns the semaphore |
| `DmaProgress.NeverFinishes` | iar_bsp/os/include/drivers/dma.h:156-159 | A continuous transfer at the head, and one of zero requests (whose count wraps to it), is at the head after every run in which its own slot is not started anew |
| `DmaProgress.EndlessHead` | iar_bsp/os/drivers/dma/dma.c:293-300 | In one step such a head is overwritten, with everything behind it cut off, if and only if its own slot is started anew |
| `DmaProgress.NeverReturned` | iar_bsp/os/drivers/dma/dma.c:931-936 | An asynchronous one of these stays listed and keeps the semaphore in every run that neither resets nor acquires the channel anew nor cuts its record off |
| `DmaProgress.SyncCountMustBeOne` | iar_bsp/os/drivers/dma/dma.c:341-360 | A synchronous transfer started in any safe state, with any other traffic: once served and woken the semaphore is back, and the record is unlinked and the channel safe if and only if the transfer carried one request; otherwise the next start of the slot relinks the head, and every other record is lost or, if there is none, the list loses its end |
| `DmaProgress.RefusedStartKeepsSemaphore` | iar_bsp/os/drivers/dma/dma.c:338-378 | A synchronous transfer that the driver refuses keeps the semaphore in every later run until a reset or a new acquire of the channel, which returns it; a refused asynchronous one leaves exactly the state of an accepted one, which `AsyncCountdown` describes |
| `DmaProgress.DeadUntilRevived` | iar_bsp/os/drivers/dma/dma.c:288-378 | A channel with no semaphore, no waiter and no asynchronous record stays so in every run, guarded or not, that neither resets nor acquires it anew |
| `DmaProgress.DeadStep` | iar_bsp/os/drivers/dma/dma.c:709-717 | On such a channel a step makes the semaphore available if and only if it is a reset of an enabled slot or the creation of the semaphore |
| `DmaRequestList.RequestList.Add` | iar_bsp/os/drivers/dma/dma_common.c:73-103 | On every list, looped or not: appends a new record and opens a loop; linking a linked record cuts off exactly the records behind it, and makes the tail its own successor; `last` stays the true tail |
| `DmaRequestList.RequestList.Remove` | iar_bsp/os/drivers/dma/dma_common.c:126-180 | Deletes exactly the first record with the id, keeps the order of the rest, returns it or null, and leaves a true tail although removing the head never updates it; the only record of a looped list stays |
| `DmaRequestList.RequestList.TransComplete` | iar_bsp/os/drivers/dma/dma_common.c:203-230 | Which record is notified and whether it is unlinked; without a loop the head is notified and unlinked together exactly when it has no request left and carries the id |
| `DmaEngine.TransferEngine.constructor` | iar_bsp/os/drivers/dma/dma.c:157-176 | A freshly opened device, with a control block for every slot, is the initial protocol state |
| `DmaEngine.TransferEngine.Acquire` | iar_bsp/os/drivers/dma/dma.c:514-541 | The in-place step of enabling a slot, with the invariant kept |
| `DmaEngine.TransferEngine.Release` | iar_bsp/os/drivers/dma/dma.c:615-642 | The in-place step of disabling a slot, safe afterwards if and only if the channel keeps a slot or is idle |
| `DmaEngine.TransferEngine.Reset` | iar_bsp/os/drivers/dma/dma.c:704-717 | The in-place reset, safe afterwards if and only if it has no effect or the channel is idle |
| `DmaEngine.TransferEngine.Start` | iar_bsp/os/drivers/dma/dma.c:225-344 | In every state, also with its control block still linked: the in-place start over the linked list takes exactly the protocol step; from a safe state it leaves a safe one if and only if its guard holds |
| `DmaEngine.TransferEngine.ListRequest` | iar_bsp/os/drivers/dma/dma_common.c:73-103 | Storing the request and linking the control block is the list effect of the protocol, appended or relinked |
| `DmaEngine.TransferEngine.Interrupt` | iar_bsp/bsp/iar_stm32f429ii_sk/drivers/dma/dma_tgt.c:1595-1612 | In every state, for a completion that names the head of the list: the in-place interrupt takes exactly the protocol step and keeps the invariant |
| `DmaEngine.TransferEngine.Callback` | iar_bsp/os/drivers/dma/dma.c:888-945 | Event for a synchronous request, semaphore for the last of an asynchronous one, nothing else |
| `DmaEngine.TransferEngine.Wake` | iar_bsp/os/drivers/dma/dma.c:346-374 | In every state the in-place wake-up takes exactly the protocol step, returns its status and keeps the invariant |
| `DmaAllocation.EveryRunIsConsistent` | iar_bsp/os/drivers/dma/dma.c:438-533 | Over every run of acquires and releases, with failing semaphore and driver calls, repeated releases and drivers that rewrite ids: in every state slots of a channel share one hardware id, different channels have different ids, and no (hardware channel, peripheral) pair is held twice, if and only if every grant leaves the requested id, or a new one on a fresh channel |
| `DmaAllocation.AcquireRefinesSimple` | iar_bsp/os/drivers/dma/dma.c:438-511 | On a consistent table the slot search answers exactly as membership and cardinality in a plain set of (hardware channel, peripheral) pairs do, and a grant adds exactly the pair with the id left in the slot |
| `DmaAllocation.ReleaseRefinesSimple` | iar_bsp/os/drivers/dma/dma.c:615-642 | A release removes exactly the pair of its slot; releasing an idle slot changes no owner |
| `DmaAllocation.GrantKeepsOk` | iar_bsp/os/drivers/dma/dma.c:514-555 | A grant keeps the table consistent if and only if the id left in the slot is the requested one, or is new on a fresh channel |
| `DmaAllocation.ReleaseKeepsOk` | iar_bsp/os/drivers/dma/dma.c:609-642 | Releasing any slot, held or idle, keeps the table consistent |
| `DmaAllocation.SlotIsFresh` | iar_bsp/os/drivers/dma/dma.c:473-511 | On every table the slot chosen is free and in range: the first free one of the lowest channel serving the id if there is one, and otherwise slot 0 of the lowest unused channel |
| `DmaAllocation.AcquireIsExact` | iar_bsp/os/drivers/dma/dma.c:473-555 | A refused acquire changes nothing; a granted one changes exactly its slot, and the semaphore of a fresh channel; what is stored in the slot |
| `DmaAllocation.ReleaseIsExact` | iar_bsp/os/drivers/dma/dma.c:615-642 | A release frees exactly its slot, and deletes the semaphore of its channel if and only if no other slot of the channel is held |
| `DmaAllocation.OneChannelDecides` | iar_bsp/os/drivers/dma/dma.c:439-472 | On a consistent table the lowest channel serving the id decides as a scan of every slot would |
| `DmaAllocation.StepKeepsOk` | iar_bsp/os/drivers/dma/dma.c:438-555 | One acquire or release keeps the table consistent if and only if it meets its guard |
| `DmaAllocation.SemaphoresFollowChannels` | iar_bsp/os/drivers/dma/dma.c:537-541 | Over every run the channels with a semaphore are channels in use, and exactly those while semaphore creation succeeds |
| `DmaAllocation.AcquireThenRelease` | iar_bsp/os/drivers/dma/dma.c:580-642 | Releasing what was just granted restores owners and semaphores, whatever the OS and the driver did |
| `DmaAllocation.FailedAcquireKeepsSlot` | iar_bsp/os/drivers/dma/dma.c:536-555 | After a grant, with the OS or driver call successful or failed, the slot is held, and the same acquire again is refused as already open if and only if the requested id was left in the slot |
| `DmaAllocation.RetriesLeakChannels` | iar_bsp/bsp/iar_stm32f429ii_sk/drivers/dma/dma_tgt.c:1285-1308 | On every table the STM32 driver left, with an id other than the device id: one and the same acquire, repeated, takes one channel more each time until the device is full, and the table is inconsistent once two channels are taken |
| `DmaAllocation.LeakStep` | iar_bsp/bsp/iar_stm32f429ii_sk/drivers/dma/dma_tgt.c:1285-1290 | Each such acquire, also after a failed semaphore creation, is granted an unused channel if and only if there is one |
| `DmaAllocation.RewritingDriverRuns` | iar_bsp/bsp/iar_stm32f429ii_sk/drivers/dma/dma_tgt.c:1285-1290 | Over every run through that driver, with failures anywhere: only channels whose semaphore could not be created carry another id than the device id, none does while creation succeeds or callers ask for the device id, and the table stays consistent while they do |
| `DmaAllocation.OneIdTable` | iar_bsp/bsp/iar_stm32f429ii_sk/drivers/dma/dma_tgt.c:1285-1290 | A table with one id only is consistent if and only if all its slots are on one channel and no peripheral occurs twice |
| `DmaSystem.EverySystemRun` | iar_bsp/os/drivers/dma/dma.c:225-721 | Over every run of acquire, release, reset, transfer, interrupt and wake-up on the same slots in which every call meets its guard, the slot table is consistent and the transfer protocol safe in every state |
| `DmaSystem.GuardIsExact` | iar_bsp/os/drivers/dma/dma.c:225-721 | A call meets its guard if and only if every guarded run that goes on from it is safe in all its states; for an ill-timed release the run fills the channels below the released one with acquires |
| `DmaSystem.StepInv` | iar_bsp/os/drivers/dma/dma.c:413-721 | One such call keeps both invariants if and only if it meets its guard |
| `DmaSystem.StepLinked` | iar_bsp/os/drivers/dma/dma.c:514-642 | Slot table and protocol state agree on enabled slots and existing semaphores after every call |
| `DmaSystem.OpenedInv` | iar_bsp/os/drivers/dma/dma.c:157-176 | A freshly opened device satisfies both invariants |
| `DmaDeviceBlock.UnpackPack` | iar_bsp/os/drivers/dma/dma.c:529-529 | The handle decoders undo the packing and the packed handle passes the signature test |
| `DmaDeviceBlock.PackUnpack` | iar_bsp/os/include/drivers/dma.h:93-109 | Only packed triples pass the signature test |
| `DmaDeviceBlock.HandleRoundTrip` | iar_bsp/os/drivers/dma/dma.c:529-529 | Decoding the handle of a grant and releasing what it names restores the table |
| `DmaDeviceBlock.DmaDevice.constructor` | iar_bsp/os/drivers/dma/dma.c:157-166 | A cleared control block with one user, no slot held and an empty mask |
| `DmaDeviceBlock.DmaDevice.FindChannel` | iar_bsp/os/drivers/dma/dma.c:439-472 | The early-exit scan over the mask finds the lowest channel serving the id, on every table with an exact mask, and its verdict on that channel |
| `DmaDeviceBlock.DmaDevice.ChooseSlot` | iar_bsp/os/drivers/dma/dma.c:438-511 | Each of the five outcomes if and only if its condition holds, and the slot of the specification, on every table with an exact mask |
| `DmaDeviceBlock.DmaDevice.FillSlot` | iar_bsp/os/drivers/dma/dma.c:514-555 | New owners, mask, semaphores, handle and status after the slot is filled |
| `DmaDeviceBlock.DmaDevice.AcquireChannel` | iar_bsp/os/drivers/dma/dma.c:413-558 | On every table, consistent or not, and for every outcome of the OS and driver calls: the mask bit is set exactly for channels with an enabled slot; new table, verdict and handle are those of the specification; consistency is kept if and only if the guard holds |
| `DmaDeviceBlock.DmaDevice.Vacate` | iar_bsp/os/drivers/dma/dma.c:618-637 | Frees the slot and clears the mask bit exactly when no user is left |
| `DmaDeviceBlock.DmaDevice.ReleaseChannel` | iar_bsp/os/drivers/dma/dma.c:580-654 | The release specification on the slot a handle of this device names, held or idle, on every table, with the mask kept exact and consistency not lost, and the status for every outcome |
| `DmaDeviceBlock.DmaDevice.DeleteSemaphores` | iar_bsp/os/drivers/dma/dma.c:779-797 | The bit-clearing loop ends for every 32-bit mask, deletes exactly the semaphores of the channels in use, and fails exactly when one is missing, with those above the first missing one kept |
| `DmaDeviceTable.EveryRunCounts` | iar_bsp/os/drivers/dma/dma.c:103-189 | Over every run of opens and closes with failures anywhere: at most one entry a device id, and every user count is opens minus closes (plus one for a half-made entry) modulo 2^16 |
| `DmaDeviceTable.OpenOutcome` | iar_bsp/os/drivers/dma/dma.c:103-189 | Each status of an open if and only if its condition holds; only the entry of the device, or the first free one, changes |
| `DmaDeviceTable.CloseOutcome` | iar_bsp/os/drivers/dma/dma.c:747-829 | Each status of a close if and only if its condition holds; only the entry of the block changes, and it goes exactly with a count of 1 |
| `DmaDeviceTable.LiveWhileUsed` | iar_bsp/os/drivers/dma/dma.c:756-809 | Over every run in which no device gathers 2^16 users: an entry is live if and only if its users are positive, and they are never negative |
| `DmaDeviceTable.CloseFreesAtOne` | iar_bsp/os/drivers/dma/dma.c:757-757 | A close frees the device if and only if its users are 1 modulo 2^16 |
| `DmaDeviceTable.WrapLosesDevice` | iar_bsp/os/drivers/dma/dma.c:757-811 | On any table with a free place, 2^16 + 1 opens and one close leave 2^16 users of a device that is gone |
| `DmaDeviceTable.FailedOpenLeavesEntry` | iar_bsp/os/drivers/dma/dma.c:124-186 | A failed open changes the table if and only if the id is not open, a place is free and the failure comes after the allocation |
| `DmaDeviceTable.LeftEntryStays` | iar_bsp/os/drivers/dma/dma.c:143-186 | The entry such an open leaves is not removed by any later run in which closes do not outnumber opens |
| `DmaManager.Manager.Open` | iar_bsp/os/drivers/dma/dma.c:86-195 | The in-place open makes exactly the step of the counted table, with its status; a new device has no slot held, and the slots of all others, and every mask, stay exact and unchanged |
| `DmaManager.Manager.Close` | iar_bsp/os/drivers/dma/dma.c:743-830 | The in-place close makes exactly the step of the counted table; the last close deletes exactly the semaphores of the channels with an enabled slot; its status for every outcome of the OS calls; all other devices are unchanged |
| `DmaManager.Manager.AcquireChannel` | iar_bsp/os/drivers/dma/dma.c:426-558 | An unknown device is refused; otherwise the acquire specification on that device, and a handle that leads back to the device and the slot; all other devices are unchanged |
| `DmaManager.Manager.ReleaseChannel` | iar_bsp/os/drivers/dma/dma.c:580-654 | The release specification and status on the device and slot the handle names; all other devices are unchanged |
| `CanQueue.Ring.constructor` | iar_bsp/os/connectivity/can/can_init.c:342-372 | On a cleared control block a started ring is empty with no error |
| `CanQueue.Ring.Restart` | iar_bsp/os/connectivity/can/can_init.c:342-372 | A later start empties the ring and keeps the error of before |
| `CanQueue.Ring.PutTx` | iar_bsp/os/connectivity/can/cqm.c:248-282 | Appends, or rejects and changes nothing if and only if full |
| `CanQueue.Ring.GetTx` | iar_bsp/os/connectivity/can/cqm.c:311-343 | Takes the oldest packet, or reports empty |
| `CanQueue.Ring.PutRx` | iar_bsp/os/connectivity/can/cqm.c:161-220 | Bounded queue that replaces its newest entry when full, with the overrun kept; whole queue and status, for every status on entry |
| `CanQueue.Ring.GetRx` | iar_bsp/os/connectivity/can/cqm.c:93-131 | Takes the oldest packet, hands out and clears the kept error, or reports empty and leaves the caller's packet alone |
| `CanQueue.Ring.WriteIsModular` | iar_bsp/os/connectivity/can/cqm.c:93-343 | write = (read + count) mod size in every valid state |
| `CanQueue.StatusMattersExactly` | iar_bsp/os/connectivity/can/cqm.c:199-199 | The status on entry changes what is stored if and only if it is an overrun and the queue has room |
| `CanQueue.RxOutcome` | iar_bsp/os/connectivity/can/cqm.c:119-129 | The statuses of a put and of a get on every queue |
| `CanQueue.EveryRxRun` | iar_bsp/os/connectivity/can/cqm.c:93-220 | Over every run of puts, gets and restarts: packets that were not overwritten leave in order, each once, the rest is still queued, and every read reports an overrun exactly when one happened since the read before |
| `CanQueue.Accounting` | iar_bsp/os/connectivity/can/cqm.c:98-129 | Over every run: puts = packets read + packets queued + overwrites + packets dropped by a put that was called with an overrun + packets discarded by restarts |
| `CanQueue.BurstsReportedOnce` | iar_bsp/os/connectivity/can/cqm.c:112-122 | Every burst of overruns is reported by exactly one read, or is the one still unreported |
| `CanDevice.EveryRunConserves` | iar_bsp/os/connectivity/can/can_loopback.c:189-262 | Over every run of API calls and restarts: accepted packets = packets handed over or lost in a restart + queued, in order; the packets put into the receive queue are those in its history, none dropped; packets not overwritten = packets read or discarded + queued; and the device invariant holds at the end |
| `CanDevice.EachReportedBurstLosesOneMore` | iar_bsp/os/connectivity/can/canc.c:136-156 | Over every run: packets taken off the receive queue = packets returned to callers + overrun bursts reported, since the read that reports one returns no packet |
| `CanDevice.ReceiveOutcome` | iar_bsp/os/connectivity/can/canc.c:112-156 | Each status of a read if and only if its condition holds, and what it does to the device |
| `CanDevice.ModeOverRuns` | iar_bsp/os/connectivity/can/can_loopback.c:599-638 | Over every run only sleep, wake-up, shutdown and restart decide whether the device is started and asleep |
| `CanDevice.SleepOutcome` | iar_bsp/os/connectivity/can/canc.c:295-305 | Sleep and wake-up are refused exactly while the device is not started, and change nothing but the sleep flag |
| `CanDevice.ShutdownStops` | iar_bsp/os/connectivity/can/can_loopback.c:562-577 | After a shutdown nothing responds, every buffer is free, the queues are kept, and every message call is refused |
| `CanDevice.ApplyInv` | iar_bsp/os/connectivity/can/iso11898.c:456-526 | Every API call keeps: identifiers within 11 or 29 bits and at most 8 bytes in both queues and all buffers, received packets are data, responses have distinct identifiers |
| `CanDevice.Check` | iar_bsp/os/connectivity/can/iso11898.c:456-526 | Success if and only if the device is initialised and the message is present and well formed; only an overlong message is changed, and then clipped to a well formed one |
| `CanDevice.CheckOutcome` | iar_bsp/os/connectivity/can/iso11898.c:456-526 | Each of the six answers of the parameter check if and only if its condition holds |
| `CanDevice.RequestOutcome` | iar_bsp/os/connectivity/can/can_loopback.c:189-269 | The answer of the check, QueueFull, DevSleeping, NoFreeMb and Success, each if and only if queue, sleep flag and buffers are so; a request is handed over exactly when the device is started, awake and has a buffer that is not assigned |
| `CanDevice.RequestEffect` | iar_bsp/os/connectivity/can/can_loopback.c:195-241 | A request that is not queued changes nothing; one that is queued on a device that is not ready changes the transmit queue only; otherwise the oldest packet goes through the lowest free buffer and no other buffer changes |
| `CanDevice.ReadyHandsOver` | iar_bsp/os/connectivity/can/can_loopback.c:189-262 | Over every run without a restart in which every accepted request finds the device awake with a free buffer, one packet is handed over for each |
| `CanDevice.DeliveredIsTheResponse` | iar_bsp/os/connectivity/can/can_loopback.c:828-920 | A data packet delivers itself; a remote request delivers exactly the response assigned to its identifier, as data, or nothing if and only if there is none |
| `CanDevice.AssignedIsDelivered` | iar_bsp/os/connectivity/can/can_loopback.c:352-357 | After an assignment and every run that neither clears the identifier nor shuts the device down, a remote request for it that is handed over puts exactly the message assigned, as data, with length and bytes |
| `CanDevice.BacklogOnlyGrows` | iar_bsp/os/connectivity/can/can_loopback.c:189-262 | Over every run without a restart the transmit backlog grows by exactly the requests accepted while the device slept or had no free buffer; nothing shrinks it |
| `CanDevice.FullQueueIsStuck` | iar_bsp/os/connectivity/can/iso11898.c:153-160 | A full transmit queue stays exactly as it is in every later run until a restart, which loses all of it, and nothing is accepted or handed over |
| `CanDevice.SleepCanStick` | iar_bsp/os/connectivity/can/can_loopback.c:599-638 | Sleeping through as many requests as the queue holds leaves an awake device with free buffers that is stuck until a restart |
| `CanDevice.ClearRemovesTheResponse` | iar_bsp/os/connectivity/can/can_loopback.c:415-450 | At most one buffer responds to an identifier; a clear succeeds if and only if there is one, removes it and no other response, frees its buffer, and a second clear finds none |
| `CanDevice.AssignThenClear` | iar_bsp/os/connectivity/can/can_loopback.c:312-366 | An assignment succeeds if and only if no buffer mentions the identifier and one is free; clearing it restores the set of free buffers |
| `CanDevice.AssignOutcome` | iar_bsp/os/connectivity/can/can_loopback.c:312-374 | Each status of an assignment if and only if its condition holds; only the lowest free buffer changes |
| `CanDevice.ClearOutcome` | iar_bsp/os/connectivity/can/can_loopback.c:415-458 | Each status of a clear if and only if its condition holds; only the buffer of the response changes, and the identifier is mentioned afterwards if and only if it is 0 or a free buffer mentions it |
| `CanDevice.StaleIdIsRefused` | iar_bsp/os/connectivity/can/can_loopback.c:315-329 | An identifier is refused although nothing responds to it if and only if only free buffers mention it; identifier 0 on a fresh device is an instance |
| `CanDevice.TransmittedIdIsRefused` | iar_bsp/os/connectivity/can/can_loopback.c:228-241 | A packet just transmitted blocks a response to its own identifier |
| `CanDevice.RequestsKeepResponses` | iar_bsp/os/connectivity/can/can_loopback.c:189-262 | A request uses up no buffer and leaves every assigned response as it is |
| `CanLoopback.Loopback.constructor` | iar_bsp/os/connectivity/can/can_init.c:342-372 | The opened device is quiescent and is the start state |
| `CanLoopback.Loopback.Isr` | iar_bsp/os/connectivity/can/can_loopback.c:694-927 | For every register naming buffers with a pending transmission: terminates with the register 0 and all flags clear, feeds the receive queue with what the pending buffers deliver in buffer order, drops none although one status variable is reused, and leaves buffers' packets and the transmit queue alone |
| `CanLoopback.Loopback.ServeBuffer` | iar_bsp/os/connectivity/can/can_loopback.c:731-924 | A pending buffer becomes quiet and free, other buffers are untouched, and exactly its delivery is put |
| `CanLoopback.Loopback.ReceiveOne` | iar_bsp/os/connectivity/can/can_loopback.c:817-817 | An overrun status left from an earlier put implies a full queue, so the packet is never dropped |
| `CanLoopback.Loopback.WriteDriver` | iar_bsp/os/connectivity/can/can_loopback.c:174-273 | From quiescent to quiescent, the transmission of the device model, with its status in every case |
| `CanLoopback.Loopback.CheckParameters` | iar_bsp/os/connectivity/can/iso11898.c:456-526 | The nested checks yield the status and the clipped message of the specification |
| `CanLoopback.Loopback.SendRequest` | iar_bsp/os/connectivity/can/iso11898.c:117-167 | Data and remote request: quiescent before and after, exactly the request of the device model, and the caller's packet afterwards |
| `CanLoopback.Loopback.AssignRtrBuf` | iar_bsp/os/connectivity/can/can_loopback.c:302-378 | The two searches assign the first free buffer exactly when no buffer mentions the identifier |
| `CanLoopback.Loopback.ReleaseRtrBuf` | iar_bsp/os/connectivity/can/can_loopback.c:405-462 | The first response to the identifier is taken back, its identifier zeroed, or none is found |
| `CanLoopback.Loopback.AssignRemote` | iar_bsp/os/connectivity/can/iso11898.c:311-346 | Quiescent before and after, exactly the assignment of the device model |
| `CanLoopback.Loopback.ClearRemote` | iar_bsp/os/connectivity/can/iso11898.c:383-415 | Quiescent before and after, exactly the clear of the device model; an overlong message is tolerated |
| `CanLoopback.Loopback.ReceiveData` | iar_bsp/os/connectivity/can/canc.c:100-163 | Exactly the read of the device model; the packet is copied out if and only if the status is success |
| `CanLoopback.Loopback.SetSleep` | iar_bsp/os/connectivity/can/can_loopback.c:599-638 | Only the sleep flag changes, and only on an initialised device |
| `CanLoopback.Loopback.Shutdown` | iar_bsp/os/connectivity/can/can_loopback.c:553-578 | Every buffer is cleared; queues and sleep flag survive |
| `CanLoopback.Loopback.Restart` | iar_bsp/os/connectivity/can/can_init.c:342-386 | A further start empties both rings and leaves the kept error, the buffers and the sleep flag alone: exactly the restart of the device model |
| `TouchPanel.RoundTripExactly` | iar_bsp/os/drivers/touchpanel/touchpanel.c:395-405 | For every 16-bit slope other than 0, coordinate and intercept: setting a position and reading it back stays within ceil((abs(m)-1)/128) pixels and never past the original, if and only if the wraps of the stored reading times the slope are a multiple of 128 |
| `TouchPanel.PosThenEncode` | iar_bsp/os/drivers/touchpanel/touchpanel.c:351-405 | Under that condition, and for limits around the coordinate, the clamped result is within the limits and within the same bound |
| `TouchPanel.LimitsAreNearest` | iar_bsp/os/drivers/touchpanel/touchpanel.c:351-377 | Both routines end at the coordinate within the limits that is nearest |
| `TouchPanel.CrossedLimits` | iar_bsp/os/drivers/touchpanel/touchpanel.c:460-476 | What each routine does when the lower limit is above the upper |
| `TouchPanel.ScalingIsLinear` | iar_bsp/os/drivers/touchpanel/touchpanel.c:440-443 | A reading misses 128 (x - b) = raw m by less than the slope, and a coordinate by less than 128, rounded down |
| `TouchPanel.RawFits` | iar_bsp/os/drivers/touchpanel/touchpanel.c:395-405 | The reading survives its 16-bit store if and only if the scaled distance is in range |
| `TouchPanel.InRangeNeverWraps` | iar_bsp/os/drivers/touchpanel/touchpanel.c:395-405 | The reading does not wrap if and only if the scaled distance from the intercept is in range |
| `TouchPanel.RoundTrip` | iar_bsp/os/drivers/touchpanel/touchpanel.c:440-443 | The error bound of the two conversions before the 16-bit stores, for every coordinate and slope |
| `TouchPanel.WrappedReading` | iar_bsp/os/drivers/touchpanel/touchpanel.c:395-405 | A wrap that matters (slope 1, coordinate 256) and one that cancels (slope 128) |
| `TouchPanel.Panel.Pos` | iar_bsp/os/drivers/touchpanel/touchpanel.c:341-408 | Both readings from the clamped event position; a zero slope leaves the reading |
| `TouchPanel.Panel.Encode` | iar_bsp/os/drivers/touchpanel/touchpanel.c:430-497 | Both coordinates are the clamped conversions, and a move is marked exactly when no event was pending and the position changed |
| `TouchPanel.Panel.Calibrate` | iar_bsp/os/drivers/touchpanel/calibration.c:228-235 | Slope and intercept of each axis, whichever way it runs; the far reading is then converted to its box centre if and only if the centre is a 16-bit number, and the near reading to within 2 + (abs(m) + abs(D))/128 pixels of its own if slope and conversion fit |
| `TouchPanel.CalibrationError` | iar_bsp/os/drivers/touchpanel/calibration.c:228-235 | On either axis the averaged far reading maps exactly to its box centre and the near one to within 2 + max(m, D)/128 pixels of its own |
| `TouchPanel.NearIsBoundedEitherWay` | iar_bsp/os/drivers/touchpanel/calibration.c:228-235 | For every non-zero raw span and a slope of either sign, the near reading is converted to within 2 + (abs(m) + abs(D))/128 pixels of its box centre |
| `TouchPanel.StoredFarIsExact` | iar_bsp/os/drivers/touchpanel/calibration.c:230-231 | With 16-bit stores the far reading is converted to its box centre if and only if the centre is a 16-bit number, even when slope or intercept wrapped |
| `TouchPanel.StoredNearIsBounded` | iar_bsp/os/drivers/touchpanel/calibration.c:228-231 | With 16-bit stores the near reading keeps its bound when slope and conversion fit |
| `DottedQuad.Atoi` | eth_spi_bridge/src/eth_spi_bridge.c:485-498 | Value and length of the leading digit run, both modulo 256, for every text |
| `DottedQuad.ParseOctets` | eth_spi_bridge/src/eth_spi_bridge.c:417-421 | The loop over any text is the octet specification, including running out of bounds |
| `DottedQuad.EveryField` | eth_spi_bridge/src/eth_spi_bridge.c:417-432 | Any digit runs of fewer than 256 digits with any separators: their values modulo 256, in order |
| `DottedQuad.DottedRoundTrip` | eth_spi_bridge/src/eth_spi_bridge.c:293-296 | Reading a printed address gives back exactly the bytes printed |
| `DottedQuad.InBoundsExactly` | eth_spi_bridge/src/eth_spi_bridge.c:417-421 | For every text: the pointer stays inside it if and only if it has a move for each octet but the last, one a separator and one for every 256 digits of a run |
| `DottedQuad.MovesAreSeparators` | eth_spi_bridge/src/eth_spi_bridge.c:485-498 | Without a run of 256 digits these moves are the separators |
| `DottedQuad.ValueOfDecimal` | eth_spi_bridge/src/eth_spi_bridge.c:293-296 | The decimal text of a number has that value |
| `DottedQuad.DecimalIsCanonical` | eth_spi_bridge/src/eth_spi_bridge.c:293-296 | The decimal text of a number is the only text of digits without a leading zero that has the value |
| `DottedQuad.NoLeadingZero` | eth_spi_bridge/src/eth_spi_bridge.c:293-296 | The decimal text of a number has no leading zero |
| `DottedQuad.FourOctets` | eth_spi_bridge/src/eth_spi_bridge.c:293-296 | An address is printed as its four numbers with a dot between them |

## Left out

- DmaEngine.TransferEngine.Interrupt: requires that a completion which ends the head's transfer names the head's hardware id, as it does when every slot carries the device id; what another id does is in the contract of `DmaRequestList.RequestList.TransComplete`.
- DmaRequestList.RequestList.Remove: on a looped list the id must be on the list, since the search does not end otherwise.
- DmaDeviceBlock.DmaDevice.ReleaseChannel: a handle with a valid signature must name this device and existing indices, since the source dereferences null or runs out of bounds otherwise.
- DmaManager.Manager.ReleaseChannel: the same for the device a handle names, which must be open.
- DmaManager.Manager.AcquireChannel: a null device handle must not find a free place, since the source then dereferences it.
- CanLoopback.Loopback.SendRequest: a message that passes the check must carry device index 0, by which the source then indexes a table of one entry without a check of its own.
- CanLoopback.Loopback.AssignRemote: the same device index.
- CanLoopback.Loopback.ClearRemote: the same device index.
- TouchPanel.Panel.Calibrate: two equal averaged readings divide by zero in the source and are excluded; screen sizes and sums of readings are taken before any `int` overflow.
- Registers are natural numbers read bit by bit, kept below 2^32, instead of machine words.
- A channel slot is a value in the slot matrix of `DmaDeviceBlock` and a list node in `DmaRequestList`; that both are the same memory is not captured, only, in `DmaSystem`, that they are the same slots.
- A caller blocked on a semaphore that is reset or deleted gets an error from the OS; such callers have no state here. A start that waited may name any slot, enabled or not, which covers every caller whose slot was released while it waited.
- Two control blocks are told apart by an allocation number, so reuse of a freed address as a new handle is not captured.
- The signature and device checks at the start of a transfer, request contents, user callbacks and cache maintenance: easy members around the protocol.
- Interrupt and power-management registration, and the stream set-up of the target driver.
- An empty list at an interrupt, which the source dereferences.
- CAN: user callbacks and confirmations of `can_handler.c`, the confirmation buffer, baud rate, acceptance mask, several ports, and builds with parameter checking, remote requests or automatic responses switched off.
- CAN: nesting of interrupts into API calls; the loopback driver calls its interrupt routine directly.
- Touch panel: adjustment callbacks, the keyboard state word, the input callback, drawing and the calibration event loop.
- Web pages and plug-ins, token lookup, interface ioctls, board and peripheral set-up, the system logger, and the USB, I2C, SPI and OpenSSL headers.
