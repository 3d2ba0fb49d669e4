# Verified models of the BK7258 driver cores

This project models ten pieces of state-carrying C from the BK7258 port and proves what they keep over
every run. Each piece is either a heap class whose methods are proved against a specification function, or,
where tasks, interrupts, cores or the DMA interleave, a machine whose steps are single statements.

| files | models |
|---|---|
| `common.dfy` | an optional value and the status of a HAL call |
| `eth_tx*.dfy`, `ring_index.dfy`, `pointer_table.dfy` | the Ethernet transmit ring: laying buffer chains out over descriptors, handing them to the DMA, releasing packets, re-initialising |
| `eth_rx*.dfy` | the Ethernet receive ring: linking completed descriptors into packets, rebuilding descriptors while allocation may fail, where the DMA writes, and the chained packet buffers |
| `ipc_*.dfy` | the Wi-Fi IPC transmit pipeline: one task, one completion interrupt, a flag and a list |
| `co_list.dfy` | the intrusive singly linked list, refined to a sequence |
| `crash_lock*.dfy` | the crash-dump lock: a spin lock of two application cores inside a Peterson lock against the communication core |
| `event_flags.dfy` | event flags with any number of setters and one waiter |
| `hisr*.dfy` | the high-level interrupt dispatcher: its bitmap and table, its wakeups, and registration without a lock, each call taken apart into statements |
| `mac_record.dfy`, `mac_log.dfy` | CRC-8 protected MAC records and the append-only flash log |
| `audio_ring.dfy` | the audio ring buffer in software mode |
| `rtc_counter.dfy` | the 64-bit RTC counter read through two 32-bit registers |

## Conventions

- Pointers to packets and buffers are numbers, 0 standing for NULL.
- The DMA, the mailbox, the allocator, the flash and the clock are inputs: each theorem holds for whatever they do.
  The transmit DMA may only touch a descriptor that it owns, in any order except in `EthTxUse`; the receive DMA
  completes descriptors in ring order.
- Driver calls on one Ethernet ring are serialised, with DMA steps anywhere between them.
- Interleavings are over sequentially consistent memory. Critical sections are single steps; code outside them is taken
  statement by statement wherever another party can interfere.
- The communication core's half of the crash lock is not in the repository. It is taken to be the mirror image of
  the application side, as the design text at `trap_base_smp.c` line 330 says, and to run on one core.
- Stopping the other application core takes effect at once, except in `CrashLockPeer`, where it takes effect late or never.
- Flag words of the event flags are sets of bit numbers.
- The semaphores of the event flags and of the dispatcher saturate at any limit of at least one.

## Where the code does less than it seems to promise

Each of these has a run or call that shows the failure and a condition that is necessary and sufficient.

| failure | condition | shown by |
|---|---|---|
| a refused transmit clears FD on a packet in flight | `RefusalHarmsInFlightIff` | `RefusalHarmsInFlightWitness` |
| packets are not freed in sending order | `RunFifoIff`, `SendLastIff`, `SendOrderIff`, `RestartOrderIff` | `UnguardedReorders` |
| the release loop's mask leaves the ring's order | `MaskIsNextIff`, `MaskedReleaseIff` | `MaskAstray`, for every size that is not a power of two |
| the DMA writes to a status word instead of a buffer | `RunAimedIff` | `OrphanKeepsStatusAddress` |
| the IPC task stops at its own assertion | `HaltIff` | `HaltWitness` |
| a failed IPC send leaves items behind | `FailedSendStrandsIff` | `FailedSendWitness` |
| a rejected IPC retry leaves items behind | `RejectedRetryStrandsIff` | `RejectedRetryWitness` |
| removing a list element without its predecessor drops what precedes it | `RemoveFrontIff` | the same lemma, for every element that is not first |
| two cores dump at once after both found the shared region invalid | `ExclusiveIff` | `InvalidBreaks`, for every invalid region |
| two application cores dump at once when the peer does not stop | `ExclusiveAnyStopIff` | `BrokenGuardBreaks`, for every pair of broken guard words |
| a dump in a region with a broken guard word is reported by neither query, which the comment there promises | `QueriesRightIff` | `FallbackUnseen` |
| a status word left over from an earlier crash locks the application cores out | `StaleWantIff` | `LockedOut`, for every such region |
| the elapsed time of an event wait is wrong | `ElapsedRightIff` | `WrapEndsWaitEarly` |
| the dispatcher follows a missing table entry | `RunSafeIff`, `SetSafeIff` | `MissingWitness`, `ReregisterWitness` |
| two ids share a handler | `Hisr.Dispatcher.Enter` | `SharedHandlerWitness` |
| a torn MAC record is accepted | `TornAcceptedIff` | `TornAcceptedWitness` |
| a synchronisation reports success and log and memory disagree | `SyncConvergesIff` | `FullSyncWitness`, `FailedFlashWitness` |
| a second synchronisation changes the log again | `SyncTwiceIff` | `FailedFlashWitness` |
| an audio write makes the whole buffer look empty | `Apply` | `FullWriteWitness` |

Registrations of interrupts that overlap can also take the same id (`OverlapWitness`); those that do not overlap never
do (`RunFound`). No packet is freed while the DMA owns a descriptor that carries it, as long as the DMA finishes
descriptors in ring order (`RunNoUseAfterFree`); out of order it can be (`OutOfOrderWitness`). The comment at `mac.c`
line 233 promises 51 backups, and the scan offers 50 slots (`RunCapacity`).

## Model

| member | source | states |
|---|---|---|
| `RingIndex.MaskIsNextIff` | chips/drivers/eth/eth_mac.c:1543 | the release loop's mask steps to the same slot as the increment macro, for every slot, if and only if the ring size is a power of two |
| `EthTx.TxRing.constructor` | chips/drivers/eth/eth_mac.c:3253-3282 | a new ring is blank: no OWN bit, no packet, all indices zero |
| `EthTx.TxRing.Prepare` | chips/drivers/eth/eth_mac.c:3422-3719 | succeeds exactly when the packet's descriptors fit the free run at CurTxDesc, and leaves exactly the accepted or the rejected ring |
| `EthTx.TxRing.LayOut` | chips/drivers/eth/eth_mac.c:3522-3688 | either all descriptors of the chain are filled in order, or the fill met a busy descriptor and everything filled is handed back |
| `EthTx.TxRing.Rollback` | chips/drivers/eth/eth_mac.c:3613-3628 | OWN is taken back from exactly the descriptors that were filled |
| `EthTx.TxRing.TransmitIT` | chips/drivers/eth/eth_mac.c:1104-1149 | NULL configuration, wrong state, busy ring and success, each with its error bits and the whole new state |
| `EthTx.TxRing.ReleaseTxPacket` | chips/drivers/eth/eth_mac.c:1523-1596 | in a ring of any size, the new ring and the packets handed to the free callback, in order, are those of the masked scan, and those of the slot-by-slot scan when the size is a power of two |
| `EthTx.MaskedReleaseIff` | chips/drivers/eth/eth_mac.c:1523-1596 | the masked scan releases like the slot-by-slot scan, from every state, if and only if the ring size is a power of two |
| `EthTx.TxRing.ReInit` | chips/drivers/eth/eth_mac.c:3284-3325 | a blank ring, and every packet still in the table is given to the free callback once |
| `EthTx.FreeRun` | chips/drivers/eth/eth_mac.c:3434-3608 | the length of the run of usable descriptors at CurTxDesc: all before it usable, the one after it busy |
| `EthTx.NextIsBusy` | chips/drivers/eth/eth_mac.c:3594-3608 | during a fill, the test of the next descriptor detects exactly the end of the free run, even after a whole turn |
| `EthTx.FillingUndone` | chips/drivers/eth/eth_mac.c:3603-3631 | handing the filled descriptors back restores OWN everywhere and leaves the ring of a refusal |
| `EthTxLaws.CanSendIff` | chips/drivers/eth/eth_mac.c:3434-3688 | a packet is accepted if and only if ceil(buffers / 2) consecutive usable descriptors start at CurTxDesc |
| `EthTxLaws.DecodeAccepted` | chips/drivers/eth/eth_mac.c:3522-3688 | decoding the descriptors of an accepted packet gives the buffer chain back, in order, if and only if no second-position buffer is null |
| `EthTxLaws.AcceptedMarks` | chips/drivers/eth/eth_mac.c:3522-3719 | OWN on exactly the packet's descriptors, FD only on its first, LD and IOC only on its last, everything else untouched |
| `EthTxLaws.AcceptedFields` | chips/drivers/eth/eth_mac.c:3522-3688 | every descriptor of an accepted packet holds its two buffers, the packet length and the checksum control asked for, the first one also the CRC and source address control; what is not asked for stays |
| `EthTxLaws.BlankIsZero` | chips/drivers/eth/eth_mac.c:3253-3282 | a new ring is zero in every word of every descriptor, in the table and in the indices |
| `EthTxLaws.RefusalKeepsOwnership` | chips/drivers/eth/eth_mac.c:3603-3631 | a refusal leaves every OWN bit, the packet table, CurTxDesc and BuffersInUse as they were |
| `EthTxLaws.RefusalHarmsInFlightIff` | chips/drivers/eth/eth_mac.c:3603-3631 | a refusal changes a descriptor that the DMA owns if and only if the fill was stopped by the first descriptor of a packet in flight; it loses FD |
| `EthTxLaws.RefusalHarmsInFlightWitness` | chips/drivers/eth/eth_mac.c:3603-3631 | a reachable ring of two in which a refusal takes FD from a packet in flight |
| `EthTxLedger.RunInv` | chips/drivers/eth/eth_mac.c:1104-1149 | every run of transmit, DMA completion, release and restart keeps the ledger invariant |
| `EthTxLedger.RunWindow` | chips/drivers/eth/eth_mac.c:1523-1596 | every packet in the table lies in the window of BuffersInUse slots from releaseIndex to CurTxDesc |
| `EthTxLedger.RunIndices` | chips/drivers/eth/eth_mac.c:1523-1596 | over every run, (releaseIndex + BuffersInUse) mod N is CurTxDesc |
| `EthTxLedger.RunConserves` | chips/drivers/eth/eth_mac.c:1523-1596 | each pointer was accepted exactly as often as it was freed plus the slots it sits in: nothing lost, nothing freed twice |
| `EthTxLedger.RunReleaseSparesOwned` | chips/drivers/eth/eth_mac.c:1540-1596 | over every run, release leaves a packet alone while the DMA owns its last descriptor |
| `EthTxLedger.RunReleaseDrains` | chips/drivers/eth/eth_mac.c:1523-1596 | once the DMA owns nothing, one release call gives back everything ever accepted |
| `EthTxUse.RunTracks` | chips/drivers/eth/eth_mac.c:1104-1149 | over every run whose completions follow the ring, the DMA owns the descriptors filled last, and each of them carries the buffers of its part of an accepted packet, the packet's length, the controls it asks for and the last mark where due |
| `EthTxUse.RunOwnedInTable` | chips/drivers/eth/eth_mac.c:1523-1596 | over every such run, the packet of each descriptor that the DMA owns is still in the table, on a last descriptor that the DMA owns too |
| `EthTxUse.RunNoUseAfterFree` | chips/drivers/eth/eth_mac.c:1540-1596 | when a release call frees a packet, no descriptor that the DMA owns was filled for it: nothing is used after it is freed |
| `EthTxUse.OutOfOrderWitness` | chips/drivers/eth/eth_mac.c:1540-1596 | with completions out of ring order, a packet is freed while the DMA owns a descriptor that carries its buffers |
| `EthTxRelease.ReleaseExhausts` | chips/drivers/eth/eth_mac.c:1540-1596 | after a release call no packet is left, or the first one left is on a descriptor that the DMA owns |
| `EthTxRelease.RunReleaseExhausts` | chips/drivers/eth/eth_mac.c:1540-1596 | the same after a release call at the end of every run: it frees everything that can be freed in order |
| `EthTxRelease.ReleaseMoves` | chips/drivers/eth/eth_mac.c:1560-1586 | a call that frees nothing leaves the indices; any other moves releaseIndex just past the last slot it empties and takes the slots passed out of BuffersInUse |
| `EthTxLedger.ReleaseWindow` | chips/drivers/eth/eth_mac.c:1523-1596 | the release loop keeps the window, at every point of its scan |
| `EthTxOrder.SendPlace` | chips/drivers/eth/eth_mac.c:3688-3719 | in every state, an accepted packet is inserted between the waiting packets ahead of its slot and those behind it |
| `EthTxOrder.SendLastIff` | chips/drivers/eth/eth_mac.c:3688-3719 | a packet goes behind all others if and only if none waits behind its slot |
| `EthTxOrder.SendOrderIff` | chips/drivers/eth/eth_mac.c:3688-3719 | while buffers in use fit the ring, a packet goes behind all others if and only if they fit with it, and in front of all others otherwise |
| `EthTxOrder.GuardSuffices` | chips/drivers/eth/eth_mac.c:3688-3719 | while buffers in use and the packet fit the ring, none waits behind its slot |
| `EthTxOrder.ReleaseFront` | chips/drivers/eth/eth_mac.c:1523-1596 | however many buffers are in use, a release call takes its packets off the front of the release order |
| `EthTxOrder.RestartOrderIff` | chips/drivers/eth/eth_mac.c:3284-3325 | a restart frees the packets in release order if and only if they do not wait on both sides of the table's end |
| `EthTxOrder.RunFifoIff` | chips/drivers/eth/eth_mac.c:1523-1596 | over every run of transmits, completions, releases and restarts that sends no waiting packet again, packets freed followed by packets waiting are those accepted, in order and at every moment, if and only if every accepted packet went behind all others and every restart found the packets on one side |
| `EthTxOrder.UnguardedReorders` | chips/drivers/eth/eth_mac.c:3594-3719 | a run that accepts one packet and then another and frees the second first |
| `EthRx.RxRing.constructor` | chips/drivers/eth/eth_mac.c:3334-3370 | a new receive ring has no buffers and no descriptor owned by the DMA |
| `EthRx.RxRing.StartIT` | chips/drivers/eth/eth_mac.c:861-916 | a second start fails unchanged; a first one builds the whole ring in interrupt mode |
| `EthRx.RxRing.UpdateDescriptor` | chips/drivers/eth/eth_mac.c:1279-1346 | descriptors are rebuilt in ring order until one has no buffer and allocation fails; counts and indices follow |
| `EthRx.RxRing.ReadData` | chips/drivers/eth/eth_mac.c:1158-1269 | argument and state errors, and otherwise the packet and ring of the read specification |
| `EthRx.RxRing.LinkLoop` | chips/drivers/eth/eth_mac.c:1179-1246 | the loop over completed descriptors equals the recursive scan, bounded by the ring less the build count |
| `EthRx.RxRing.LinkOne` | chips/drivers/eth/eth_mac.c:1202-1239 | one descriptor is linked with its length and its buffer leaves the ring |
| `EthRxChain.Chain.Link` | chips/component/lwip_intf_v2_1/lwip-2.1.2/port/ethernetif.c:1507-1538 | the buffer goes to the end of the chain, and every buffer's total length is its own plus those of all that follow, in 16 bits |
| `EthRxRuns.RunPlaced` | chips/drivers/eth/eth_mac.c:1158-1346 | over every run with arbitrary allocation failures, the build window ends at the read index and is CPU-owned, and every descriptor outside it has a buffer |
| `EthRxRuns.RunIndices` | chips/drivers/eth/eth_mac.c:1158-1346 | over every run, (RxBuildDescIdx + RxBuildDescCnt) mod N is RxDescIdx, and so is the number of descriptors read |
| `EthRxRuns.RunFolded` | chips/drivers/eth/eth_mac.c:1179-1268 | link state and delivered packets are a fold over the completed descriptors, whatever the cut into read calls |
| `EthRxRuns.RunConserved` | chips/drivers/eth/eth_mac.c:1158-1346 | every buffer the allocator gave is in exactly one place: a descriptor, the packet under way, or a delivered packet |
| `EthRxRuns.ReadDrains` | chips/drivers/eth/eth_mac.c:1179-1268 | a read that delivers nothing has consumed every completed descriptor |
| `EthRxArmed.UpdateArms` | chips/drivers/eth/eth_mac.c:1279-1346 | slot by slot, in either mode: a descriptor that the rebuild reaches has OWN, BUF1V, IOC as the mode says and nothing of a completed one, and its old buffer or the next one of the allocator; the others stay; it stops only when nothing is left to build or a descriptor lacks a buffer and the allocator fails |
| `EthRxArmed.RunReady` | chips/drivers/eth/eth_mac.c:861-916 | over every run from a start in interrupt mode, every descriptor that the DMA owns has BUF1V and IOC and no mark or length of a completed one |
| `EthRxArmed.ReadRebuilds` | chips/drivers/eth/eth_mac.c:1248-1255 | after a read call nothing is left to build, or the next descriptor has no buffer and all that the allocator had is used |
| `EthRxArmed.BlankIsZero` | chips/drivers/eth/eth_mac.c:3334-3370 | a new receive ring is zero in every word, in the link state and in the indices |
| `EthRxStreams.FoldIsEnded` | chips/drivers/eth/eth_mac.c:1179-1246 | for every stream, framed or not, the driver's packets, the one under way, RxDescCnt and RxDataLength are those read off the positions of first and last marks, in the driver's 16 and 32 bits |
| `EthRxStreams.RunDelivers` | chips/drivers/eth/eth_mac.c:1158-1269 | over every run and whatever the DMA wrote, what is delivered is exactly the packets that end in the stream |
| `EthRxPackets.FoldIsPackets` | chips/drivers/eth/eth_mac.c:1189-1246 | on a framed stream the driver's fold computes exactly the packets of the stream |
| `EthRxPackets.PacketsSized` | chips/drivers/eth/eth_mac.c:1204-1235 | every packet ends at a last descriptor and its lengths sum to the hardware packet length |
| `EthRxPackets.PacketsCover` | chips/drivers/eth/eth_mac.c:1189-1246 | packets and the one under way hold the filled buffers in ring order, each once |
| `EthRxPackets.RunReassembles` | chips/drivers/eth/eth_mac.c:1158-1269 | over every run with a well-formed stream, what is delivered is exactly the packets of the stream, buffers in ring order |
| `EthRxTargets.RunTargets` | chips/drivers/eth/eth_mac.c:1158-1346 | over every run, each slot the DMA owns and each write it made points to its buffer, or to the status word of an earlier completion that belonged to no packet |
| `EthRxTargets.RunAimedIff` | chips/drivers/eth/eth_mac.c:1158-1346 | over every run, all writes of the DMA go into the buffers the driver links if and only if every descriptor that was read and handed back belonged to a packet or had its buffer's address for a status word |
| `EthRxTargets.RunFramedAimed` | chips/drivers/eth/eth_mac.c:1158-1346 | over every run with a framed stream, the DMA wrote each packet into the very buffer the driver links |
| `EthRxTargets.OrphanKeepsStatusAddress` | chips/drivers/eth/eth_mac.c:1279-1346 | a reachable ring in which a descriptor is handed back with the status word as its address |
| `IpcPipeline.RunOneInFlight` | chips/component/bk_wifi_driver/wdrv_tx.c:158-230 | in every interleaving at most one mailbox transfer is outstanding |
| `IpcPipeline.PlayFlag` | chips/component/bk_wifi_driver/wdrv_tx.c:158-230 | the sending flag is set exactly while a transfer is under way or the task holds the channel |
| `IpcPipeline.RunDelivers` | chips/component/bk_wifi_driver/wdrv_tx.c:119-230 | batches sent, then pending, carried and queued items, are the items posted, in order; each batch describes its chain |
| `IpcPipeline.CountExactIff` | chips/component/bk_wifi_driver/wdrv_tx.c:127-170 | a batch's counter is its length if and only if fewer than 256 items are sent |
| `IpcPipeline.HaltIff` | chips/component/bk_wifi_driver/wdrv_tx.c:168-172 | the task's assertion fires if and only if a non-zero multiple of 256 items is pending |
| `IpcPipeline.RunNotStranded` | chips/component/bk_wifi_driver/wdrv_tx.c:131-230 | unless a send failed, a retry was rejected or the task stopped at its assertion, no item is left with nobody to look at the list again |
| `IpcPipeline.RunGrantedNotStranded` | chips/component/bk_wifi_driver/wdrv_tx.c:119-230 | over every run in which the mailbox accepts and the queue has room, no mishap is recorded and items are left behind only by a task stopped at its assertion |
| `IpcPipeline.AcceptedSend` | chips/component/bk_wifi_driver/wdrv_tx.c:184-193 | an accepted send of a list of any length transfers the whole list with its ends and count, and empties it |
| `IpcPipeline.CompletionOutcome` | chips/component/bk_wifi_driver/wdrv_tx.c:204-230 | a completion clears the flag and asks for another round exactly when items wait |
| `IpcFair.RunMustDeliver` | chips/component/bk_wifi_driver/wdrv_tx.c:119-230 | after every run without failures, a number of rounds bounded by the queue sends everything posted, in order, and frees the channel, unless the task stops at its assertion |
| `IpcPipeline.HaltedForever` | chips/component/bk_wifi_driver/wdrv_tx.c:168-172 | a stopped task leaves a non-zero multiple of 256 items behind, whatever happens afterwards |
| `IpcPipeline.FailedSendStrandsIff` | chips/component/bk_wifi_driver/wdrv_tx.c:184-198 | a failed send strands its items if and only if nothing is queued and the handler is at rest |
| `IpcPipeline.RejectedRetryStrandsIff` | chips/component/bk_wifi_driver/wdrv_tx.c:204-230 | a rejected retry strands items if and only if the task has stopped, or nothing is queued or in flight and the task is past its test |
| `IpcWitnesses.HaltWitness` | chips/component/bk_wifi_driver/wdrv_tx.c:119-230 | a run from the start, without a failed send or rejected retry, that stops the task with 256 items pending |
| `IpcWitnesses.FailedSendWitness` | chips/component/bk_wifi_driver/wdrv_tx.c:184-198 | a run from the start that strands an item by a failed send |
| `IpcWitnesses.RejectedRetryWitness` | chips/component/bk_wifi_driver/wdrv_tx.c:204-230 | a run from the start that strands an item by a rejected retry |
| `CoList.List.constructor` | chips/component/bk_wifi_driver/wdrv_co_list.c:48-58 | an empty list |
| `CoList.List.Init` | chips/component/bk_wifi_driver/wdrv_co_list.c:48-58 | the list becomes empty, whatever it was |
| `CoList.List.PoolInit` | chips/component/bk_wifi_driver/wdrv_co_list.c:60-83 | the list becomes the pool's elements in address order, each with the default value if one is given |
| `CoList.List.PushBack` | chips/component/bk_wifi_driver/wdrv_co_list.c:85-112 | appends |
| `CoList.List.PushFront` | chips/component/bk_wifi_driver/wdrv_co_list.c:114-136 | prepends |
| `CoList.List.PopFront` | chips/component/bk_wifi_driver/wdrv_co_list.c:138-159 | removes and returns the first element, or NULL |
| `CoList.List.Extract` | chips/component/bk_wifi_driver/wdrv_co_list.c:161-204 | removes the element, or does nothing when it is not there |
| `CoList.List.Find` | chips/component/bk_wifi_driver/wdrv_co_list.c:206-219 | membership, both ways |
| `CoList.List.Cnt` | chips/component/bk_wifi_driver/wdrv_co_list.c:221-234 | the number of elements |
| `CoList.List.Insert` | chips/component/bk_wifi_driver/wdrv_co_list.c:251-292 | by a comparison of what the elements hold, inserts before the first element that has to come after it; contents stay and a sorted list stays sorted |
| `CoList.PlaceSorts` | chips/component/bk_wifi_driver/wdrv_co_list.c:251-292 | under a strict weak order that insertion keeps a sorted list sorted and goes behind its equals |
| `CoList.List.InsertAfter` | chips/component/bk_wifi_driver/wdrv_co_list.c:294-331 | inserts behind an element, at the front for NULL, and does nothing when the element is missing |
| `CoList.List.InsertAfterFast` | chips/component/bk_wifi_driver/wdrv_co_list.c:333-350 | inserts behind a member, at the front for NULL, and leaves the list alone behind an element of another chain |
| `CoList.List.InsertBefore` | chips/component/bk_wifi_driver/wdrv_co_list.c:352-389 | inserts in front of an element, at the end for NULL, and does nothing when the element is missing |
| `CoList.List.Concat` | chips/component/bk_wifi_driver/wdrv_co_list.c:391-411 | appends the other list and empties it, leaving its stale last pointer |
| `CoList.List.Remove` | chips/component/bk_wifi_driver/wdrv_co_list.c:414-436 | removes the element behind the given one and clears its link; without a given one, everything up to the element goes; an element of another chain leaves the list alone |
| `CoList.List.RemoveFrontIff` | chips/component/bk_wifi_driver/wdrv_co_list.c:424-427 | without a predecessor the removal takes out just the element if and only if it is first |
| `CrashLock.PlayInv` | chips/common/cm33/trap_base_smp.c:331-340 | every step of every core keeps the region valid and Peterson's invariant, with status and turn read separately |
| `CrashLock.ValidWords` | chips/common/cm33/trap_base_smp.c:256-273 | a region is valid if and only if both guard words are sealed, both status words and the turn are 0 or 1, and the dumper is nobody, 0 or 1 |
| `CrashLock.ValidExcludes` | chips/common/cm33/trap_base_smp.c:351-373 | from a valid region no two of three cores ever dump, and repair and fallback are unreachable |
| `CrashLockBreaks.InvalidBreaks` | chips/common/cm33/trap_base_smp.c:274-286 | from every invalid region there is a run after which two cores dump |
| `CrashLockBreaks.ExclusiveIff` | chips/common/cm33/trap_base_smp.c:351-459 | before any crash, exclusion over all runs holds if and only if the region is valid |
| `CrashLockBreaks.FallbackDumps` | chips/common/cm33/trap_base_smp.c:342-357 | a core that still finds the region invalid after its repair dumps all the same, changing only the dumper word |
| `CrashLockBreaks.FallbackYields` | chips/common/cm33/trap_base_smp.c:342-349 | a core in the fallback whose entry was overwritten never dumps |
| `CrashLockPeer.SpinExcludes` | chips/common/cm33/trap_base_smp.c:439-459 | with a valid region and intact guard words no two cores ever dump, whenever stops take effect and whichever cores stop: the spin lock is never released |
| `CrashLockPeer.ExclusiveAnyStopIff` | chips/common/cm33/trap_base_smp.c:351-459 | before any crash, exclusion over all runs, however stops take effect, holds if and only if the region is valid and the guard words are intact |
| `CrashLockPeer.BrokenGuardBreaks` | chips/common/cm33/trap_base_smp.c:440-448 | from every state with broken guard words there is a run after which both application cores dump |
| `CrashLockPeer.PlayIsMoves` | chips/common/cm33/trap_base_smp.c:450-455 | every run in which stops take effect at once is one of the runs in which they take effect at any time |
| `CrashLockOrder.LateWaits` | chips/common/cm33/trap_base_smp.c:331-340 | a side that yields the turn while the other waits or has won never dumps: first come, first served |
| `CrashLockProgress.RunDumpMode` | chips/common/cm33/trap_base_smp.c:294-323 | over every run from boot, each side's query is true exactly while a core of that side dumps |
| `CrashLockProgress.QueriesRightIff` | chips/common/cm33/trap_base_smp.c:288-323 | once the dumper word names a side, the queries name it if and only if both guard words are sealed |
| `CrashLockProgress.FallbackUnseen` | chips/common/cm33/trap_base_smp.c:288-323 | a core that dumps by the fallback over a broken guard word is reported by neither query |
| `CrashLockProgress.DumpIsFinal` | chips/common/cm33/trap_base_smp.c:342-373 | who dumps goes on dumping, alone, and the dumper word never changes again |
| `CrashLockProgress.LeaderAdvances` | chips/common/cm33/trap_base_smp.c:331-340 | the two sides never wait for each other: while nobody dumps, some crashed core's step gets nearer to a dump |
| `CrashLockProgress.RunCanDump` | chips/common/cm33/trap_base_smp.c:439-466 | every run from boot in which a core crashed can be continued to a dump |
| `CrashLockFair.RunMustDump` | chips/common/cm33/trap_base_smp.c:331-373 | from boot and after a crash, 45 rounds in each of which every crashed core takes a step end in a dump, in whatever order and whoever else crashes |
| `CrashLockFair.FairScheduleDumps` | chips/common/cm33/trap_base_smp.c:331-373 | from boot, every endless fair schedule in which a core crashes reaches a dump |
| `CrashLockFair.StepFalls` | chips/common/cm33/trap_base_smp.c:331-340 | no step takes the cores away from a dump, and a step that does not bring them nearer leaves it to the same core to do so |
| `CrashLockProgress.StaleWantIff` | chips/common/cm33/trap_base_smp.c:326-340 | before any crash and with a valid region, the application cores can never dump by themselves if and only if the other side's status word is still set |
| `EventFlags.RunNoLostWakeup` | chips/component/bk_rtos/rtos_ext.c:33-127 | whenever the waiter is about to block while its condition holds, the semaphore is positive or a setter has yet to post |
| `EventFlags.TimeTestIff` | chips/component/bk_rtos/rtos_ext.c:94-121 | at its test of the time a waiter blocks if and only if it waits forever or its time is not up, and otherwise returns nothing |
| `EventFlags.CallOutcome` | chips/component/bk_rtos/rtos_ext.c:55-121 | a call returns bits at once when its condition holds, and otherwise blocks unless its timeout is zero |
| `EventFlags.ResultIff` | chips/component/bk_rtos/rtos_ext.c:55-127 | a wait ends with nothing if and only if it was refused at the call, failed while blocked or its time was up, and with bits if and only if its condition holds when it looks |
| `EventFlags.RunResults` | chips/component/bk_rtos/rtos_ext.c:55-127 | the same for empty results over every run |
| `EventFlags.WaitKeepsStart` | chips/component/bk_rtos/rtos_ext.c:67-118 | a wait that goes on keeps its request and the time it began |
| `EventFlags.BlockTakesOne` | chips/component/bk_rtos/rtos_ext.c:118 | a blocked waiter goes on if and only if the semaphore is positive, and takes one |
| `EventFlags.IdleSet` | chips/component/bk_rtos/rtos_ext.c:37-41 | setting nothing, or on an event that is not initialised, changes nothing |
| `EventFlags.SetIsKept` | chips/component/bk_rtos/rtos_ext.c:33-52 | from every state and whatever follows, a bit that was set is still there or was handed out since |
| `EventFlags.SettersKeepCondition` | chips/component/bk_rtos/rtos_ext.c:33-52 | nothing the setters do takes the condition of a blocked waiter away |
| `EventFlags.SatisfiedReturns` | chips/component/bk_rtos/rtos_ext.c:72-121 | a blocked waiter whose condition holds returns non-zero bits two statements after the semaphore is positive |
| `EventFlags.RunLosesNoBit` | chips/component/bk_rtos/rtos_ext.c:33-93 | over every run the flag word is exactly the bits set and not handed out since; a result is within the mask, and the whole mask in all-events mode |
| `EventFlags.TakesClears` | chips/component/bk_rtos/rtos_ext.c:76-88 | the exclusive or removes exactly the returned bits, and bits are returned if and only if the condition holds |
| `EventFlags.ElapsedRightIff` | chips/component/bk_rtos/rtos_ext.c:94-111 | the elapsed time is right if and only if the clock has not wrapped or wrapped by half its range |
| `EventFlags.WrapEndsWaitEarly` | chips/component/bk_rtos/rtos_ext.c:94-111 | one tick across the wrap ends any finite wait |
| `Hisr.Dispatcher.constructor` | chips/component/bk_rtos/rtos_ext.c:139-144 | nothing pending, nothing registered |
| `Hisr.MaskIsShift` | chips/component/bk_rtos/rtos_ext.c:221 | the bit of an id is one shifted by its lowest three bits |
| `Hisr.Dispatcher.Take` | chips/component/bk_rtos/rtos_ext.c:146-181 | takes the lowest pending id and clears its bit only, or reports that none is pending; when pending ids are registered, the entry is there |
| `Hisr.Dispatcher.Activate` | chips/component/bk_rtos/rtos_ext.c:208-227 | refuses uninitialised blocks and bad ids, and otherwise sets exactly that bit; pending ids stay registered if and only if the block is refused or its id is registered |
| `Hisr.Dispatcher.Create` | chips/component/bk_rtos/rtos_ext.c:229-256 | registers under the first empty slot exactly when there is one and no earlier entry has the same handler and parameter |
| `Hisr.Dispatcher.Enter` | chips/component/bk_rtos/rtos_ext.c:247-255 | handlers stay unshared if and only if the block was not registered before |
| `Hisr.SharedHandlerWitness` | chips/component/bk_rtos/rtos_ext.c:229-256 | a block registered for two handlers stands under two ids with the second handler |
| `HisrRegistration.RunSafeIff` | chips/component/bk_rtos/rtos_ext.c:189-256 | with registration, activation and dispatch interleaved statement by statement, and any number of registrations of one block, only registered entries are followed if and only if no critical section of an activation marks an id that is not in the table |
| `HisrRegistration.SetSafeIff` | chips/component/bk_rtos/rtos_ext.c:220-222 | one critical section, which reads the id again, is harmless, whatever follows, if and only if that id is in the table at that moment |
| `HisrSolo.SoloRegisters` | chips/component/bk_rtos/rtos_ext.c:229-256 | in every state, the statements of one undisturbed registration fill in, number, mark and enter the block in the first empty slot, or change nothing when there is none or an earlier entry has the handler and parameter |
| `HisrRegistration.ActivationMarks` | chips/component/bk_rtos/rtos_ext.c:208-222 | an activation is refused exactly for an uninitialised block; otherwise its critical section makes the id that the block then has pending |
| `HisrRegistration.DispatchTakes` | chips/component/bk_rtos/rtos_ext.c:146-202 | the dispatcher follows the lowest pending id and clears no other bit |
| `HisrRegistration.RunHoles` | chips/component/bk_rtos/rtos_ext.c:246-253 | an activation is about to mark a missing id only while some registration of its block is between the statement that numbers it and the one that enters it |
| `HisrRegistration.RunFound` | chips/component/bk_rtos/rtos_ext.c:229-256 | over every run whose registrations do not overlap, an initialised block is entered under its own id |
| `HisrWitnesses.MissingWitness` | chips/component/bk_rtos/rtos_ext.c:189-256 | a run from the start in which the dispatcher follows a missing entry |
| `HisrWitnesses.ReregisterWitness` | chips/component/bk_rtos/rtos_ext.c:208-256 | a run from the start in which an activation tests a registered block and, after the block is registered again, marks a missing id |
| `HisrWitnesses.OverlapWitness` | chips/component/bk_rtos/rtos_ext.c:229-256 | two overlapping registrations that take the same id |
| `HisrRuns.RunNeverSleepsOnWork` | chips/component/bk_rtos/rtos_ext.c:146-227 | with a semaphore that saturates anywhere from one on, the dispatcher never blocks beside a pending bit unless a post is present or due |
| `HisrRuns.RunKeepsActivations` | chips/component/bk_rtos/rtos_ext.c:189-227 | every activation, also one made before the semaphore exists, is pending or about to be called until it has been called |
| `HisrRuns.ActivateMarks` | chips/component/bk_rtos/rtos_ext.c:220-224 | an activation marks its id in every state, also before the semaphore exists |
| `HisrRuns.ActivationServed` | chips/component/bk_rtos/rtos_ext.c:189-227 | from every state and whatever follows, an activated id is pending, about to be called, or was called since |
| `HisrRuns.TakesLowest` | chips/component/bk_rtos/rtos_ext.c:146-181 | the task takes exactly the lowest pending id, and blocks only when there is none |
| `HisrRuns.BlockTakesOne` | chips/component/bk_rtos/rtos_ext.c:182 | a blocked task goes on if and only if the semaphore is positive, and takes one |
| `HisrRuns.TaskDrains` | chips/component/bk_rtos/rtos_ext.c:146-206 | without further activations the task calls every pending id within a bounded number of its statements |
| `HisrRuns.Lowest` | chips/component/bk_rtos/rtos_ext.c:156-177 | the id taken is pending and no pending id is lower |
| `MacRecord.Crc8` | chips/component/bk_system/mac.c:256-273 | the nested loops compute the checksum |
| `MacRecord.MixInjective` | chips/component/bk_system/mac.c:262-269 | the byte step is injective in the register and in the byte |
| `MacRecord.CrcSeesOneByte` | chips/component/bk_system/mac.c:256-273 | changing one byte of a message of any length changes its checksum |
| `MacRecord.IsFree` | chips/component/bk_system/mac.c:275-284 | a record is free if and only if it is fully erased |
| `MacRecord.IsValid` | chips/component/bk_system/mac.c:300-311 | the validity test decides tag, header and data checksum |
| `MacRecord.Build` | chips/component/bk_system/mac.c:339-344 | the record built is the one specified |
| `MacRecord.RecordLayout` | chips/component/bk_system/mac.c:244-253 | the ten bytes of a record: tag 0x4d41 low byte first, address checksum, header checksum, address |
| `MacRecord.BuiltReadsBack` | chips/component/bk_system/mac.c:300-344 | a built record is valid, gives its address back and is never taken for free |
| `MacRecord.ValidIsBuilt` | chips/component/bk_system/mac.c:300-344 | the valid records are exactly the built ones |
| `MacRecord.OneByteCaught` | chips/component/bk_system/mac.c:300-311 | changing any one byte of a valid record makes it invalid |
| `MacRecord.TornAcceptedIff` | chips/component/bk_system/mac.c:300-311 | a record cut short is accepted if and only if the cut is behind its header and the erased rest matches the checksum |
| `MacRecord.LastByteTorn` | chips/component/bk_system/mac.c:300-311 | a record that lacks its last byte is accepted if and only if nothing is missing |
| `MacRecord.TornAcceptedWitness` | chips/component/bk_system/mac.c:300-311 | a record two bytes short that is accepted with the wrong address |
| `MacLog.MacStore.FirstFree` | chips/component/bk_system/mac.c:286-297 | the first erased slot among all but the last, or none |
| `MacLog.MacStore.LatestValid` | chips/component/bk_system/mac.c:313-336 | the last valid record below the free slot |
| `MacLog.MacStore.Read` | chips/component/bk_system/mac.c:350-422 | the latest address, or failure when the flash is unreadable or holds none |
| `MacLog.MacStore.Write` | chips/component/bk_system/mac.c:350-422 | fails and changes nothing when the log is unreadable or full; otherwise succeeds and leaves in the first free slot whatever the flash write left there |
| `MacLog.MacStore.SyncMac` | chips/component/bk_system/mac.c:436-470 | the outcome, the log, the address and its copy in the network information partition after a synchronisation, for unreadable logs and for every outcome of the flash writes; an address loaded from that partition still equals the copy |
| `MacLog.LatestIsLast` | chips/component/bk_system/mac.c:313-336 | skipping the erased part finds the same record as searching the whole log |
| `MacLog.RunShaped` | chips/component/bk_system/mac.c:275-422 | after every history of writes and power cuts the log is used slots followed by erased ones |
| `MacLog.RunRecovers` | chips/component/bk_system/mac.c:313-422 | after every such history a read returns the last record that went in valid |
| `MacLog.ReadAfterWrite` | chips/component/bk_system/mac.c:350-422 | a read after a completed write returns that address |
| `MacLog.ReadAfterTorn` | chips/component/bk_system/mac.c:350-422 | a read after a torn record whose rest does not match the checksum returns what was read before |
| `MacLog.RunCapacity` | chips/component/bk_system/mac.c:286-297 | exactly fifty writes fit |
| `MacLog.RunFull` | chips/component/bk_system/mac.c:385-391 | a full log rejects everything later unchanged |
| `MacLog.SyncConvergesIff` | chips/component/bk_system/mac.c:436-470 | after a successful synchronisation log and memory agree if and only if nothing had to be recorded, or the flash write happened and left the built record, or they agreed before and no other valid record was left |
| `MacLog.RejectedIff` | chips/component/bk_system/mac.c:424-434 | an address is rejected if and only if all its bytes are 0xff or all are 0 |
| `MacLog.SyncReplaces` | chips/component/bk_system/mac.c:450-460 | such an address is replaced by the latest one on record, or the synchronisation fails and changes nothing |
| `MacLog.SyncKeeps` | chips/component/bk_system/mac.c:461-470 | any other address stays in memory and the synchronisation succeeds |
| `MacLog.SyncValidIff` | chips/component/bk_system/mac.c:436-470 | the address in memory is valid afterwards if and only if it was before or the log held a valid one |
| `MacLog.SyncTwiceIff` | chips/component/bk_system/mac.c:436-470 | a second synchronisation changes nothing if and only if the first made log and memory agree, or the log is full, or the second flash write leaves the slot erased |
| `MacLog.FullSyncWitness` | chips/component/bk_system/mac.c:385-391 | after fifty writes a synchronisation of another address reports success and records nothing |
| `MacLog.FailedFlashWitness` | chips/component/bk_system/mac.c:405-412 | a synchronisation whose flash write fails reports success and records nothing, and the next one writes again |
| `AudioRing.RingBuffer.constructor` | chips/drivers/audio/audio_ring_buff.c:13-33 | an empty buffer over the given memory |
| `AudioRing.RingBuffer.Clear` | chips/drivers/audio/audio_ring_buff.c:35-54 | the buffer becomes empty |
| `AudioRing.RingBuffer.Read` | chips/drivers/audio/audio_ring_buff.c:56-153 | returns and removes the oldest min(size, fill) bytes, across the wrap |
| `AudioRing.RingBuffer.Write` | chips/drivers/audio/audio_ring_buff.c:185-255 | all or nothing: accepted exactly when it fits the free bytes, and appended unless it takes the last one |
| `AudioRing.RingBuffer.FillSize` | chips/drivers/audio/audio_ring_buff.c:258-302 | the number of bytes held |
| `AudioRing.RingBuffer.FreeSize` | chips/drivers/audio/audio_ring_buff.c:304-311 | fill and free add up to the capacity |
| `AudioRing.Apply` | chips/drivers/audio/audio_ring_buff.c:56-255 | an operation acts like a bounded queue if and only if it does not take the last free byte; otherwise everything is lost |
| `AudioRing.Drive` | chips/drivers/audio/audio_ring_buff.c:56-255 | over every run that keeps a byte free, the ring hands out and holds exactly what a bounded queue does, and bytes accepted are bytes handed out or cleared followed by bytes held, in order |
| `AudioRing.FifoConserves` | chips/drivers/audio/audio_ring_buff.c:56-255 | for the bounded queue that the ring refines: bytes held and accepted are bytes that left followed by bytes held, in order |
| `AudioRing.FullWriteWitness` | chips/drivers/audio/audio_ring_buff.c:185-255 | a fresh buffer that accepts its whole capacity looks empty |
| `RtcCounter.CounterGet` | chips/component/bk_pm/pm_misc.c:70-82 | the value is the true counter at the instant of the last low-word read that the call made, its last read but one, for every monotone counter; the loop ends within seven reads of the counter standing still |
| `RtcCounter.ReadsDecide` | chips/component/bk_pm/pm_misc.c:70-82 | the outcome depends only on the reads that the call made |

## Left out

- EthTx.TxRing.Prepare: assumes a chain of at least one buffer and lengths that fit their descriptor fields (14 and 15 bits), which the source does not check either.
- EthTx.TxRing.TransmitIT: the same assumption on the chain; the 32-bit wrap of BuffersInUse is not modelled.
- EthRx.RxRing.LinkOne: works on values; the heap chain with its total lengths is `EthRxChain.Chain.Link`.
- CoList.List.Insert: assumes that the element is not in the list yet, as the source demands of its callers without a check.
- CoList.List.Remove: assumes that a given predecessor links to the element, which the source asserts, and that an element of the list is not removed through an element of another chain.
- Hisr.Dispatcher.Create: one step; `HisrRegistration` takes the statements of registration apart.
- HisrRuns.TaskDrains: says nothing about a stream of low ids that never ends; the lowest id always goes first.
- AudioRing.RingBuffer.Write: capacities small enough that positions plus sizes stay below 2^32.
- RtcCounter.CounterGet: the call is observed over finitely many register reads; a counter that moves at every read keeps it looping.
- Bit packing of the descriptor words: descriptors are records of their fields.
- VLAN, segmentation offload, PTP, polling transmit, and stop/restart of reception in the Ethernet driver.
- Register configuration, PHY, MAC filters and dumps.
- DMA modes of the audio ring buffer, whose positions come from hardware registers.
- Statistics counters, log output and the command-confirm and buffer-bank parts of the Wi-Fi driver.
- Weak memory ordering, and the 64-bit wrap of the RTC counter.
- All other drivers, boot code, network glue and build scripts.
