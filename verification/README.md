# Verification of the mqnic completion protocol and its neighbours

A Dafny model of the network interface's completion and event queues, hardware and driver together, with the
descriptor rings, the operation mux, the striped RAM models and some smaller parts of the driver and the test bench.
`dafny verify dfyconfig.toml` checks everything.

## What is modelled

**The completion queue manager** (`rtl/cpl_queue_manager.v`). A queue is a RAM word (producer and consumer
pointer, event queue, flags, base address and one stored op index). Requests start an operation in a circular table,
commits mark operations in any order, finalizes release them in order, register writes configure a queue, move its
consumer pointer and arm it.

- `CplQueueManager`: the operations on values, with the byte enables, the 16-bit pointers, the 8-bit op index.
- `CplPipeline`, `CplRtl`: the clocked pipeline of any depth from 2 on, as a class over arrays and as a step function.
- `CplRefinement`: every input sequence makes the pipeline do what a serial machine does with one operation at a time.
- `CplDispatch`: what one edge takes in, operation and commit, in terms of the registers and the input wires.
- `CplDrain`: how many edges empty the table.
- `CplEvents`: back-pressure on the event output over whole traces, and exactly when it costs an event.
- `CplTableSize`: the stored op index in tables beyond 256 entries.
- `CplFifo`, `CplSimulation`: a list of outstanding operations with unbounded counters, and the proof that the serial
  machine's registers are its residues, whatever order commits come in.
- `CplProtocol`, `CplTheorems`: the whole protocol as a state machine: hardware, the unseen writer of records and the
  driver, which looks only at phase bits, over every interleaving.
- `CplRegisters`: the register file: what reads return, which words are commands, locks, byte strobes.
- `CplAddress`: the records go where the driver said when it opened the queue.
- `CplLiveness`: the driver's loop ends, and no reachable state of the protocol is stuck.
- `CplArms`: arms, events and wakes counted over whole runs.
- `CplScenarios`: runs from reset that show what the protocol does not promise.
- `CplDriver`: the driver's polling loops as methods over a memory that the device goes on writing, proved against that
  protocol.
- `CplEndToEnd`, `CplClocked`: clock edges to list machine in one statement, and the protocol's guarantees at the
  clock edges.

**Descriptor rings**: `RingWindow` (slots freed out of order behind a consumer pointer that passes only free slots),
`TxRing` and `RxRing` (the classes of the C driver), `TxFlow` (stopping and waking a transmit queue, one memory access
at a time), `TxShared` (the transmit slots under that interleaving), `PacketPool` (the Python driver's shared packet
buffers).

**Data movers**: `OpMux` and `OpMuxProgress` (`rtl/cpl_op_mux.v`), `StripedRam`, `StripedLanes`, `StripedWrite`,
`StripedRead`, `StripedSystem`, `StripedProgress` (`tb/rxtx_core/dma_psdp_ram.py`).

**Smaller parts**: `WfqRank`, `ModuleEeprom`, `TimestampCache`, `RegBlock`.

The records, payloads, buffers, sockets and pages are numbers; allocation results, DMA mapping results, I2C answers,
clock readings, grants, stalls and ready signals are inputs. Memory is sequentially consistent.

## Where the code does not meet the property one would expect

- **Outstanding operations sharing a slot.** A driver whose budget is spent polls again without an event, and may take
  a record and release it before the hardware has finalized it; the next request then gets the same slot while the old
  operation is outstanding. Two outstanding operations of a queue hold different slots if and only if there are no more
  of them than slots (`SlotsDistinctIffFewEnough`); `SharedSlot` is a run of hardware, writer and driver, from reset,
  in which they do not. The older of the two records has then been consumed (`SharedSlotIsConsumed`), so nothing unread
  is overwritten.
- **Table size.** The stored op index has 8 bits (`rtl/cpl_queue_manager.v:217`). In any state, an operation just
  started is found again if and only if its entry is below 256 (`RecoveredIffBelow256`), and every larger table gets
  to entry 256 from reset (`RecoveryFailsBeyond256`). The protocol is proved for tables of up to 256 entries. The test
  bench asks for 1024 (`tb/mqnic_core_pcie_us_schedule/test_mqnic_core_pcie_us.py:1756`).
- **Event overwrite.** Dispatching a finalize waits for the event register (`rtl/cpl_queue_manager.v:394`), dispatching
  a register write does not (`rtl/cpl_queue_manager.v:372`). Over every trace from reset the sink gets exactly the
  serial events if and only if every register write that rings finds the event register free or being emptied, and the
  sink is ready again before a finalize then in flight rings (`EventsExactIffWritesSafe`). Without ringing writes
  nothing is lost under any back-pressure (`QuietWritesLoseNothing`); a ringing write at an occupied register loses one
  event (`RingingWriteLoses`), as in the trace from reset of `EventCanBeOverwritten`. `CplProtocol` assumes events
  arrive.
- **One event per arm.** Over every run no more events are rung than arm commands were written (`ArmsEventsWakes`).
  But opening and closing a queue clear neither its arm bit nor an event on its way, and a queue closed while its driver
  is idle has one of the two (`Closing`). That an armed queue has equal pointers and no event on its way holds over
  every run in which the queue is opened with no event left over, whatever the arm bit (`OneEventPerArm`), and after an
  opening it holds if and only if none was (`CleanIffNoEventLeft`). `LeftoverEvent` is a run from reset in which it
  fails: the queue is closed before its event is taken, and opened and armed again. With an arm bit left over an event
  may be rung while another is on its way, and the two wake the driver once; without, every event wakes it once
  (`EveryEventWakes`). No wakeup is lost in any case (`NoLostWakeup` assumes nothing about leftovers).
- **Byte strobes of the base address.** The byte enables of the lower base register are the strobes wired one byte off
  (`rtl/cpl_queue_manager.v:490`): a write honours a pattern of strobes exactly when all four agree, while the upper
  register honours every pattern (`StrobesHonouredIff`). The commands ignore the strobes.
- **Producer read-back.** `modules/mqnic/mqnic_cq.c:124-127` takes the upper half of the pointer register, where the
  hardware has the consumer pointer (`rtl/cpl_queue_manager.v:607-612`). On an enabled queue it gets the producer pointer
  if and only if the two are equal (`ReadBackIsProducerIff`). No consumer path uses it.
- **Stale completions.** `mqnic_free_tx_desc` does not look whether the slot it is given is occupied. The ring and its
  accounts survive any completions, but mappings that are not live are unmapped unless the completions name posted
  slots, each once; exactly then none is (`OnlyLiveIffCompletes`).
- **Transmit bound.** A running queue between transmits is strictly below half full if and only if no poll has woken it
  while the ring was full with nothing freed and no stop since; polls taken as one step never do
  (`RunningMeansBelowHalf`, `StrictBoundFails`). The bound that always holds is half (`TransmitHasRoom`).
- **Page select.** `mqnic_query_module_eeprom_by_page` does not look at the result of writing the page register. The
  bytes come back right if and only if at each read the register holds the place's page, or the read stays in the lower
  half, or the two pages agree on the bytes read (`ToldRightIff`, `GetModuleEeprom`); it is enough that every select
  that has to change the register succeeds. `LostSelect` is a call in which one is lost and goes unnoticed.
- **Address check of the striped RAM.** Its bound is never below the memory's size, and equal to it if and only if the
  number of bytes across the lanes is a power of two (`CheckIsExactIff`); otherwise, and only then, it lets the first
  address past the end through, where the lanes write byte 0 (`PastTheEndPassesIff`).
- **Timestamp cache.** Widening is exact under the bound of 65280 seconds, and not with one second more
  (`OneSecondFurtherFails`).

## Model

| member | source | states |
|---|---|---|
| CplQueueManager.Execute | rtl/cpl_queue_manager.v:419-614 | the effect of an operation on its RAM word is a masked write of its own queue that fits the word, whatever the operation and the word |
| CplPipeline.DispatchAdmits | rtl/cpl_queue_manager.v:363-414 | an operation enters stage 0 only when no stage works on its queue and the register it will answer in is free |
| CplPipeline.EdgeKeepsFetch | rtl/cpl_queue_manager.v:363-369 | the word fetched at stage 0 is still the RAM word of its queue at every later stage, at every edge |
| CplPipeline.EdgeKeepsReservations | rtl/cpl_queue_manager.v:404-414 | a request in flight keeps a free table slot and a free response register until it executes, a register access its response register |
| CplPipeline.EdgeKeepsFinish | rtl/cpl_queue_manager.v:394-403 | a finalize in flight has released its slot, which still holds its queue and pointer |
| CplPipeline.EdgeKeepsOrder | rtl/cpl_queue_manager.v:394-414 | a request does not take the slot of a finalize that is still in flight behind it |
| CplPipeline.EdgeInv | rtl/cpl_queue_manager.v:624-716 | every clock edge keeps the pipeline invariant |
| CplPipeline.EdgeRefines | rtl/cpl_queue_manager.v:419-712 | with a finalize in flight undone, an edge is the operation of the last stage and the commit, done atomically |
| CplDispatch.EnteredIs | rtl/cpl_queue_manager.v:363-414 | after an edge stage 0 holds the first that can enter of write, read, finalize of the oldest entry and request, each as the registers, the pipeline and the input wires say, or nothing; every other stage holds what was in the one before |
| CplDispatch.CommitAtEdge | rtl/cpl_queue_manager.v:616-621 | a commit offered while ready is high marks its entry and no other becomes marked; ready is the enable of the edge before |
| CplDispatch.CommitsAreOffered | rtl/cpl_queue_manager.v:616-621 | over every trace from reset the commits recorded are exactly the tags offered at edges whose predecessor had enable, in order |
| CplDrain.DrainsAtTheClock | rtl/cpl_queue_manager.v:394-403 | with all n outstanding operations committed, p + n * (p + 1) edges of a pipeline of p stages with a ready sink and no new access empty the table and bring each RAM producer pointer to its last started record |
| CplDrain.DrainsFromReset | rtl/cpl_queue_manager.v:454-474 | so from every state reached from reset |
| CplRefinement.PipelineRefinesSerial | rtl/cpl_queue_manager.v:363-716 | for every depth from 2 on and every input sequence, RAM, table, responses and read data are those of a serial machine that does the accepted operations one at a time, in order |
| CplRefinement.EmptyPipelineIsSerial | rtl/cpl_queue_manager.v:695-712 | with no operation in flight the RAM and table are exactly the serial machine's |
| CplRefinement.ReadySinkLosesNothing | rtl/cpl_queue_manager.v:332-334 | a sink that is always ready loses no event, on any input sequence |
| CplEvents.BeatFollows | rtl/cpl_queue_manager.v:332-403 | of every edge: finalizes move on one stage, one enters only if the event register is free or being emptied, and an event not taken stays |
| CplEvents.FinalizeOverwritesOnlyAWrite | rtl/cpl_queue_manager.v:394 | a finalize overwrites an event only if a register write rang while it was in flight and the sink was not ready since |
| CplEvents.NothingLostIffWritesSafe | rtl/cpl_queue_manager.v:372-403 | over every run no event is lost if and only if every register write that rings finds the event register free or being emptied and the sink is ready before a finalize then in flight rings |
| CplEvents.QuietWritesLoseNothing | rtl/cpl_queue_manager.v:394 | while no register write rings nothing is lost, whatever the sink does |
| CplEvents.RingingWriteLoses | rtl/cpl_queue_manager.v:557-572 | a register write that rings loses exactly one event if the register is occupied and the sink not ready, and none otherwise |
| CplEvents.EventsExactIffWritesSafe | rtl/cpl_queue_manager.v:332-403 | over every trace from reset the sink sees exactly the serial events, up to the one in the register, if and only if every register write that rings is safe |
| CplEvents.EventCanBeOverwritten | rtl/cpl_queue_manager.v:372-374 | a trace from reset in which two queues are armed, both ring, and the first event is lost |
| CplRtl.Scan | rtl/cpl_queue_manager.v:363-369 | the hazard loop finds whether any stage works on the queue |
| CplRtl.Accept | rtl/cpl_queue_manager.v:371-414 | the dispatch chain chooses in the order write, read, finalize, request, by the guards that EnteredIs states |
| CplRtl.CplQueueManagerRtl.constructor | rtl/cpl_queue_manager.v:276-296 | the reset state meets the invariant |
| CplRtl.CplQueueManagerRtl.UpdateTable | rtl/cpl_queue_manager.v:663-670 | the table registers change as start, finish and commit say, together in one edge |
| CplRtl.CplQueueManagerRtl.Shift | rtl/cpl_queue_manager.v:673-706 | every stage takes over from the one before it |
| CplRtl.CplQueueManagerRtl.Clock | rtl/cpl_queue_manager.v:624-716 | a clock edge of the registers in place is the step function of which EnteredIs, CommitAtEdge and EdgeRefines say what it takes in and does, and keeps the invariant |
| CplFifo.CountSplit | rtl/cpl_queue_manager.v:663-670 | operations of a queue are counted by any split of the list |
| CplFifo.LastHoldsStarted | rtl/cpl_queue_manager.v:435-436 | the youngest operation of a queue holds the pointer after all its started ones |
| CplFifo.RequestKeepsValid | rtl/cpl_queue_manager.v:419-453 | a request keeps the outstanding operations of every queue at the pointers prod+1, prod+2, ... in table order and within the ring |
| CplFifo.FinalizeKeepsValid | rtl/cpl_queue_manager.v:454-461 | so does finalizing the oldest, which moves its queue's pointer by one |
| CplFifo.CommitKeepsValid | rtl/cpl_queue_manager.v:616-621 | so does committing any of them, in any order |
| CplFifo.ProgramKeepsValid | rtl/cpl_queue_manager.v:501-577 | so does every legal driver command |
| CplSimulation.ActivePointerRecovered | rtl/cpl_queue_manager.v:268-272 | in every state the single stored index and the owner check give exactly the pointer after the last started operation, or the producer pointer when none is active, despite reuse of slots by other queues |
| CplSimulation.FullIsExact | rtl/cpl_queue_manager.v:269-271 | the masked 16-bit full test holds exactly when the ring has no room |
| CplSimulation.SlotAndPhase | rtl/cpl_queue_manager.v:423-424 | slot and phase bit of the 16-bit pointer are those of the unbounded counter |
| CplSimulation.RequestAnswers | rtl/cpl_queue_manager.v:419-453 | the response carries the counter's residue, phase, address and tag, and full or error exactly when the list machine says so |
| CplSimulation.RequestSimulates | rtl/cpl_queue_manager.v:419-453 | a request on registers is the request on the list |
| CplSimulation.FinalizeGuard | rtl/cpl_queue_manager.v:394 | finalize is enabled exactly when the oldest operation exists and is committed |
| CplSimulation.FinalizeSimulates | rtl/cpl_queue_manager.v:454-474 | finalize moves the oldest operation's queue on by exactly one, and rings exactly when the queue is armed |
| CplSimulation.CommitSimulates | rtl/cpl_queue_manager.v:616-621 | a commit by tag marks that operation alone |
| CplSimulation.CommandDecodes | rtl/cpl_queue_manager.v:502-577 | the 32-bit command word of each driver command is decoded as that command |
| CplSimulation.CommandSimulates | rtl/cpl_queue_manager.v:501-577 | a legal command on registers is the command on the list, and an arm rings exactly when producer and consumer differ |
| CplSimulation.BaseSimulates | rtl/cpl_queue_manager.v:485-500 | writing the base address changes nothing else, and nothing at all on an active queue |
| CplSimulation.ResetSimulates | rtl/cpl_queue_manager.v:276-296 | the reset registers are the empty list |
| CplRegisters.StaysInWidth | rtl/cpl_queue_manager.v:477-577 | no operation makes a field wider than its bits |
| CplRegisters.RunStaysInWidth | rtl/cpl_queue_manager.v:477-577 | over every run from reset no field overflows into another |
| CplRegisters.StatusReads | rtl/cpl_queue_manager.v:596-606 | the status register shows event queue, flags, whether an operation of the queue is outstanding, and size, each in its own bits |
| CplRegisters.PointersRead | rtl/cpl_queue_manager.v:607-612 | the pointer register shows the counters of finalized and of released records modulo 2^16 |
| CplRegisters.ReadBackIsProducerIff | modules/mqnic/mqnic_cq.c:124-127 | the driver's producer read-back gives the consumer pointer, on an enabled queue the producer pointer if and only if the two are equal |
| CplRegisters.CommandWordsAct | rtl/cpl_queue_manager.v:502-577 | every word with a command code does what the driver's own encoding of that command does, whatever its ignored bits |
| CplRegisters.OtherWordsDoNothing | rtl/cpl_queue_manager.v:573-576 | any other word is acknowledged and changes nothing |
| CplRegisters.LockedWhileEnabled | rtl/cpl_queue_manager.v:485-536 | while a queue is enabled a write to its base, size, event queue or producer pointer changes nothing |
| CplRegisters.CommandReadsBack | rtl/cpl_queue_manager.v:501-577 | what the registers read after each command: the field asked for, unless locked, and all others as before; an arm sticks unless the queue is enabled with unequal pointers |
| CplRegisters.BaseReadsBack | rtl/cpl_queue_manager.v:485-500 | a base write read back byte by byte under every pattern of strobes, the other half unchanged |
| CplRegisters.StrobesHonouredIff | rtl/cpl_queue_manager.v:490-499 | the upper base register honours every pattern of byte strobes, the lower one exactly those with all four equal |
| CplProtocol.PhaseAgrees | modules/mqnic/mqnic_eq.c:212-213 | the phase test at the consumer position succeeds exactly when the record of that position has been written |
| CplProtocol.DriverSeesLap | modules/mqnic/mqnic_eq.c:206-212 | index and lap of the 32-bit software pointer are those of the counter |
| CplProtocol.NextLap | rtl/cpl_queue_manager.v:423-424 | one lap later the slot is the same and the phase is the other |
| CplProtocol.ResponseIsJob | rtl/cpl_queue_manager.v:421-427 | the writer's slot, phase and position follow from the hardware's response |
| CplProtocol.StepKeepsInv | rtl/cpl_queue_manager.v:419-577 | every step of hardware, writer and driver keeps the protocol invariant, the register writes of opening and closing included, in any interleaving |
| CplTheorems.OpeningAQueue | modules/mqnic/mqnic_cq.c:63-89 | the register writes of opening are a run of the protocol from any state in which the queue is closed, and leave it empty and enabled with the base address that was written, down to 4096, whatever arm bit or event is left over |
| CplAddress.RecordsGoToTheirSlots | rtl/cpl_queue_manager.v:421-427 | after an opening every later response for the record at position n carries the address written plus n modulo the ring size times the record size, modulo 2^64, until the queue is closed |
| CplTheorems.ExactlyOnceInOrder | modules/mqnic/mqnic_tx.c:251-285 | over every run the driver has got records 0, 1, ... each once, in order and as written, through 16-bit and 32-bit wrap |
| CplTheorems.WrittenIsForever | modules/mqnic/mqnic_tx.c:254-281 | what was written for a position never changes until the queue is opened again |
| CplTheorems.RingNeverOverflows | rtl/cpl_queue_manager.v:269-272 | started minus consumed stays between 0 and the ring size, even when software is ahead of the stored producer pointer |
| CplTheorems.NoUnreadRecordOverwritten | rtl/cpl_queue_manager.v:424 | the slot a writer is about to fill holds no unread record |
| CplTheorems.NoLostWakeup | rtl/cpl_queue_manager.v:465-474 | an idle driver with no event on its way has consumed every finalized record, the queue is armed with equal pointers, and the next finalize rings |
| CplTheorems.OneEventPerArm | rtl/cpl_queue_manager.v:557-572 | over every run in which the queue is opened with no event left over, whatever the arm bit, an armed queue has equal pointers and no event on its way, and an event on its way means disarmed; opened without an arm bit either, both mean that the driver is idle |
| CplTheorems.CleanIffNoEventLeft | modules/mqnic/mqnic_cq.c:63-89 | opening a closed queue and writing its first arm gives this if and only if no event was left over |
| CplTheorems.Closing | modules/mqnic/mqnic_cq.c:97-102 | a queue with nothing outstanding can be closed; closed while idle it keeps its arm bit or its event |
| CplTheorems.LeftoverEventFails | modules/mqnic/mqnic_cq.c:97-102 | from every state in which a queue with nothing outstanding has an event on its way, closing, opening and arming it gives both an arm and an event |
| CplScenarios.LeftoverEvent | modules/mqnic/mqnic_cq.c:97-102 | a run from reset (open, arm, request, write, commit, finalize, close, open, arm) that ends with an arm and an event |
| CplScenarios.StepLooks | rtl/cpl_queue_manager.v:419-474 | on a queue of one slot each step of hardware, writer and driver is possible when the small state machine says so, and does what it says |
| CplScenarios.SharedSlot | rtl/cpl_queue_manager.v:442-453 | a run of hardware, writer and driver from reset after which two outstanding operations share a slot, the driver having got both records before |
| CplArms.ArmsEventsWakes | rtl/cpl_queue_manager.v:557-572 | over every run, openings and closings included, events rung and the arm bit left are no more than arm commands and the arm bit at the start; every event rung woke the driver, is still on its way, or was rung while another was |
| CplArms.EveryEventWakes | rtl/cpl_queue_manager.v:465-474 | while the queue is opened with neither arm bit nor event left over, no event is rung while another is on its way |
| CplLiveness.LoopEnds | modules/mqnic/mqnic_tx.c:319-334 | the driver's loop as it is coded goes back to waiting within three steps for each record it has not consumed and five more; it has then taken every written record up to the first gap, and the queue is armed exactly when it has consumed just what is finalized, an event being on its way otherwise |
| CplLiveness.CatchesUp | modules/mqnic/mqnic_tx.c:319-334 | an active driver has every finalized record after at most two passes |
| CplLiveness.RequestTaken | rtl/cpl_queue_manager.v:404-453 | a request is accepted exactly while the table is not full, and starts a record exactly while the ring has room |
| CplLiveness.AnyOrder | rtl/cpl_queue_manager.v:616-621 | outstanding operations can be written and committed in any order, and exactly those are then committed |
| CplLiveness.NothingIsStuck | rtl/cpl_queue_manager.v:394-474 | from every reachable state at most three hardware steps for each outstanding operation and then the driver's loop lead to a waiting driver that has every record started, an armed queue and an empty table |
| CplTheorems.SlotsDistinctIffFewEnough | rtl/cpl_queue_manager.v:424 | outstanding operations of a queue hold pairwise distinct slots if and only if there are no more of them than slots |
| CplTheorems.SlotsDistinctWhenConsumerBehind | rtl/cpl_queue_manager.v:442-453 | a consumer that does not run ahead of finalization keeps the slots distinct |
| CplTheorems.SharedSlotIsConsumed | rtl/cpl_queue_manager.v:442-453 | of two outstanding operations at one slot the older record has been consumed |
| CplTheorems.FinalizingEmpties | rtl/cpl_queue_manager.v:394-403 | as many finalizes as there are operations bring every producer pointer to its last started record |
| CplTheorems.Drains | rtl/cpl_queue_manager.v:394-403 | once all are committed, that many finalizes, each enabled, empty the hardware table |
| CplTableSize.RecoveredIffBelow256 | rtl/cpl_queue_manager.v:217 | in every state the operation that a queue with nothing outstanding starts is found again by the stored index if and only if its entry is below 256 |
| CplTableSize.RecoveryFailsBeyond256 | rtl/cpl_queue_manager.v:217 | every table of more than 256 entries gets from reset to an operation that the stored index does not find |
| CplEndToEnd.PipelineImplementsFifo | rtl/cpl_queue_manager.v:419-716 | the clocked pipeline holds the list machine's state under any law-abiding input sequence, up to one finalize in flight |
| CplClocked.ClockedIsProtocol | rtl/cpl_queue_manager.v:363-716 | a clocked trace whose serial operations are those of a protocol run from reset holds the protocol's queue RAM, and its table up to a finalize in flight |
| CplClocked.ClockedNoLostWakeup | rtl/cpl_queue_manager.v:465-474 | at the clock edges, the RAM word of an idle driver's queue with no event on its way is armed with equal pointers, and every finalized record is consumed |
| CplClocked.ClockedExactlyOnce | modules/mqnic/mqnic_tx.c:251-285 | at the clock edges, the driver has got records 0, 1, ... once and in order, and the RAM's pointers are the residues of what was finalized and released |
| CplClocked.ClockedEvents | rtl/cpl_queue_manager.v:332-403 | the events the protocol run rings are those the clocked sink gets, up to the one in the register, if and only if every ringing register write is safe |
| CplDriver.LapEnds | modules/mqnic/mqnic_eq.c:209-213 | a slot that passes the phase test fails it one lap later |
| CplDriver.RingConsumer.constructor | modules/mqnic/mqnic_cq.c:63-66 | the buffer filled with ones has no phase bit set |
| CplDriver.RingConsumer.Process | modules/mqnic/mqnic_tx.c:254-285 | whatever the ring memory holds at each phase test, the budgeted loop takes the records that pass it, from the consumer position on, and writes the pointer back once |
| CplDriver.RingConsumer.ProcessAll | modules/mqnic/mqnic_eq.c:209-249 | so does the unbounded loop, which ends at most one lap after the memory has changed for the last time, at a record that is not ready |
| CplDriver.DrainedIsShort | modules/mqnic/mqnic_eq.c:209-249 | with any budget at most one lap of records is taken after the last change of the memory |
| CplDriver.LoopIsPolls | modules/mqnic/mqnic_tx.c:254-281 | in a run of the protocol, hardware and writer going on between the tests, the loop takes exactly what the Poll steps hand to the driver: the records that follow, as written, in order, up to its budget or to one not yet written |
| CplDriver.DrainsTheBacklog | modules/mqnic/mqnic_tx.c:254-281 | in any protocol state, with no record written meanwhile, a loop takes exactly the written records that follow without a gap, up to its budget |
| RingWindow.Fill | modules/mqnic/mqnic_tx.c:435-487 | the slot at the producer position is empty and becomes that position's |
| RingWindow.Empty | modules/mqnic/mqnic_tx.c:262-272 | emptying an occupied slot frees one position of the window that was not freed before |
| RingWindow.Skip | modules/mqnic/mqnic_tx.c:291-299 | the consumer pointer passes only a freed position |
| RingWindow.AdvanceOver | modules/mqnic/mqnic_tx.c:288-302 | the advance loop over the wrapped pointers stops at the first position that is not freed, or at the producer |
| RingWindow.SlotMeaning | modules/mqnic/mqnic_tx.c:288-302 | slots outside the window are empty, and an occupied one holds its position's item |
| RingWindow.PointerArithmetic | modules/mqnic/mqnic_tx.c:169-172 | wrapped u32 differences and masks are those of the counters |
| TxRing.TxRing.MapSkb | modules/mqnic/mqnic_tx.c:336-403 | a failed mapping undoes the ones before it and empties the slot |
| TxRing.TxRing.StartXmit | modules/mqnic/mqnic_tx.c:405-529 | transmit never overwrites a live slot, queues exactly one skb or none, and tells the device exactly when no more are announced or the queue stops |
| TxRing.TxRing.Enqueue | modules/mqnic/mqnic_tx.c:486-520 | the queue is stopped exactly when half the ring is in use |
| TxRing.TxRing.FreeTxDesc | modules/mqnic/mqnic_tx.c:191-210 | frees the skb of an occupied slot, unmaps its head and fragments, and logs a position not freed before; on an empty slot it unmaps what is not mapped |
| TxRing.TxRing.AdvanceConsumer | modules/mqnic/mqnic_tx.c:288-302 | the consumer stops at the first position that is not freed |
| TxRing.TxRing.ProcessTxCq | modules/mqnic/mqnic_tx.c:227-312 | whatever the completions name, in any order, the ring stays well formed, each skb is freed at most once and the queue is woken exactly when it has room; nothing stale is unmapped if and only if they name posted slots, each once, and then exactly those are freed |
| TxRing.OnlyLiveIffCompletes | modules/mqnic/mqnic_tx.c:191-210 | completions unmap only live mappings if and only if they name posted slots, each once, and they then free the positions they name |
| TxRing.TxRing.Wake | modules/mqnic/mqnic_tx.c:307-309 | at the end of a poll the queue is stopped exactly when half the ring is in use |
| TxRing.FreedExactlyOnce | modules/mqnic/mqnic_tx.c:254-302 | every position passed by the consumer is in the log of freed positions exactly once |
| TxFlow.StepKeepsInv | modules/mqnic/mqnic_tx.c:486-520 | each single step of transmit and poll keeps the flow invariant |
| TxFlow.TransmitHasRoom | modules/mqnic/mqnic_tx.c:486-520 | in every interleaving a transmit that begins finds at most half the ring in use |
| TxFlow.StoppedMeansFull | modules/mqnic/mqnic_tx.c:512-520 | when neither routine is running, a stopped queue is full |
| TxFlow.TransmitAlone | modules/mqnic/mqnic_tx.c:486-520 | a transmit alone takes two steps and stops nothing while the ring stays below half, and otherwise four and stops the queue |
| TxFlow.PollAlone | modules/mqnic/mqnic_tx.c:301-309 | a poll alone leaves the queue stopped exactly when it was and half the ring is still in use |
| TxFlow.RunningMeansBelowHalf | modules/mqnic/mqnic_tx.c:307-309 | between transmits a running queue is strictly below half full if and only if no poll has woken it at a full ring with nothing freed and no stop since, which polls taken as one step never do |
| TxFlow.StrictBoundFails | modules/mqnic/mqnic_tx.c:307-309 | a run with a late wake in which it is exactly half full |
| TxShared.StepKeepsInv | modules/mqnic/mqnic_tx.c:254-309 | transmit, freeing in any order, publishing the consumer and each access of stop and wake keep slots and counters together |
| TxShared.SlotsAreOwned | modules/mqnic/mqnic_tx.c:435-487 | over every interleaving of transmit and poll a transmit that may begin finds its slot empty, and a slot is occupied exactly by the position that is posted and not freed, with its skb |
| TxShared.RingDrains | modules/mqnic/mqnic_tx.c:254-309 | from every reachable state both routines end, and a poll that frees what is posted leads to an empty ring and a running queue |
| RxRing.ConsumeKeepsWindow | modules/mqnic/mqnic_rx.c:318-392 | whatever the completions name, the loop empties only occupied slots, each once |
| RxRing.ConsumeStops | modules/mqnic/mqnic_rx.c:318-392 | with pages that hold a frame, a completion of a posted slot for a full frame empties that slot and counts one, one of a short frame counts one and empties nothing, and the loop stops at the first other one |
| RxRing.RxRing.PrepareDesc | modules/mqnic/mqnic_rx.c:225-269 | a slot gets a page and its length only if it was empty and page and mapping are had, and nothing else changes |
| RxRing.RxRing.Refill | modules/mqnic/mqnic_rx.c:271-291 | with eight or more pages missing it posts as many as are missing and can be had, tells the device, and fails exactly when one cannot be had; the branch for a page not yet processed is never taken |
| RxRing.RxRing.HandUpPages | modules/mqnic/mqnic_rx.c:318-392 | the completion loop with short frames, null pages and failed allocations stops at the first completion that cannot be used up, and has emptied exactly the slots of the full frames before it |
| RxRing.RxRing.AdvanceConsumer | modules/mqnic/mqnic_rx.c:398-413 | the consumer stops at the first slot that still has its page |
| RxRing.RxRing.ProcessRxCq | modules/mqnic/mqnic_rx.c:293-419 | on every run of completions, drops and refill failures the completions are used up to the first that cannot be, the consumer passes the freed positions, what is missing then is refilled as far as it can be had, and the log of handed-up positions only grows |
| RxRing.UnpostedSlotsAreEmpty | modules/mqnic/mqnic_rx.c:398-413 | slots outside the posted positions have no page |
| PacketPool.PostConserves | tb/mqnic_core_pcie_us_schedule/mqnic.py:795-824 | posting a packet finds an empty slot and keeps every packet in one place |
| PacketPool.FreeDescConserves | tb/mqnic_core_pcie_us_schedule/mqnic.py:853-856 | so does freeing a slot |
| PacketPool.CompleteEmpties | tb/mqnic_core_pcie_us_schedule/mqnic.py:853-893 | completions can be processed exactly when they name occupied slots, each once; the slots named are then empty, their packets are free in that order, and nothing else has changed |
| PacketPool.RefillFills | tb/mqnic_core_pcie_us_schedule/mqnic.py:1060-1070 | with eight or more packets missing a refill posts one at each missing position and changes no other slot; otherwise it changes nothing |
| PacketPool.AdvanceKeepsRing | tb/mqnic_core_pcie_us_schedule/mqnic.py:900-910 | the consumer pointer stops at an occupied slot or the producer, and slots outside the range stay empty |
| PacketPool.RunsConserve | tb/mqnic_core_pcie_us_schedule/mqnic.py:1810-1821 | over every run across all rings, with a transmit or another ring's completion between any completion loop, consumer advance and refill, each packet given out is on the free list or in one slot, and there are never more packets than slots |
| PacketPool.Driver.Await | tb/mqnic_core_pcie_us_schedule/mqnic.py:896-897 | whatever the other routines do while a pointer write is awaited, the packets stay conserved |
| PacketPool.SlotsHoldDifferentPackets | tb/mqnic_core_pcie_us_schedule/mqnic.py:1810-1821 | different slots hold different packets, none of them free |
| PacketPool.Driver.AllocPkt | tb/mqnic_core_pcie_us_schedule/mqnic.py:1810-1816 | takes from the free list, or a new region when it is empty |
| PacketPool.Driver.Transmit | tb/mqnic_core_pcie_us_schedule/mqnic.py:1552-1565 | with room in the ring the slot assertion of tx_transmit holds |
| PacketPool.Driver.ProcessTxCq | tb/mqnic_core_pcie_us_schedule/mqnic.py:865-912 | completions, whatever runs while the pointer write is awaited, and the advance: the pool is that of these steps, and conserved |
| PacketPool.Driver.RefillBuffers | tb/mqnic_core_pcie_us_schedule/mqnic.py:1060-1070 | receive descriptors overwrite no packet |
| PacketPool.Driver.ProcessRxCq | tb/mqnic_core_pcie_us_schedule/mqnic.py:1073-1136 | completions, whatever runs while the pointer write is awaited, the advance and the refill: the pool is that of these steps, and conserved |
| CplOpMux.OpMux.constructor | rtl/cpl_op_mux.v:170-184 | the registers start empty |
| CplOpMux.OpMux.Clock | rtl/cpl_op_mux.v:160-253 | a clock edge over the port registers is the step function |
| CplOpMux.PassedShifts | rtl/cpl_op_mux.v:196-222 | a cycle appends what the mux passes to delivered ++ output ++ temp and changes nothing else of it |
| CplOpMux.NothingLostOrDuplicated | rtl/cpl_op_mux.v:109-253 | over every run, for every port, what passed the mux and then its input register is exactly what was accepted, in order; temp is never filled while valid |
| CplOpMux.ExtendRoundTrip | rtl/cpl_op_mux.v:142-147 | the status demultiplexer undoes the tag extension: one port, the original tag |
| CplOpMux.StatusReturnsToSender | rtl/cpl_op_mux.v:266-271 | a status that answers a delivered request is raised at the port whose request it was, with that request's tag |
| CplOpMuxProgress.EmptyInputAccepts | rtl/cpl_op_mux.v:109-133 | an input register that is empty or passed on takes what is offered |
| CplOpMuxProgress.WaitsForGrant | rtl/cpl_op_mux.v:109-133 | a request in an input register stays while its port is not granted or the mux is not ready |
| CplOpMuxProgress.ReadyAfter | rtl/cpl_op_mux.v:196 | the mux is ready after every edge at which the sink is, or at which both output registers are empty |
| CplOpMuxProgress.OutWithinTwo | rtl/cpl_op_mux.v:196-222 | a granted request is in the output register within two edges of the output registers being empty, whatever the sink does |
| CplOpMuxProgress.DeliveredWithin | rtl/cpl_op_mux.v:109-253 | over every run, under a sink that answers a valid request within b edges and a grant that stays, an accepted request is delivered within 3 * b + 1 edges |
| StripedRam.CheckIsExactIff | tb/rxtx_core/dma_psdp_ram.py:192-205 | for every geometry the range check's bound covers the memory, and is its size if and only if the bytes across the lanes are a power of two |
| StripedRam.PastTheEndPassesIff | tb/rxtx_core/dma_psdp_ram.py:251-259 | the first address past the end passes the check if and only if they are not, and then goes to byte 0 |
| StripedRam.WordPlace | tb/rxtx_core/dma_psdp_ram.py:282-321 | lane and row of the k-th word are the word number split over the segments |
| StripedRam.InRange | tb/rxtx_core/dma_psdp_ram.py:275-303 | a byte of a word lies between the offsets exactly when its address is in the range |
| StripedRam.OpHits | tb/rxtx_core/dma_psdp_ram.py:295-317 | an operation touches a byte exactly when the write covers it and it lies in the operation's word, and with the right data |
| StripedRam.WriteMaster.Operation | tb/rxtx_core/dma_psdp_ram.py:296-315 | the running offset picks the bytes of the word |
| StripedRam.WriteMaster.Accept | tb/rxtx_core/dma_psdp_ram.py:271-321 | every lane's queue gets its share of the operations in order |
| StripedRam.RunsOf | tb/rxtx_core/dma_psdp_ram.py:804-823 | the runs cover exactly the enabled bytes |
| StripedRam.Ram.WriteWord | tb/rxtx_core/dma_psdp_ram.py:795-829 | exactly the enabled bytes of the word change |
| StripedRam.Ram.ReadWord | tb/rxtx_core/dma_psdp_ram.py:950-956 | one lane's word of the memory |
| StripedRam.AppendBytes | tb/rxtx_core/dma_psdp_ram.py:545-556 | the reassembly loop appends the kept bytes of a word |
| StripedRam.AssembledByte | tb/rxtx_core/dma_psdp_ram.py:531-556 | byte j of word k lands where its address says |
| StripedLanes.NextOf | tb/rxtx_core/dma_psdp_ram.py:366-393 | the next operation of a lane in issue order |
| StripedLanes.LaneServe | tb/rxtx_core/dma_psdp_ram.py:366-393 | a lane serves its share in issue order however it stalls |
| StripedLanes.LaneCollect | tb/rxtx_core/dma_psdp_ram.py:323-346 | the collector gets the response of the operation it has reached |
| StripedLanes.LaneOwes | tb/rxtx_core/dma_psdp_ram.py:323-346 | what the collector waits for is in its lane |
| StripedLanes.Locate | tb/rxtx_core/dma_psdp_ram.py:271-321 | where an operation of a command stands in the issue order |
| StripedWrite.PartOfWrite | tb/rxtx_core/dma_psdp_ram.py:271-321 | after the first k words of a write exactly the covered bytes of those words are new |
| StripedWrite.PositionIsFlat | tb/rxtx_core/dma_psdp_ram.py:348-393 | wherever a lane stands, its bytes are those of the flat memory after some number of whole writes, at least the completed ones |
| StripedWrite.EveryByteIsFlat | tb/rxtx_core/dma_psdp_ram.py:348-393 | so at every moment for every byte of the memory |
| StripedWrite.CompletedWritesAreFlat | tb/rxtx_core/dma_psdp_ram.py:323-346 | with all writes complete the memory is the flat memory after them |
| StripedWrite.WritesNeverStick | tb/rxtx_core/dma_psdp_ram.py:323-346 | an incomplete write can go on, or its lane holds work |
| StripedRead.LaneEdge | tb/rxtx_core/dma_psdp_ram.py:932-972 | a clock edge of a read lane loses, duplicates and overwrites no word |
| StripedRead.KeptContinues | tb/rxtx_core/dma_psdp_ram.py:541-556 | the kept bytes of the next word continue the assembled data |
| StripedRead.PlanOfOk | tb/rxtx_core/dma_psdp_ram.py:506-529 | the words of a read fit together to its len bytes, for every alignment and length, zero included |
| StripedRead.ReadsNeverStick | tb/rxtx_core/dma_psdp_ram.py:531-571 | an incomplete read can go on, or its lane holds or has still to fetch the word |
| StripedSystem.AcceptedIffInside | tb/rxtx_core/dma_psdp_ram.py:251-267 | a command is accepted exactly when its first byte and its end lie in the memory, and otherwise changes nothing |
| StripedSystem.StepKeepsInv | tb/rxtx_core/dma_psdp_ram.py:573-625 | every step of both sides keeps the invariant |
| StripedSystem.WritesAreFlat | tb/rxtx_core/dma_psdp_ram.py:271-346 | over every run, for any segment count and width and any stalls, completed writes leave the flat memory |
| StripedSystem.ReadsAreFlat | tb/rxtx_core/dma_psdp_ram.py:506-571 | over every run the reads finish in order with len bytes, each one the flat memory held since the read was asked for |
| StripedSystem.QuietReadIsFlat | tb/rxtx_core/dma_psdp_ram.py:506-571 | over every run, a read asked for after the last write completed returns exactly the flat memory's bytes, whatever stalls |
| StripedProgress.WriteEdgeWorks | tb/rxtx_core/dma_psdp_ram.py:366-393 | an edge never adds work to a write lane, and takes some away when neither side stalls |
| StripedProgress.ReadEdgeWorks | tb/rxtx_core/dma_psdp_ram.py:932-972 | nor to a read lane; one without a stall raises both ready lines, and the next takes work away |
| StripedProgress.EveryCommandFinishes | tb/rxtx_core/dma_psdp_ram.py:271-346 | from every reachable state, after enough edges without a stall on every lane for the work it holds and enough turns of the collectors, whatever stalls lie in between, every write is complete and every read has returned |
| WfqRank.BuildEntries | tb/mqnic_core_pcie_us_schedule/test_mqnic_core_pcie_us.py:1356-1374 | the accumulated finish times are the multiples of 1 / weight |
| WfqRank.EntriesAreThePackets | tb/mqnic_core_pcie_us_schedule/test_mqnic_core_pcie_us.py:1359-1374 | the entries are exactly the packets of the queues, each once |
| WfqRank.SortedIsOrdered | tb/mqnic_core_pcie_us_schedule/test_mqnic_core_pcie_us.py:1376-1380 | the sorted entries hold every packet exactly once and in strictly increasing order of the keys, and are as many as the packets of all queues together |
| WfqRank.RanksAreABijection | tb/mqnic_core_pcie_us_schedule/test_mqnic_core_pcie_us.py:1376-1380 | every packet has one rank of 1..N and every rank one packet, N being the sum of the packet counts |
| WfqRank.RanksIncreaseInQueue | tb/mqnic_core_pcie_us_schedule/test_mqnic_core_pcie_us.py:1376-1380 | ranks increase strictly with the packet number within a queue |
| WfqRank.RankRule | tb/mqnic_core_pcie_us_schedule/test_mqnic_core_pcie_us.py:1376-1380 | of two packets the one with the earlier finish time at its queue's weight has the lower rank, on equal finish times the one of the lower queue, within a queue the earlier packet, in whole numbers |
| WfqRank.NumberIsCount | tb/mqnic_core_pcie_us_schedule/test_mqnic_core_pcie_us.py:1376-1380 | packet n of a queue is the one with n of its packets ranked before it |
| WfqRank.AheadByAtMost | tb/mqnic_core_pcie_us_schedule/test_mqnic_core_pcie_us.py:1376-1380 | no queue is ahead of one with packets left by more than that one's 1 / weight |
| WfqRank.Fairness | tb/mqnic_core_pcie_us_schedule/test_mqnic_core_pcie_us.py:1376-1380 | at every rank, service per weight of two queues with packets left differs by at most the larger 1 / weight |
| WfqRank.DrainedQueueIsNotAhead | tb/mqnic_core_pcie_us_schedule/test_mqnic_core_pcie_us.py:1376-1380 | a queue that has run out has not run ahead of one with packets left |
| ModuleEeprom.PlaceShowsLinear | modules/mqnic/mqnic_ethtool.c:506-536 | address, page and offset show the linear byte, up to the end of the page, byte 127 of a QSFP excepted |
| ModuleEeprom.ByPageIffAccepted | modules/mqnic/mqnic_ethtool.c:417-488 | on a working bus a read by page succeeds exactly for the modules and places the driver accepts, with the page selected exactly when a QSFP read ends at byte 128 or past it; a refused one touches nothing |
| ModuleEeprom.ReadLength | modules/mqnic/mqnic_ethtool.c:490-537 | on a working bus a read on a known module returns the bytes asked for, at most 32 and at most up to the end of the page, never none |
| ModuleEeprom.ShownIsLinearIff | modules/mqnic/mqnic_ethtool.c:453-463 | a byte shown under any page register is the linear one if and only if it lies in the lower half or the two pages agree on it |
| ModuleEeprom.ChunkRightIff | modules/mqnic/mqnic_ethtool.c:490-537 | a read comes back right if and only if the page register fits it |
| ModuleEeprom.SelectSuffices | modules/mqnic/mqnic_ethtool.c:453-463 | it fits when a select that has to change it succeeds |
| ModuleEeprom.FilledRightIff | modules/mqnic/mqnic_ethtool.c:595-611 | all bytes of a whole call are right if and only if the register fits at each of its reads |
| ModuleEeprom.ToldRightIff | modules/mqnic/mqnic_ethtool.c:595-611 | so for the reads the driver's loop makes, and they are right when every select that has to change the register succeeds |
| ModuleEeprom.LostSelect | modules/mqnic/mqnic_ethtool.c:453-463 | a call in which a select is lost: no error, and a byte that is not the one there |
| ModuleEeprom.Module.ReadBlock | modules/mqnic/mqnic_ethtool.c:376-388 | at most a block of consecutive bytes at the client's address |
| ModuleEeprom.Module.SelectPage | modules/mqnic/mqnic_ethtool.c:453-463 | the page register is the page asked for unless the write is lost |
| ModuleEeprom.Module.QueryByPage | modules/mqnic/mqnic_ethtool.c:417-488 | the register is right whenever the upper half is read, errors are exactly those of the code, and the client's address is restored |
| ModuleEeprom.Module.QueryLinear | modules/mqnic/mqnic_ethtool.c:490-537 | a prefix of the bytes asked for, clipped to the page, and they are the linear ones if and only if the page register fits the read |
| ModuleEeprom.Module.GetModuleEeprom | modules/mqnic/mqnic_ethtool.c:586-613 | the chunk loop ends; data[i] is linear byte offset + i if and only if the register fits at each read, and is when every select that has to change it succeeds; all is filled unless a read came back empty; it fails only when the bus, the module or the request does |
| TimestampCache.Ring.ReadCplTs | modules/mqnic/mqnic_ptp.c:9-27 | refreshes exactly when the cache is invalid or bits 8 to 15 differ and there is a clock |
| TimestampCache.CachedExactIff | modules/mqnic/mqnic_ptp.c:15-24 | without a refresh the second is exact if and only if the cache is of its 256-second block |
| TimestampCache.RefreshedExactIff | modules/mqnic/mqnic_ptp.c:16-24 | after a refresh it is exact if and only if the clock agrees above bit 15 and adds no bit of 8 to 15 |
| TimestampCache.EverySecondExact | modules/mqnic/mqnic_ptp.c:9-27 | over every run of seconds at most 65280 apart, with the clock read within the completion's block, every second is exact |
| TimestampCache.OneSecondFurtherFails | modules/mqnic/mqnic_ptp.c:15-24 | with 65281 it is not |
| TimestampCache.NoClockExactIff | modules/mqnic/mqnic_ptp.c:17-24 | without a clock it is exact if and only if the second fits in 16 bits |
| RegBlock.Grow | modules/mqnic/mqnic_reg_block.c:52-60 | the grown array keeps its entries |
| RegBlock.Lookup | modules/mqnic/mqnic_reg_block.c:35-42 | finds a block at the offset, or says there is none |
| RegBlock.Enumerate | modules/mqnic/mqnic_reg_block.c:8-69 | terminates for every register map, writes within the array, and gives the chain in order with a terminator, or the loop error only if the chain never ends |
| RegBlock.Visit | modules/mqnic/mqnic_reg_block.c:23-52 | an offset ends the chain, proves that it never ends, or adds the next block |
| RegBlock.EndsIffNoRepeat | modules/mqnic/mqnic_reg_block.c:30-42 | the chain ends exactly when no offset comes back before its end, a return to offset 0 being an end |
| RegBlock.OneListOnly | modules/mqnic/mqnic_reg_block.c:23-64 | there is only one list that the enumeration can return |
| RegBlock.Find | modules/mqnic/mqnic_reg_block.c:71-87 | the match with exactly index matches before it, or NULL exactly when there are too few |

## Left out

- CplProtocol.StepKeepsInv: assumes that events reach the driver and that a queue is closed only with nothing outstanding and reprogrammed only while closed. The writer's records are atomic.
- CplTheorems.WrittenIsForever: until the queue is opened again, which starts a new ring.
- CplDrain.DrainsAtTheClock: register writes still in flight are driver's commands, and no request is in flight, which would start an operation that is not committed.
- CplLiveness.NothingIsStuck: the budget is positive, and the driver runs by itself once the hardware has finished.
- CplOpMuxProgress.DeliveredWithin: the arbiter keeps its grant until the request has passed, and the sink answers a valid request within a bound, as the queue manager does.
- CplClocked.ClockedNoLostWakeup: the driver's steps are those of the protocol; that a sink which takes an event wakes it is the protocol's Wake step.
- CplRtl.CplQueueManagerRtl.Clock: bus handshakes are accepted-once inputs; AXI-Lite channel timing, reset in mid-operation and truncation by a narrow EVENT_WIDTH are not modelled. The four one-hot operation bits of a stage are one value of a sum type.
- CplEndToEnd.PipelineImplementsFifo: the environment commits outstanding tags only and its control writes are the driver's commands; log sizes are at most 15.
- TxRing.TxRing.ProcessTxCq: `mqnic_free_tx_buf` at teardown, which frees slots without looking whether they are empty, is left out.
- TxShared.SlotsAreOwned: mapping an skb and advancing the producer are one step, and so is freeing a slot; the descriptor is written before the producer is advanced.
- TxFlow.TransmitHasRoom: memory accesses are sequentially consistent; barriers are not modelled.
- RxRing.RxRing.ProcessRxCq: a short frame keeps its page, so the ring need not make progress after it.
- CplDriver.RingConsumer.Process: a record is read as a whole with its phase bit, as the read barrier ensures. The handlers called for a record are left out; records are payload numbers.
- PacketPool.Driver.Transmit: the wait for room in `start_xmit` is the precondition; coroutines run one step at a time between awaits.
- StripedWrite.CompletedWritesAreFlat: the write-done pulse of a lane is kept as a flag that becomes a response one edge later; lane words are sequences of bytes, not packed integers. Reset and the debug output are left out.
- StripedSystem.ReadsAreFlat: lane edges of writes and reads are separate steps in any order, which covers every order within one clock edge. The copy of these models under the tx core is the same algorithm and is not repeated.
- WfqRank.Fairness: finish times are exact rationals; rounding of floating point is not modelled. `sorted` is taken by what it promises, the same entries, with multiplicity, in the order of their keys.
- ModuleEeprom.Module.GetModuleEeprom: requests lie within the size reported for the module, as the ethtool core ensures; the identifier read at offset 0 succeeds or fails, it does not come back empty. Writing to the EEPROM is left out.
- TimestampCache.Ring.ReadCplTs: the two 32-bit reads of the clock are one reading.
- RegBlock.Enumerate: base plus offset does not wrap, so comparing pointers is comparing offsets.
- CplOpMux.NothingLostOrDuplicated: the arbiter is its promise, at most one grant that matches grant_encoded; a register with its valid bit off is empty.
- The scheduler, `queue_manager.v`, `cpl_write.v`, `desc_fetch.v` and `arbiter.v` appear only as what they promise their neighbours.
- Board, PCI, devlink, I2C adapter, interrupt and netdev registration code, descriptor byte layouts, logging and plotting.
