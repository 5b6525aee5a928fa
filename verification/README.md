# GD32F4xx gateway firmware: a Dafny model

The firmware polls serial units over RS-485, protects every frame with a table-driven CRC-8, drives an
Ethernet MAC with the lwIP stack, and falls back from DHCP to a static address. The project models the parts
of it that carry state, concurrency or arithmetic and proves what they guarantee over every message, every
poll history and every interleaving.

| file | models |
|---|---|
| `bits.dfy`, `crc8_table.dfy`, `crc8.dfy`, `crc8_errors.dfy` | the CRC-8 table and loop, what they compute, and which transmission errors a frame's check byte finds |
| `timers.dfy`, `dhcp_fallback.dfy`, `netconf.dfy` | periodic timers over a wrapping 32-bit clock, the DHCP machine they drive, and the poll that runs both |
| `handoff.dfy` | frames handed from the receive interrupt to the main loop through a bounded queue and a buffer pool |
| `enet_rx.dfy`, `enet_wakeup.dfy`, `polling.dfy` | the receive descriptor ring, the interrupt handler that drains it, and the polled main loop |
| `zerocopy.dfy` | DMA descriptors wrapped in pool buffers and returned by a free callback |
| `words.dfy`, `fields.dfy`, `can.dfy`, `nvic.dfy` | 32-bit words bit by bit, register fields, MAC address slots, CAN mailboxes, interrupt controller access |

Code that changes state is a class (or a method with a loop) proved against a function of the old state; the
properties are lemmas about those functions, for all runs. Protocols are step functions with a `Run` over any
event sequence, an invariant kept by every step, and the class methods tied to the steps.

## Where the code does less than its purpose

Each of these is stated as an exact condition, with the failing inputs.

- Two flipped bits at distance 127 leave the check byte unchanged (`TwoBitErrors`), so the two-bit guarantee
  ends at 15 bytes. The protocol's frames have 20 and 32 bytes (`FrameTwoBitErrors`).
- `Check_message_UART` (src/uart.c) has a branch for the servo reply that no slot number reaches
  (`CheckMessageUart`).
- Without `USE_ENET_INTERRUPT`, which is how inc/main.h:19 leaves it, the main loop calls `lwip_frame_recv` also
  after a frame was dropped. Frames arriving at any step, it hands over exactly the good frames if and only if no
  bad frame can arrive (`PollingExactIff`). `enet_default_init` keeps frames with errors out of memory
  (`DMA_CTL_MASK`, gd32f4xx_enet.h:1435, clears FERF), but not frames too long for one 1524-byte buffer, which the
  watchdog setting allows up to 2048 bytes: each takes two bad descriptors, and the second is handed over when both
  are there (`OversizedFrame`). Worse, `lwip_frame_recv` reads the length of the current descriptor, copies, and then
  looks at the descriptor again to release it: a good frame that arrives in between, behind a dropped one, is
  released unread (`GoodFrameLost`). Polling hands over every good frame it takes off the ring if and only if the
  frames that can arrive are all good or all bad (`GoodHandedIff`). In the interrupt handler the head is already the
  CPU's when it is read, so neither happens there.
- `enet_rxframe_size_get` cannot tell a good frame of computed length 0 from an empty ring, nor length 1 from a
  dropped frame. This matters only if `ENET_FORWARD_UNDERSZ_GOODFRAMES` is switched on, which the firmware does not
  do: with undersized forwarding off the handler always ends and no wake-up is lost, with it on neither holds
  (`HandlerEndsAsConfigured`, `NoLostWakeUpAsConfigured`).
- `lwip_dhcp_address_get` ignores the result of `dhcp_start`. If that leaves no client, the next fine tick without an
  address reads `tries` through a NULL pointer (`FaultIff`, `ClientNeeded`).
- The free callback returns the descriptor before the pool entry. Unless `SYS_ARCH_PROTECT` covers both, the
  unchecked allocation needs one pool entry more than descriptors for each thread that frees (`AllocationSafeIff`).
  The lock around the dequeue
  is needed exactly when queue and pool both have room for two (`LockNeededIff`).
- `enet_mac_address_set` overwrites the whole high register and so switches off the slot's filter
  (`SetClearsFilter`); `enet_address_filter_config` damages the address if its arguments reach into the low 16
  bits (`ConfigKeepsAddressIff`).
- `nvic_irq_enable` replaces a priority grouping it does not know, which changes the meaning of every other
  interrupt's priority (`GroupingKeptIff`).

## Model

| member | source | states |
|---|---|---|
| `Crc8Table.EntryIsPower` | inc/uart.h:31-64 | each of the 256 table entries is its index times x^8 modulo x^8+x^5+x^4+1 |
| `Crc8Table.OrderOfX` | inc/uart.h:31-64 | x^n is 1 modulo the polynomial if and only if 127 divides n |
| `Crc8Table.OrderFromTop` | inc/uart.h:31-64 | the same from x^7, where message bits enter: x^7*x^n is x^7 if and only if 127 divides n |
| `Crc8.TableCrcIsBitSerial` | inc/uart.h:31-65 | the table-driven CRC equals the bit-serial register, for every message and initial value |
| `Crc8.TableCrcIsRemainder` | inc/uart.h:31-65 | it equals the remainder of schoolbook polynomial division |
| `Crc8.ComputeCrc8` | inc/uart.h:65 | the loop of `Crc8` returns the CRC of the first `size` bytes for the initial value 0xFF |
| `Crc8Errors.KnownAnswers` | inc/uart.h:31-65 | the loop's results as numbers: 0xAC for a zero byte, 0xF7 for the digits 1 to 9 |
| `Crc8Errors.CrcDifference` | inc/uart.h:31-65 | CRC(i,a) xor CRC(i,b) = CRC(0, a xor b) for equal-length messages and every i |
| `Crc8Errors.TwoBitErrors` | inc/uart.h:31-65 | two flipped bits go unnoticed if and only if their distance is a multiple of 127, for every length and initial value |
| `Crc8Errors.BitCrcParity` | inc/uart.h:31-65 | the register's parity is that of its start value plus that of the bits fed |
| `Crc8Errors.OddErrors` | inc/uart.h:31-65 | an odd number of flipped bits is always noticed |
| `Crc8Errors.BurstOfEight` | inc/uart.h:31-65 | an error within 8 consecutive bits, across byte boundaries too, is noticed unless it is empty |
| `Crc8Errors.BurstOfNine` | inc/uart.h:31-65 | within 9 consecutive bits exactly one error goes unnoticed, the polynomial itself |
| `Crc8Errors.Residue` | inc/uart.h:31-65 | the CRC over a message and one more byte is zero if and only if that byte is the message's CRC, for every initial value |
| `Crc8Errors.AcceptsIffResidueZero` | inc/uart.h:31-65 | a frame is accepted if and only if the CRC over all of it, from 0xFF, is zero |
| `Crc8Errors.FrameAccepted` | inc/uart.h:31-65 | what a sender frames is accepted, and no other check byte is |
| `Crc8Errors.FrameTwoBitErrors` | inc/uart.h:31-65 | two bit errors in an accepted frame: never missed up to 15 bytes, missed at distance 127 in 20 bytes and 127 or 254 in 32 |
| `Crc8Errors.FrameOddErrors` | inc/uart.h:31-65 | an odd number of bit errors in an accepted frame of any length is always noticed |
| `Crc8Errors.FrameBurst` | inc/uart.h:31-65 | so is every change within 8 consecutive bits of it |
| `Crc8Errors.ShortFrameDistance` | inc/uart.h:31-65 | one, two or three bit errors in a frame of at most 15 bytes are always noticed |
| `Crc8Errors.CheckByteMatches` | inc/uart.h:65 | the receiver's check is true if and only if the frame is accepted |
| `Crc8Errors.CheckMessageUart` | inc/uart.h:8-16 | a reply is dropped if and only if there is none or its check byte is wrong; in slot 12 the BKHO-A handler gets it, in every other slot the BKD handler, which is the polled unit's in all slots but the servo's |
| `Timers.FiringsSpaced` | src/netconf.c:138-176 | firings are at least an interval apart, whatever the gaps between polls |
| `Timers.FiringsAgree` | src/netconf.c:138-176 | with gaps of at most 2^32 minus the interval the wrapping test agrees with true time at every poll, through any number of wraps |
| `Timers.FiringsAgreeIff` | src/netconf.c:138-176 | that bound is exact: one millisecond more admits a run that disagrees |
| `Timers.FiringsPrompt` | src/netconf.c:138-176 | the last of k firings is at most k*(I-1+D) after time 0 |
| `Timers.FiringCount` | src/netconf.c:138-176 | after a poll at t a timer has fired k times with k*I <= t < k*(I-1+D)+I |
| `Timers.FastTicksBetweenSlow` | src/netconf.c:141-153 | between two ticks of a slow timer a fast one ticks k times with k*(I_fast-1+D) >= I_slow-I_fast+1 |
| `Timers.ThreeTcpTicksPerArpTick` | src/netconf.c:141-153 | at 250 ms, 1 s and D = 10 ms at least three TCP ticks fall between two ARP ticks |
| `DhcpFallback.RunOutcome` | src/netconf.c:189-232 | every run is in the state its replies dictate: NONE, BEGIN, then GOT or FAIL by the first decisive reply, with the calls in exactly this order; or it has read a NULL client |
| `DhcpFallback.FaultIff` | src/netconf.c:197-215 | a NULL client is read if and only if `dhcp_start` left none and the tick after it brings no address |
| `DhcpFallback.ClientNeeded` | src/netconf.c:197-215 | every run reads `tries` from an existing client if and only if the start leaves one |
| `DhcpFallback.AddressOnlyInGot` | src/netconf.c:189-232 | `ip_address` is nonzero if and only if the status is GOT |
| `DhcpFallback.RunCalls` | src/netconf.c:189-232 | start is called once, on leaving NONE; stop and the static address once each and only in FAIL |
| `DhcpFallback.TriesReadWhileRunning` | src/netconf.c:213-215 | `tries` is read only between start and stop; a run that reads it faults if and only if the start left no client |
| `DhcpFallback.SettledIff` | src/netconf.c:196-231 | the machine has settled if and only if a tick after the first brought a decisive reply and it has not faulted |
| `DhcpFallback.SettledForEver` | src/netconf.c:157-164 | a settled machine never changes again |
| `NetConf.CheckOne` | src/netconf.c:141-144 | the test and store of one timer continue its history as if it ran alone |
| `NetConf.TimeoutsState.constructor` | src/netconf.c:57-68 | the globals start as the histories of no polls |
| `NetConf.TimeoutsState.DhcpAddressGet` | src/netconf.c:189-232 | one call takes the machine's step, whether or not the start leaves a client |
| `NetConf.TimeoutsState.TimeoutsCheck` | src/netconf.c:138-176 | one poll extends all five histories, each equal to the timer run alone, and puts the DHCP machine where the replies at the fine ticks put it; it faults if and only if those replies do |
| `NetConf.NotSettledEarly` | src/netconf.c:157-164 | no run settles before two fine intervals |
| `NetConf.SettledInTime` | src/netconf.c:157-164 | with a decisive reply within K fine ticks of BEGIN and no fault the machine has settled at every poll from (K+1)*(I-1+D) on |
| `HandOff.StepKeepsInv` | lwip-2.2.0/doc/NO_SYS_SampleCode.c:7-18 | every step keeps the invariant: buffers partitioned, frames in order, shape of the queue; with the lock, and without it for a queue or pool of one |
| `HandOff.EveryRun` | lwip-2.2.0/doc/NO_SYS_SampleCode.c:94-114 | in every interleaving each buffer is in exactly one place, the queue stays within capacity, and the frames that found a buffer and room are delivered ++ in flight ++ queued, byte for byte |
| `HandOff.EveryFrameDelivered` | lwip-2.2.0/doc/NO_SYS_SampleCode.c:84-114 | every kept frame is delivered: after eight main-loop steps per undelivered frame, whatever the interrupts and the stack do meanwhile, all frames kept so far are delivered in order |
| `HandOff.AcceptedBelongsToStack` | lwip-2.2.0/doc/NO_SYS_SampleCode.c:111-113 | a buffer that `netif.input` accepted is lwIP's through every later event until lwIP frees it |
| `HandOff.RejectedIsFreed` | lwip-2.2.0/doc/NO_SYS_SampleCode.c:111-113 | one that it rejected is neither lwIP's nor free until the next main-loop step, which frees it |
| `HandOff.RaceWithoutLock` | lwip-2.2.0/doc/NO_SYS_SampleCode.c:95-97 | without the lock, for every queue and pool with room for two, there is a run in which a queued frame is lost and its buffer is nowhere |
| `HandOff.LockNeededIff` | lwip-2.2.0/doc/NO_SYS_SampleCode.c:95-97 | all unlocked runs keep buffers and frames if and only if the queue or the pool has at most one place |
| `HandOff.Driver.EthMacIrq` | lwip-2.2.0/doc/NO_SYS_SampleCode.c:1-19 | the interrupt takes its step and keeps the invariant |
| `HandOff.Driver.MainLoopStep` | lwip-2.2.0/doc/NO_SYS_SampleCode.c:94-114 | every memory access of the receive part of the loop takes its step and keeps the invariant |
| `RxFrames.DrainsIff` | src/gd32f4xx_it.c:180-186 | with no arrivals meanwhile the drain loop empties the ring if and only if no good frame has computed length 0 or 1 |
| `RxFrames.UndersizedIff` | Firmware/GD32F4xx_standard_peripheral/Include/gd32f4xx_enet.h:1383-1385 | every frame that can be stored is bad or has a computed length above 1 if and only if undersized forwarding is off |
| `RxFrames.DroppedIff` | Firmware/GD32F4xx_standard_peripheral/Source/gd32f4xx_enet.c:668-693 | a frame is dropped if and only if its status word has bit 15, lacks bit 8 or bit 9, or has both bit 5 and bit 0 |
| `RxFrames.SizeValue` | Firmware/GD32F4xx_standard_peripheral/Source/gd32f4xx_enet.c:697-706 | the length is the length field less 4 in unsigned 32-bit arithmetic, or the whole field for a type frame whose CRC is dropped |
| `RxFrames.MinimumLength` | Firmware/GD32F4xx_standard_peripheral/Include/gd32f4xx_enet.h:1384 | with undersized forwarding off a good frame has at least 64 bytes |
| `RxFrames.ShortFrames` | Firmware/GD32F4xx_standard_peripheral/Source/gd32f4xx_enet.c:697-702 | good frames of computed length 0 and 1 are those of 4 and 5 bytes |
| `EnetIrq.Receiver.constructor` | Firmware/GD32F4xx_standard_peripheral/Source/gd32f4xx_enet.c:730-790 | all descriptors are the DMA's and nothing is pending |
| `EnetIrq.Receiver.RxFrameSizeGet` | Firmware/GD32F4xx_standard_peripheral/Source/gd32f4xx_enet.c:655-719 | the value for every head frame; a bad head and nothing else is taken off the ring |
| `EnetIrq.Receiver.LowLevelRead` | lwip-2.2.0/port/GD32F4xx/Basic/ethernetif.c:200-213 | the head frame, good or bad, is copied for lwIP, given that `pbuf_alloc` succeeds; on an empty ring an empty frame is |
| `EnetIrq.Receiver.FrameReceive` | Firmware/GD32F4xx_standard_peripheral/Source/gd32f4xx_enet.c:875-940 | the current descriptor is released if and only if the CPU owns it by now |
| `EnetIrq.Receiver.IrqHandler` | src/gd32f4xx_it.c:172-189 | with frames arriving at any step, inside `lwip_frame_recv` too, and given that `pbuf_alloc` succeeds, the handler hands over exactly the good frames it removed, in arrival order, ends within pending + arrivals + 1 turns, leaves no pending frame without its flags, and both flags down if nothing arrived; ring and flags go through the steps of `WakeUp`; with undersized forwarding on, if no frame has length 1, and then it may stop at one of length 0 |
| `WakeUp.NoLostWakeUp` | src/gd32f4xx_it.c:176-186 | in every interleaving a frame waits only with its interrupt up or the handler active, if and only if no frame that can be stored has length 0 |
| `WakeUp.NoLostWakeUpAsConfigured` | src/gd32f4xx_it.c:176-186 | whatever arrives, no run loses a wake-up if and only if undersized forwarding is off |
| `WakeUp.HandlerEndsIff` | src/gd32f4xx_it.c:180-186 | in every interleaving the handler goes idle after two steps per frame pending or arriving and at most two more, if and only if no frame that can be stored has length 1 |
| `WakeUp.HandlerEndsAsConfigured` | src/gd32f4xx_it.c:180-186 | whatever arrives, it does so if and only if undersized forwarding is off |
| `WakeUp.LateClearLosesWakeUp` | src/gd32f4xx_it.c:176-178 | with the flags cleared after the drain instead there is a run that loses a wake-up |
| `Polling.PollingExactIff` | Firmware/GD32F4xx_standard_peripheral/Source/gd32f4xx_enet.c:655-719 | in every run of polls and arrivals, given that `pbuf_alloc` succeeds, polling on "not 0" hands over exactly the good frames it removes if and only if no frame that can arrive is bad |
| `Polling.GoodHandedIff` | lwip-2.2.0/port/GD32F4xx/Basic/ethernetif.c:190-225 | under the same assumption every good frame removed is handed over, once and in order, if and only if no frame that can arrive is bad or none that can be stored is good |
| `Polling.GoodFrameLost` | lwip-2.2.0/port/GD32F4xx/Basic/ethernetif.c:200-219 | a good frame that arrives between the read and the release behind a dropped one is removed and never handed over |
| `Polling.OversizedFrame` | Firmware/GD32F4xx_standard_peripheral/Source/gd32f4xx_enet.c:668-675 | a frame in two descriptors: the first is dropped and the second handed over |
| `Polling.PollOnce` | src/netconf.c:126-130 | one turn of the polled loop on the descriptor ring, frames arriving before the read and before the release, takes the steps of the runs above |
| `Polling.StillRingIff` | Firmware/GD32F4xx_standard_peripheral/Source/gd32f4xx_enet.c:655-719 | a ring to which nothing is added is handed over as exactly its good frames if and only if every bad one is directly followed by a good one and no frame of length 0 comes to the head |
| `Polling.StillRingRun` | Firmware/GD32F4xx_standard_peripheral/Source/gd32f4xx_enet.c:655-719 | that hand-over is what the main loop's steps do on such a ring before they stand still |
| `ZeroCopy.StepKeepsInv` | lwip-2.2.0/doc/ZeroCopyRx.c:9-45 | every step of any number of freeing threads keeps pool entries and descriptors with exactly one owner each and counts returns |
| `ZeroCopy.AllocationSafeIff` | lwip-2.2.0/doc/ZeroCopyRx.c:19-28 | no run of receives, references and frees faults if and only if descriptors <= entries, or descriptors + freeing threads <= entries without the protection |
| `ZeroCopy.EveryRun` | lwip-2.2.0/doc/ZeroCopyRx.c:9-45 | in every protected run no descriptor has two owners, and it was received once more than returned exactly while away from the hardware |
| `ZeroCopy.HeldWhileReferenced` | lwip-2.2.0/src/core/pbuf.c:757-771 | over the events of every run, a pbuf is live, with the descriptor received into it, exactly while its frees are fewer than one plus its references since the receive, and so long the descriptor is not with the hardware |
| `ZeroCopy.RejectedLeavesAll` | lwip-2.2.0/doc/ZeroCopyRx.c:42-44 | a receive that `netif->input` rejects leaves pool, descriptors and pbufs as they were |
| `ZeroCopy.SectionExclusive` | lwip-2.2.0/doc/ZeroCopyRx.c:19-22 | with the protection at most one callback is in its section in every run |
| `ZeroCopy.RxPool.EthRxIrq` | lwip-2.2.0/doc/ZeroCopyRx.c:25-45 | the interrupt takes its step; the unchecked allocation succeeds |
| `ZeroCopy.RxPool.RefPbuf` | lwip-2.2.0/doc/ZeroCopyRx.c:25-45 | a reference taken by the stack takes its step |
| `ZeroCopy.RxPool.FreePbuf` | lwip-2.2.0/doc/ZeroCopyRx.c:42-44 | a free drops one reference and calls the callback on the last |
| `ZeroCopy.RxPool.FreeCustomStep` | lwip-2.2.0/doc/ZeroCopyRx.c:9-23 | each step of the callback takes its step and keeps the invariant |
| `Fields.IndependentIff` | inc/gd32f4xx.h:219-221 | writing one field never disturbs another if and only if they are disjoint |
| `Fields.FieldsKeepTheirValues` | inc/gd32f4xx.h:219-221 | after any sequence of writes to pairwise disjoint fields each reads as its last value cut to its width |
| `Fields.CutValue` | inc/gd32f4xx.h:219-221 | cutting is reduction modulo 2^width |
| `Words.LowMaskValue` | Firmware/CMSIS/core_cm4.h:1619-1622 | the mask of the low n bits is `(1 << n) - 1` |
| `Fields.OtherBitsStay` | inc/gd32f4xx.h:219-221 | bits outside the written fields stay |
| `MacAddresses.AddressesKept` | Firmware/GD32F4xx_standard_peripheral/Source/gd32f4xx_enet.c:1066-1092 | over any sequence of address and filter calls each of the four slots reads back the address last set in it |
| `MacAddresses.SetThenGet` | Firmware/GD32F4xx_standard_peripheral/Include/gd32f4xx_enet.h:625-629 | packing an address into a slot and reading its six bytes gives it back |
| `MacAddresses.OtherSlotKept` | Firmware/GD32F4xx_standard_peripheral/Include/gd32f4xx_enet.h:923-926 | a call on one slot leaves both registers of every other slot alone |
| `MacAddresses.ConfigKeepsAddressIff` | Firmware/GD32F4xx_standard_peripheral/Source/gd32f4xx_enet.c:1511-1522 | a filter configuration keeps the address if and only if its arguments stay out of the low 16 bits |
| `MacAddresses.SetClearsFilter` | Firmware/GD32F4xx_standard_peripheral/Source/gd32f4xx_enet.c:1066-1070 | setting an address switches the slot's filter off |
| `MacAddresses.FirstSlotBit31` | Firmware/GD32F4xx_standard_peripheral/Include/gd32f4xx_enet.h:280-281 | slot 0 keeps its always-one bit |
| `MacAddresses.MacRegisters.AddressSet` | Firmware/GD32F4xx_standard_peripheral/Source/gd32f4xx_enet.c:1066-1070 | the two stores put the address into its slot |
| `MacAddresses.MacRegisters.AddressGet` | Firmware/GD32F4xx_standard_peripheral/Source/gd32f4xx_enet.c:1084-1092 | the six byte reads return the slot's address |
| `MacAddresses.MacRegisters.AddressFilterEnable` | Firmware/GD32F4xx_standard_peripheral/Source/gd32f4xx_enet.c:1469-1472 | bit 31 of the slot's high register goes on, every other bit and the address stay |
| `MacAddresses.MacRegisters.AddressFilterDisable` | Firmware/GD32F4xx_standard_peripheral/Source/gd32f4xx_enet.c:1484-1487 | bit 31 goes off, every other bit and the address stay |
| `MacAddresses.MacRegisters.AddressFilterConfig` | Firmware/GD32F4xx_standard_peripheral/Source/gd32f4xx_enet.c:1511-1522 | bits 24 to 30 become those of the arguments; the other bits keep their ones and gain the arguments' |
| `Can.RoundTrip` | Firmware/GD32F4xx_standard_peripheral/Include/gd32f4xx_can.h:497-560 | format, type, identifier and eight data bytes survive packing into any mailbox and unpacking; identifier cut to 11 or 29 bits, length code to 4, filter index from bits 8 to 15 |
| `Can.InRange` | Firmware/GD32F4xx_standard_peripheral/Include/gd32f4xx_can.h:497-501 | an identifier comes back unchanged if and only if it fits its field |
| `Can.PackWritten` | Firmware/GD32F4xx_standard_peripheral/Source/gd32f4xx_can.c:443-466 | the four registers of the mailbox bit by bit: transmit request, flags, identifier, length code with the other property bits kept, data bytes |
| `Can.Peripheral.MessageTransmit` | Firmware/GD32F4xx_standard_peripheral/Source/gd32f4xx_can.c:423-469 | the message goes to the first empty mailbox, whose registers then hold it with the transmit request set, or nothing changes and 3 is returned; other mailboxes keep their contents |
| `Priorities.Widths` | Firmware/CMSIS/core_cm4.h:1616-1617 | pre-emption gets as many bits as grouping and implementation both allow, subpriority the rest |
| `Priorities.DecodeEncode` | Firmware/CMSIS/core_cm4.h:1610-1649 | decode after encode gives both values reduced to the group's widths, for up to 8 priority bits |
| `Priorities.EncodeDecode` | Firmware/CMSIS/core_cm4.h:1610-1649 | encode after decode gives the implemented bits back |
| `Priorities.EncodedOrder` | Firmware/CMSIS/core_cm4.h:1610-1625 | encoded priorities order by pre-emption priority first, subpriority second |
| `Priorities.PriorityRoundTrip` | Firmware/CMSIS/core_cm4.h:1568-1595 | a stored priority reads back reduced to the implemented bits |
| `Priorities.PriorityByteBits` | Firmware/CMSIS/core_cm4.h:1568-1574 | the implemented bits are the upper ones of the priority byte |
| `Priorities.EnableByteIsEncoded` | Firmware/GD32F4xx_standard_peripheral/Source/gd32f4xx_misc.c:61-94 | `nvic_irq_enable` stores the byte that `NVIC_SetPriority` stores for the encoded pair |
| `Nvic.StepRefines` | Firmware/CMSIS/core_cm4.h:1453-1595 | every access function does to the abstract controller (enabled set, pending set, priorities, grouping) what it says and nothing else |
| `Nvic.RunRefines` | Firmware/CMSIS/core_cm4.h:1453-1595 | so does any sequence of calls |
| `Nvic.OthersUntouched` | Firmware/CMSIS/core_cm4.h:1485-1595 | in the abstract controller, calls about other interrupts leave an interrupt's enabling, pending bit and priority alone |
| `Nvic.OtherRegistersUntouched` | Firmware/CMSIS/core_cm4.h:1485-1595 | on the registers, any sequence of such calls leaves its enable bit, pending bit and priority byte alone |
| `Nvic.GroupingSet` | Firmware/CMSIS/core_cm4.h:1453-1465 | the write carries the key, sets PRIGROUP to the low three bits and keeps the other low bits |
| `Nvic.KeyValue` | Firmware/CMSIS/core_cm4.h:1461 | the key is 0x5FA |
| `Nvic.PriorityRegister` | Firmware/CMSIS/core_cm4.h:1568-1574 | the byte of a device interrupt is IP[irq], of core interrupts -12 to -1 SHP[0] to SHP[11] |
| `Nvic.GroupingKeptIff` | Firmware/GD32F4xx_standard_peripheral/Source/gd32f4xx_misc.c:61-94 | `nvic_irq_enable` keeps the grouping if and only if it is 3 to 7 |
| `Nvic.IrqEnableReadsBack` | Firmware/GD32F4xx_standard_peripheral/Source/gd32f4xx_misc.c:61-94 | what it stores is read and decoded as the two priorities reduced to their widths |
| `Nvic.ResetKeepsGrouping` | Firmware/CMSIS/core_cm4.h:1656-1662 | the reset write carries the key and the request and keeps the grouping |
| `Nvic.Controller.EnableIRQ` | Firmware/CMSIS/core_cm4.h:1485-1489 | adds the interrupt to the enabled set, nothing else |
| `Nvic.Controller.DisableIRQ` | Firmware/CMSIS/core_cm4.h:1498-1501 | removes it, nothing else |
| `Nvic.Controller.GetPendingIRQ` | Firmware/CMSIS/core_cm4.h:1514-1517 | 1 if and only if the interrupt is pending, else 0 |
| `Nvic.Controller.SetPendingIRQ` | Firmware/CMSIS/core_cm4.h:1526-1529 | adds it to the pending set, nothing else |
| `Nvic.Controller.ClearPendingIRQ` | Firmware/CMSIS/core_cm4.h:1538-1541 | removes it, nothing else |
| `Nvic.Controller.SetPriorityIRQ` | Firmware/CMSIS/core_cm4.h:1568-1574 | sets one priority, reduced to the implemented bits |
| `Nvic.Controller.GetPriority` | Firmware/CMSIS/core_cm4.h:1588-1595 | the priority of a device or core interrupt |
| `Nvic.Controller.SetPriorityGrouping` | Firmware/CMSIS/core_cm4.h:1453-1465 | sets the grouping, nothing else |
| `Nvic.Controller.IrqEnableWithPriority` | Firmware/GD32F4xx_standard_peripheral/Source/gd32f4xx_misc.c:61-94 | priority stored, interrupt enabled, unknown grouping replaced by 2 and 2 bits |

## Left out

- The loop of `Crc8`, `Check_message_UART` and the poll of the receiver in the main loop are in src/uart.c and
  src/main.c, which are not UTF-8; the table above cites the declarations and callees instead. What happens to an
  accepted reply after its handler is chosen, the USART and DMA interrupts and the polling schedule of the serial
  units are not modelled.
- The clock: poll times are inputs. `time_update` and the tick period are not part of the model.
- The build modelled in `netconf.dfy` has `LWIP_TCP`, `LWIP_ACD` and `USE_DHCP` (inc/main.h:17 leaves the last one off); what the lwIP timer handlers do
  is not modelled, and the address and tries the stack shows are inputs.
- `pbuf_alloc` and `pbuf_free` are atomic in `handoff.dfy`, although inc/lwipopts.h:39 sets
  `SYS_LIGHTWEIGHT_PROT` to 0; a frame takes one buffer; the queue, which the sample leaves open, is a ring.
- The transmit path, link state, SNMP and link statistics, cache maintenance, IPv6 and HTTPD of the lwIP samples.
- EnetIrq.Receiver.IrqHandler: with undersized forwarding on it takes only frames whose computed length is not 1,
  because by `HandlerEndsIff` the loop does not end for others.
- EnetIrq.Receiver.LowLevelRead: does not model a failed `pbuf_alloc`, after which the frame is released all the same
  and so lost; the results on what is handed over assume that it succeeds.
- The enhanced and PTP descriptor formats, skip lengths, the receive-buffer-unavailable flag and frames spread
  over several descriptors beyond their being dropped.
- Crc8Errors.CheckMessageUart: the three handlers are represented by which of them is chosen.
- Can.RoundTrip: the bus is taken to carry all eight data bytes; frame format and type are taken from their two
  documented constants; FIFO release and filters are not modelled.
- Nvic.Controller.SetPriorityIRQ: takes core interrupts -12 to -1 and device interrupts 0 to 239, the ones with a
  priority register.
- `NVIC_GetActive`, `NVIC_GetPriorityGrouping`'s trivial read as a method, the wait loop of `NVIC_SystemReset`,
  SysTick and ITM functions.
- The other peripheral drivers of the standard library, whose functions are straight register writes.
