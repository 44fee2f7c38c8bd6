# Verified model of the safety-relevant middle of an AUTOSAR Adaptive stack

This project models, in Dafny, the parts of the stack between the wire and the
safety reaction, and proves properties of them for all inputs and all runs.

Code that updates fields is a class whose methods are proved against a
specification function of the old state; what the code is for is then proved
about those functions, usually over arbitrary sequences of steps.

| file | what it models |
|---|---|
| Gf2.dfy, Crc.dfy, Orders.dfy, TwoFlips.dfy | the two checksum loops as polynomial division over GF(2), and the errors they detect |
| Bytes.dfy, BigEndian.dfy, Common.dfy | bytes, big-endian numbers, shared types |
| SomeIp.dfy | the SOME/IP printer and the general parser |
| VehicleSignalProxy.dfy | frame classification with the E2E check, the receive loop and its statistics |
| SampleQueue.dfy | the bounded sample queue and the receive handler under every interleaving |
| ServiceDiscovery.dfy | the service registry and what its subscribers have been told |
| NetworkManagement.dfy | reference-counted networks and their handles |
| IpcBridge.dfy | the timed IPC protocol, coupled to registry, network and health manager |
| BridgeThreads.dfy | the threads around the bridge: loop, Init, Shutdown, senders, other users, in every interleaving |
| StateManagement.dfy, HealthManagement.dfy, SafetyMonitor.dfy | machine states, health verdict and safety escalation as one transition system |
| SafetyThreads.dfy | escalations of several threads at once |
| VehicleSignalService.dfy | the sequence-counter check |
| Hash.dfy | the 64-bit stand-in hash |
| TimeSync.dfy | time base corrections and clock conversions |

## How to read it

- Bytes are `bv8`; checksum registers are `bv8` and `bv16`. Wider unsigned
  fields are bounded integers, and every wrap of the source is written out:
  the 32-bit sum 16 + payload length, the 32-bit length word, the 32-bit
  reference count and error count, the 64-bit counters and hash.
- Callbacks are known by a number; the calls made are kept in a log, and a
  callback does not re-enter the component that calls it.
- Four parts are modelled as threads, where one access to shared state, under
  its lock if it has one, is one step: the sample queue, the receive loop's
  counters, the bridge, and the escalation. Their methods are also proved as
  they run alone, and the steps of the counters, the bridge and the escalation,
  uninterrupted, are proved to do the same. Everywhere else a whole method is
  one step.
- The clock is a parameter: each step carries the nanosecond readings it
  takes. Durations become milliseconds by truncation, as in the source.
- The health status Failed, Expired or Stopped never arises inside the health
  manager (it only stores Ok), so entity tables are arbitrary inputs of a check.
- Reporting an execution state is a no-op.

## Where code and documentation differ

The model follows the code.

- The comments call the CRC-8 "E2E Profile 2". It is the SAE J1850 CRC-8
  (polynomial 0x1D, start and final value 0xFF) of section 7.2.1.1 of the
  AUTOSAR CRC library; the counter byte is not covered
  (`VehicleSignalProxy.CounterNotCovered`).
- The bridge's header draws RESET back to OFFLINE; the code goes from Reset to
  Handshake, and services stay offered through errors
  (`BridgeThreads.EveryRunFromCreated`).
- The bridge's header has one life cycle, Init, Run, Shutdown. Nothing makes
  Shutdown wait for the turn Run is in, so the catalog can stay offered after it
  (`BridgeThreads.ShutdownInsideATurnLeavesTheCatalog`).
- The network header describes a way to sleep over PrepareBusSleep; the code
  goes straight to BusSleep.
- The health documentation lists alive, deadline and logical supervision; any
  checkpoint of a known entity makes it Ok, so the fault checkpoint of the
  signal component cannot raise an alarm (`HealthManagement.CheckpointNeverWorsens`),
  and the safety monitor's own status cannot either
  (`SafetyMonitor.OwnStatusIsIrrelevant`).
- Safety level 1 is documented and has an action, but nothing ever asks for it
  (`SafetyMonitor.AtMostThreeCallbacks`).

## Properties with an exact limit

Where a property holds only under a condition, the condition is proved to be
exact:

- The heartbeat never times out falsely iff readings are at most 400 ms apart,
  and the handshake never times out iff turns are at most 1900 ms apart.
- The safe-stop latch holds over all runs iff the level bytes reported are at
  most 4; a byte of 5 raises the level without an action
  (`SafetyMonitor.LatchBoundIsExact`). It begins at level 3.
- The level never falls iff one thread at most escalates; the machine stays
  stopped whatever the interleaving.
- A Shutdown withdraws the catalog for good iff the loop, when it begins, is
  neither among its offers nor inside a turn begun in Handshake
  (`BridgeThreads.ShutdownWithdrawsIff`).
- Reference counts are right iff no network gets a 2^32nd holder and NM is not
  shut down over a valid handle.
- Messages round-trip iff 8 + payload size fits 32 bits; re-printing gives the
  frame back iff its length word is at least 8; the parser's size test protects
  its copy iff the length word is below 0xFFFFFFF8 or the data really is that
  long.
- A lost frame is noticed iff the last accepted counter is not 0 and the number
  lost is no multiple of 256.
- Two flipped bits escape the CRC-8 iff they are a multiple of 255 bits apart,
  and the CRC-16 iff they are a multiple of 32767 bits apart.
- A correction is exact iff the resulting total is not negative or a whole
  number of seconds.

## Model

| member | source | states |
|---|---|---|
| `Crc.E2eCrc8` | include/ara/com/someip_proto.h:136-146 | the nested register loop returns the CRC-8 value `Crc8` of the first len bytes |
| `Crc.Crc8IsTheRemainder` | include/ara/com/someip_proto.h:136-146 | for every byte string, a value is the CRC-8 iff, with the final inversion taken off, it is the GF(2) remainder of the start-value-adjusted message times x^8 on division by x^8+x^4+x^3+x^2+1 |
| `Crc.Crc8Affine` | include/ara/com/someip_proto.h:136-146 | crc(a^b)^crc(a)^crc(b) is the CRC-8 of the zero block of that length |
| `Crc.Crc8DetectsBursts` | include/ara/com/someip_proto.h:136-146 | distinct blocks that differ only inside a window of at most 8 consecutive bits never share a CRC-8 |
| `Crc.Crc8Residue` | include/ara/com/someip_proto.h:136-146 | a byte is the CRC-8 of a block iff the block with that byte appended has CRC-8 0x3B |
| `Orders.OrderIs255` | include/ara/com/someip_proto.h:141-143 | clocking the register d times brings x^0 back iff d is a multiple of 255: x has order 255 modulo the generator |
| `Orders.OrderIs32767` | src/application/SwcIPCBridge/IPCBridgeService.cpp:25-32 | the same for the 16-bit register and 32767 |
| `TwoFlips.TwoFlipsCancelIff` | include/ara/com/someip_proto.h:139-143 | for any generator with a constant term, two flipped bits leave the register unchanged iff x to the power of their distance is 1 modulo the generator |
| `TwoFlips.Crc8MissesTwoFlipsIff` | include/ara/com/someip_proto.h:136-146 | two flipped bits leave the CRC-8 of a block unchanged iff their distance is a multiple of 255 |
| `Crc.ComputeCRC16` | src/application/SwcIPCBridge/IPCBridgeService.cpp:20-35 | the nested register loop returns the CRC-16 value `Crc16` of the whole vector |
| `Crc.Crc16IsTheRemainder` | src/application/SwcIPCBridge/IPCBridgeService.cpp:20-35 | for every byte string, a value is the CRC-16 iff it is the GF(2) remainder of the start-value-adjusted message times x^16 on division by x^16+x^12+x^5+1 |
| `Crc.Crc16Affine` | src/application/SwcIPCBridge/IPCBridgeService.cpp:20-35 | crc(a^b)^crc(a)^crc(b) is the CRC-16 of the zero block of that length |
| `Crc.Crc16DetectsBursts` | src/application/SwcIPCBridge/IPCBridgeService.cpp:20-35 | distinct blocks that differ only inside a window of at most 16 consecutive bits never share a CRC-16 |
| `Crc.Crc16DetectsOddErrors` | src/application/SwcIPCBridge/IPCBridgeService.cpp:20-35 | equal-length blocks that differ in an odd number of bits never share a CRC-16 |
| `Crc.Crc16Residue` | src/application/SwcIPCBridge/IPCBridgeService.cpp:20-35 | a word is the CRC-16 of a block iff the block with that word appended, high byte first, has CRC-16 zero |
| `TwoFlips.Crc16MissesTwoFlipsIff` | src/application/SwcIPCBridge/IPCBridgeService.cpp:20-35 | two flipped bits leave the CRC-16 of a block unchanged iff their distance is a multiple of 32767; any two are caught in a block of up to 4095 bytes |
| `Gf2.RegisterIsTheRemainder` | include/ara/com/someip_proto.h:139-143 | for any generator, start value and message, the shift register holds the remainder of long division and nothing else is the remainder |
| `VehicleSignalProxy.Proxy.ParseAndDispatch` | src/ara/com/vehicle_signal_proxy.cpp:229-299 | accepts, rejects, counts an E2E error and pushes a sample exactly as the frame is classified |
| `VehicleSignalProxy.VerdictByBytes` | src/ara/com/vehicle_signal_proxy.cpp:229-282 | the verdict by the bytes: under 36 malformed; not 10 01 80 01 at the start, ignored; then malformed for a type other than 2, a length word under 28, or one asking for more bytes than there are in 32-bit arithmetic; then decided by byte 34 and the CRC of bytes 16 to 33 |
| `VehicleSignalProxy.DeliveredIffResidue` | src/ara/com/vehicle_signal_proxy.cpp:247-282 | a frame is delivered iff it passes the header tests and its first 19 payload bytes have residue 0x3B; with the header right and another residue it is a CRC mismatch |
| `VehicleSignalProxy.BurstNeverDelivered` | src/ara/com/vehicle_signal_proxy.cpp:264-282 | a delivered frame with bits flipped inside a window of at most 8 bits of its first 19 payload bytes is never delivered, and is counted as an E2E error |
| `TwoFlips.TwoFlipsNeverDelivered` | src/ara/com/vehicle_signal_proxy.cpp:264-282 | a delivered frame with any two bits of its first 19 payload bytes flipped is never delivered |
| `VehicleSignalProxy.CounterNotCovered` | src/ara/com/vehicle_signal_proxy.cpp:267-293 | changing the counter byte of a delivered frame leaves it delivered with just that counter changed |
| `VehicleSignalProxy.DeliveredCarriesPayload` | src/ara/com/vehicle_signal_proxy.cpp:247-294 | each member of a delivered sample by its bytes in the frame, the session being the big-endian word at offset 10, and the CRC that of the first 18 payload bytes |
| `VehicleSignalProxy.DeliveredIsDeserializable` | src/ara/com/vehicle_signal_proxy.cpp:247-265 | every delivered frame passes the general parser; with a length word of at most 0xFFFFFFF7 that parser reads the same ids, session and first 20 payload bytes |
| `VehicleSignalProxy.PrintedEventIsClassified` | src/ara/com/vehicle_signal_proxy.cpp:229-299 | a printed message with the event ids, type notification and a payload of at least 20 bytes is delivered iff payload byte 18 is the CRC-8 of the first 18, with the header's session and each member from its payload bytes, and otherwise counted as a CRC mismatch |
| `VehicleSignalProxy.Proxy.HandleFrame` | src/ara/com/vehicle_signal_proxy.cpp:200-221 | one turn of the receive loop adds exactly the frame's contribution to the four counters and pushes its sample, if any |
| `VehicleSignalProxy.Proxy.RxThreadFunc` | src/ara/com/vehicle_signal_proxy.cpp:185-222 | over any reads, the counters grow by the tally of the non-empty ones and the event has had the delivered samples pushed in order |
| `VehicleSignalProxy.NonEmptyConcat` | src/ara/com/vehicle_signal_proxy.cpp:185-198 | the reads that count, of two sequences of reads one after the other, are those of the first and then those of the second |
| `VehicleSignalProxy.NonEmptyOne` | src/ara/com/vehicle_signal_proxy.cpp:185-198 | and a single read counts iff it has data |
| `VehicleSignalProxy.DeliveredSamplesArrive` | src/ara/com/vehicle_signal_proxy.cpp:83-98 | from the frames to the application: with a subscribed event and an empty queue, every delivered sample is passed to the handler, in order, and the queue ends with the newest of them, as many as its capacity |
| `VehicleSignalProxy.StatisticsAccount` | src/ara/com/vehicle_signal_proxy.cpp:180-223 | the 64-bit counters are the exact counts modulo 2^64, hence exact below 2^64 bytes; the exact counts satisfy, at every loop head, rxPackets = parseErrors + ignored + delivered and e2eErrors <= parseErrors, and at every other moment parseErrors <= rxPackets, e2eErrors <= rxPackets and <= parseErrors + 1, rxPackets <= rxBytes <= 1024 rxPackets |
| `VehicleSignalProxy.UninterruptedFrame` | src/ara/com/vehicle_signal_proxy.cpp:200-221 | the locked updates of one frame in a row do what the contract of HandleFrame says |
| `SampleQueue.VehicleSignalEvent.Subscribe` | src/ara/com/vehicle_signal_proxy.cpp:42-46 | stores the capacity, whatever it is, then subscribes |
| `SampleQueue.VehicleSignalEvent.GetNewSamples` | src/ara/com/vehicle_signal_proxy.cpp:70-81 | hands out min(maxCount, size) samples, which followed by what stays are the queue as it was |
| `SampleQueue.VehicleSignalEvent.PushSample` | src/ara/com/vehicle_signal_proxy.cpp:83-98 | enqueues under the lock when subscribed, dropping the oldest sample of a full queue, then calls the handler copied out |
| `SampleQueue.EveryRunIsConsistent` | src/ara/com/vehicle_signal_proxy.cpp:42-98 | over every interleaving: accepted samples = samples gone + queue, in order; the queue is never longer than the largest capacity stored so far, and empty before the first; the calls made and owed are those due, once each, in enqueue order, to the handler installed at the enqueue |
| `SampleQueue.Conservation` | src/ara/com/vehicle_signal_proxy.cpp:42-98 | from the initial state: accepted = pulled + dropped + queued, the queue is a suffix of the accepted samples, and it is no longer than the largest capacity that any Subscribe of the run has stored |
| `SampleQueue.AcceptedIsWhatWasEnqueued` | src/ara/com/vehicle_signal_proxy.cpp:83-95 | the accepted history is exactly what was enqueued while the latest subscription store said subscribed |
| `SampleQueue.StoresAreKept` | src/ara/com/vehicle_signal_proxy.cpp:42-68 | after every run the capacity, the handler and the subscription are those stored last |
| `SampleQueue.QueueHoldsTheNewest` | src/ara/com/vehicle_signal_proxy.cpp:42-98 | after a subscription with capacity n into an empty queue, and then only samples and handler steps, the queue is exactly the newest n samples, or all while there are fewer |
| `SampleQueue.PaidCallsAreDue` | src/ara/com/vehicle_signal_proxy.cpp:83-98 | once the receive thread has made the call it owes, every accepted sample with a handler has been passed to it, once and in order |
| `SampleQueue.DropsOldestIffFull` | src/ara/com/vehicle_signal_proxy.cpp:90-94 | an enqueue drops a sample iff the queue is at capacity, and then the oldest |
| `SampleQueue.LoweredCapacityNotEnforced` | src/ara/com/vehicle_signal_proxy.cpp:83-95 | over every run without a pull or a new capacity, the queue ends within the current capacity iff it started within it, and a queue at or above it keeps its length: a lowered capacity is never caught up with |
| `SomeIp.SomeIpMessage.Serialize` | src/ara/com/someip_binding.cpp:19-48 | pushes the wire form of the message |
| `SomeIp.WireByBytes` | src/ara/com/someip_binding.cpp:19-48 | the wire form byte by byte, numbers high byte first |
| `SomeIp.SomeIpMessage.Deserialize` | src/ara/com/someip_binding.cpp:50-80 | accepts iff both size tests pass; says what becomes of header and payload on each path, including the header already replaced when the second test fails |
| `SomeIp.RoundTrip` | src/ara/com/someip_binding.cpp:19-80 | parsing a printed message followed by anything recovers every header field but length, and the payload iff 8 + its size fits the 32-bit length word |
| `SomeIp.ReprintsPrefix` | src/ara/com/someip_binding.cpp:50-80 | re-serialising an accepted frame gives its exact prefix iff its length word is at least 8 |
| `SomeIp.CopyInBoundsIff` | src/ara/com/someip_binding.cpp:75-78 | the size test keeps the payload copy inside the data iff the length word is at most 0xFFFFFFF7 or the data really is that long |
| `SomeIp.CopyCanLeaveTheData` | src/ara/com/someip_binding.cpp:75-78 | with any other fields, a header alone whose length word is 0xFFFFFFFF passes the size test and is copied past its end |
| `SomeIp.WireInjective` | src/ara/com/someip_binding.cpp:19-48 | two messages that fit the length word have the same bytes only if they are the same message |
| `ServiceDiscovery.SomeIpServiceDiscovery.OfferService` | src/ara/com/someip_binding.cpp:92-104 | registers the descriptor and notifies every subscriber of the id, in order |
| `ServiceDiscovery.SomeIpServiceDiscovery.StopOfferService` | src/ara/com/someip_binding.cpp:106-122 | withdraws an offered id and notifies its subscribers with the descriptor withdrawn; does nothing otherwise |
| `ServiceDiscovery.SomeIpServiceDiscovery.SubscribeServiceAvailability` | src/ara/com/someip_binding.cpp:143-155 | appends the subscriber and notifies it at once if the id is offered |
| `ServiceDiscovery.SubscribersSeeTheRegistry` | src/ara/com/someip_binding.cpp:92-155 | after any operations, the k-th callback subscribed to an id is a subscriber, and was told last (d, true) iff the id was offered last with d and not stopped since; nothing, or false last, iff it is not offered |
| `ServiceDiscovery.RegistryIsWhatWasOffered` | src/ara/com/someip_binding.cpp:92-155 | the descriptor registered for an id is that of its last offer unless stopped since, and its subscribers are the callbacks subscribed to it, in order |
| `ServiceDiscovery.SubscribersHearWhatIsDue` | src/ara/com/someip_binding.cpp:92-155 | the calls made to the k-th subscription are exactly those the operations say: one at once if the id is offered, one per later offer, one per later stop of an offer |
| `NetworkManagement.Manager.Initialize` | src/ara/nm/nm.cpp:119-140 | adds the four known networks, asleep and unheld, where missing |
| `NetworkManagement.Manager.RequestNetwork` | src/ara/nm/nm.cpp:51-74 | counts up modulo 2^32, wakes the network and calls back when the count was 0 |
| `NetworkManagement.Manager.ReleaseNetwork` | src/ara/nm/nm.cpp:76-100 | counts down, puts the network to sleep and calls back when the count was 1; refuses at 0 |
| `NetworkManagement.Manager.Shutdown` | src/ara/nm/nm.cpp:142-149 | clears every count and state without callbacks |
| `NetworkManagement.InitializeAdds` | src/ara/nm/nm.cpp:119-140 | Initialize adds exactly the ids 1, 2, 3 and 0xFF where missing, asleep and unheld, and leaves the rest |
| `NetworkManagement.ResultsTell` | src/ara/nm/nm.cpp:51-100 | the answers and callbacks of request and release by the table and the number of valid handles |
| `NetworkManagement.NetworkHandle.constructor` | src/ara/nm/nm.cpp:16-24 | requests its network and is valid iff the network is known |
| `NetworkManagement.NetworkHandle.Move` | src/ara/nm/nm.cpp:34-39 | takes over validity, and the source is invalid afterwards |
| `NetworkManagement.NetworkHandle.Destroy` | src/ara/nm/nm.cpp:26-32 | releases once if valid |
| `NetworkManagement.StepCountsIff` | src/ara/nm/nm.cpp:16-149 | a step (create, move, destroy, initialize, NM shutdown) keeps "count = number of valid handles" iff it is neither the 2^32nd holder of a network nor an NM shutdown while some handle is valid |
| `NetworkManagement.EveryRunCounts` | src/ara/nm/nm.cpp:16-149 | in every run without such a step: each count is the number of valid handles, a network is Normal iff its count is positive, and its callbacks alternate with chained states |
| `NetworkManagement.EveryRunFromEmptyCounts` | src/ara/nm/nm.cpp:16-149 | the same for every such run from an empty manager without handles |
| `NetworkManagement.ShutdownCountsIff` | src/ara/nm/nm.cpp:142-149 | after NM shutdown the counts are those of the valid handles iff there is none |
| `NetworkManagement.StaleHandlePutsToSleep` | src/ara/nm/nm.cpp:16-149 | whenever NM is shut down over a valid handle, its release puts the network to sleep under a handle made afterwards |
| `NetworkManagement.StepKeepsAwakeIff` | src/ara/nm/nm.cpp:51-149 | any step, NM shutdown included, keeps "Normal iff count positive" iff it is not a request at count 2^32-1 |
| `NetworkManagement.EveryRunSleepsUnheld` | src/ara/nm/nm.cpp:16-149 | in every run, NM shutdowns over valid handles included, no count exceeds the number of valid handles; and unless a count wraps, a network is Normal iff its count is positive, so one that nobody holds sleeps |
| `NetworkManagement.ReplacingNeverSleeps` | src/ara/nm/nm.cpp:51-100 | requesting before releasing keeps a held network awake and leaves the table and the callbacks as they were |
| `IpcBridge.IPCBridgeServiceSWC.Init` | src/application/SwcIPCBridge/IPCBridgeService.cpp:54-87 | always succeeds; holds a fresh EthIPC handle made before the old one is released, registers with the health manager, raises SOC_READY and SOC_PWR_EN, enters Handshake |
| `IpcBridge.IPCBridgeServiceSWC.HandleHandshake` | src/application/SwcIPCBridge/IPCBridgeService.cpp:126-142 | times out, completes and offers the catalog, or waits |
| `IpcBridge.IPCBridgeServiceSWC.HandleNormalOperation` | src/application/SwcIPCBridge/IPCBridgeService.cpp:144-170 | times out, or refreshes the heartbeat when due and drains the SPI queue |
| `IpcBridge.IPCBridgeServiceSWC.HandleError` | src/application/SwcIPCBridge/IPCBridgeService.cpp:172-185 | goes through Reset into Handshake with a new start time; SOC_RESET_N ends high, and the GPIO callbacks are one low and one high |
| `IpcBridge.IPCBridgeServiceSWC.Run` | src/application/SwcIPCBridge/IPCBridgeService.cpp:89-115 | sets the running flag; over any clock readings, the effect of the turns on connection, lines, queue and registry; a checkpoint per turn |
| `IpcBridge.IPCBridgeServiceSWC.OfferIpcServices` | src/application/SwcIPCBridge/IPCBridgeService.cpp:187-194 | offers the seven catalog services in order |
| `IpcBridge.IPCBridgeServiceSWC.StopIpcServices` | src/application/SwcIPCBridge/IPCBridgeService.cpp:196-202 | withdraws the seven catalog ids in order |
| `IpcBridge.IPCBridgeServiceSWC.Shutdown` | src/application/SwcIPCBridge/IPCBridgeService.cpp:117-124 | clears the running flag, withdraws the catalog and releases the network; the connection state stays as it was |
| `IpcBridge.IPCBridgeServiceSWC.TransitionState` | src/application/SwcIPCBridge/IPCBridgeService.cpp:204-210 | stores the state and calls back iff it changed |
| `IpcBridge.IPCBridgeServiceSWC.SendSpiFrame` | src/application/SwcIPCBridge/IPCBridgeService.cpp:222-236 | queues the frame with the CRC-16 of its header and payload filled in |
| `IpcBridge.IPCBridgeServiceSWC.SetGpioSignal` | src/application/SwcIPCBridge/IPCBridgeService.cpp:238-246 | sets one of eight lines and calls back; other numbers are ignored |
| `IpcBridge.HeartbeatBoundIsExact` | src/application/SwcIPCBridge/IPCBridgeService.cpp:144-158 | over every run of turns in Normal there is no heartbeat error iff consecutive clock readings are at most 400 ms apart, exact to the nanosecond |
| `IpcBridge.EntryBoundIsExact` | src/application/SwcIPCBridge/IPCBridgeService.cpp:126-158 | the same bound from the turn that enters Normal on |
| `IpcBridge.TurnsByNanoseconds` | src/application/SwcIPCBridge/IPCBridgeService.cpp:98-185 | what a turn does by the time passed, to the nanosecond: completion from 101 ms with SOC_READY high, time-out from 2001 ms, refresh from 101 ms, heartbeat error from 501 ms |
| `IpcBridge.OnlyNormalTurnsDrain` | src/application/SwcIPCBridge/IPCBridgeService.cpp:144-170 | a turn in Normal without a time-out leaves the SPI queue empty, and every other turn leaves it as it was |
| `IpcBridge.HandshakeBoundIsExact` | src/application/SwcIPCBridge/IPCBridgeService.cpp:126-142 | with SOC_READY high and turns at least 1 ms apart, every handshake reaches Normal within 101 turns, staying in Handshake until then, iff turns are at most 1900 ms apart |
| `IpcBridge.HundredTurnsMayNotDo` | src/application/SwcIPCBridge/IPCBridgeService.cpp:126-142 | a run with turns 1 ms apart is still in Handshake after 100 turns |
| `IpcBridge.InitReachesNormal` | src/application/SwcIPCBridge/IPCBridgeService.cpp:54-142 | after Init, turns 1 to 1900 ms apart reach Normal within 101 turns |
| `IpcBridge.NotReadyNeverNormal` | src/application/SwcIPCBridge/IPCBridgeService.cpp:126-142 | while SOC_READY is low no run of turns reaches Normal |
| `IpcBridge.ErrorRecovers` | src/application/SwcIPCBridge/IPCBridgeService.cpp:172-185 | from Error with SOC_READY high, Normal is reached within 102 turns |
| `BridgeThreads.EveryRunFromCreated` | src/application/SwcIPCBridge/IPCBridgeService.cpp:54-210 | over every interleaving of the loop, Init, Shutdown, senders and other users: the state callbacks are one chained path from Offline, of the six edges if initialised once, and Reset is seen exactly during the reset pulse; while open, all seven services are offered whenever the bridge is Normal between turns and from its first such time on; once closed, each is offered iff it was offered after the last attempt to withdraw it |
| `BridgeThreads.EveryRunStaysOnPath` | src/application/SwcIPCBridge/IPCBridgeService.cpp:54-210 | a repeated Init is the only source of an edge outside the six, in every interleaving |
| `BridgeThreads.ShutdownWithdrawsIff` | src/application/SwcIPCBridge/IPCBridgeService.cpp:93-142 | in every reachable state, a Shutdown begun there leaves, once over, none of the seven services offered, in all interleavings that follow until Run is called anew, iff the loop is neither among its offers nor inside a turn begun in Handshake |
| `BridgeThreads.ShutdownInsideATurnLeavesTheCatalog` | src/application/SwcIPCBridge/IPCBridgeService.cpp:117-142 | from every new bridge, a run in which Shutdown falls between the entry into Normal and the offers ends with the loop over, the network released and all seven services offered |
| `BridgeThreads.UninterruptedTurn` | src/application/SwcIPCBridge/IPCBridgeService.cpp:93-185 | a turn's steps in a row do what the contract of a turn says |
| `BridgeThreads.UninterruptedShutdown` | src/application/SwcIPCBridge/IPCBridgeService.cpp:117-124 | and those of Shutdown what its contract says |
| `BridgeThreads.UninterruptedInit` | src/application/SwcIPCBridge/IPCBridgeService.cpp:54-87 | and those of Init |
| `BridgeThreads.BridgeLeavesOthersAlone` | src/application/SwcIPCBridge/IPCBridgeService.cpp:187-202 | in every interleaving the services outside the catalog are what the other users alone would have made them |
| `BridgeThreads.OpenMeansAwake` | src/application/SwcIPCBridge/IPCBridgeService.cpp:54-64 | whatever other holders do, from the moment Init has its handle until Shutdown releases it, through a repeated Init too, EthIPC is Normal and its count is the number of valid handles, unless NM is shut down over a valid handle or a count reaches 2^32 |
| `BridgeThreads.QueuedFramesCheckOut` | src/application/SwcIPCBridge/IPCBridgeService.cpp:144-236 | in every interleaving the SPI queue is exactly the frames sent since the last turn in Normal without a time-out, in order, each leaving CRC-16 zero over its bytes, named one by one, followed by its CRC |
| `BridgeThreads.ResetLineIsPulsed` | src/application/SwcIPCBridge/IPCBridgeService.cpp:172-185 | while nobody else drives it, the reset line is low during a reset pulse and high from the first pulse on otherwise, with one low and then one high callback per step from Error to Reset |
| `BridgeThreads.LinesAreAsSet` | src/application/SwcIPCBridge/IPCBridgeService.cpp:54-87 | every other line has the level set last, lines 1 and 2 being raised by Init, with one callback per call; signals above 7 have none |
| `BridgeThreads.ReInitNeverSleeps` | src/application/SwcIPCBridge/IPCBridgeService.cpp:57-64 | initialising again while EthIPC is held keeps it awake, with its count and callbacks as they were |
| `StateManagement.Manager.RequestMachineStateChange` | src/ara/sm/sm.cpp:92-114 | moves to the target, calls back and succeeds, or rejects and stays; succeeds iff the machine ends in the target state |
| `StateManagement.Manager.TriggerErrorState` | src/ara/sm/sm.cpp:144-148 | always ends in Error |
| `StateManagement.Manager.RegisterFunctionGroup` | src/ara/sm/sm.cpp:121-126 | binds the group under its own name, replacing another |
| `StateManagement.Manager.Initialize` | src/ara/sm/sm.cpp:150-164 | registers the four default groups, off |
| `StateManagement.FunctionGroup.RequestStateChange` | src/ara/sm/sm.cpp:31-47 | every request succeeds and ends in the target state, with a callback iff the state changed |
| `StateManagement.RequestsNeverResume` | src/ara/sm/sm.cpp:71-114 | no sequence of requests leaves {Error, Shutdown}, and none leads back to Startup |
| `StateManagement.ReachableIff` | src/ara/sm/sm.cpp:71-114 | some sequence of requests leads from one machine state to another iff they are equal, or the other is not Startup and the one is not stopped unless the other is |
| `StateManagement.OneRequestIff` | src/ara/sm/sm.cpp:71-114 | which pairs of different states one request connects, named one by one; where requests lead at all, two suffice |
| `StateManagement.InitializedMeans` | src/ara/sm/sm.cpp:150-164 | Initialize leaves exactly the four default names more, all off, and nothing else changed |
| `StateManagement.RequestKeepsPath` | src/ara/sm/sm.cpp:92-114 | the machine state callbacks stay one path of valid transitions from Startup |
| `HealthManagement.PlatformHealthManagement.RegisterEntity` | src/ara/phm/phm.cpp:68-83 | adds a new entity as Ok, refuses a known one |
| `HealthManagement.PlatformHealthManagement.UnregisterEntity` | src/ara/phm/phm.cpp:85-89 | removes the entity |
| `HealthManagement.PlatformHealthManagement.ReportCheckpoint` | src/ara/phm/phm.cpp:91-106 | makes a known entity Ok |
| `HealthManagement.PlatformHealthManagement.GetGlobalStatus` | src/ara/phm/phm.cpp:108-128 | whatever the order of the visit, the verdict is the worst status present: Expired over Failed over Stopped |
| `HealthManagement.VerdictMeans` | src/ara/phm/phm.cpp:108-128 | when each verdict is given, by the statuses present |
| `HealthManagement.CheckpointNeverWorsens` | src/ara/phm/phm.cpp:91-128 | a checkpoint, the fault checkpoint 0xFF included, never makes the verdict worse |
| `SafetyMonitor.SafetyMonitorServiceSWC.PeriodicSafetyCheck` | src/application/SwcSafetyMonitor/SafetyMonitorService.cpp:75-108 | checks in, then escalates to exactly the level demanded by the verdict and the last MCU report |
| `SafetyMonitor.SafetyMonitorServiceSWC.Supervise` | src/ara/phm/phm.cpp:22-43 | registers the monitor's entity as Ok unless it is known; a second time, the name is unregistered |
| `SafetyMonitor.SafetyMonitorServiceSWC.Init` | src/application/SwcSafetyMonitor/SafetyMonitorService.cpp:26-45 | the same, and registers the four default groups and starts the health manager |
| `SafetyMonitor.SafetyMonitorServiceSWC.EscalateSafetyLevel` | src/application/SwcSafetyMonitor/SafetyMonitorService.cpp:110-124 | ignores levels not above the current one; otherwise stores, acts and calls back |
| `SafetyMonitor.SafetyMonitorServiceSWC.ExecuteSafetyAction` | src/application/SwcSafetyMonitor/SafetyMonitorService.cpp:126-160 | the action of each level on machine and groups |
| `SafetyMonitor.SafetyMonitorServiceSWC.OnMcuSafetyStatus` | src/application/SwcSafetyMonitor/SafetyMonitorService.cpp:162-166 | replaces the last report and nothing else |
| `SafetyMonitor.SafetyMonitorServiceSWC.Shutdown` | src/application/SwcSafetyMonitor/SafetyMonitorService.cpp:67-73 | clears the running flag, escalates to level 3, stops the health manager |
| `SafetyMonitor.SafeStopIsForever` | src/application/SwcSafetyMonitor/SafetyMonitorService.cpp:75-160 | in every run with reports in 0..4 and arbitrary requests by other clients: from level 3 on the machine is in Error or Shutdown at every later step, the level never falls, Startup is never re-entered |
| `SafetyMonitor.LatchBoundIsExact` | src/application/SwcSafetyMonitor/SafetyMonitorService.cpp:101-160 | over all runs from level 0, a level of 3 or more means a stopped machine iff the level bytes reported are at most 4 |
| `SafetyMonitor.LatchStartsAtThree` | src/application/SwcSafetyMonitor/SafetyMonitorService.cpp:126-160 | over all such runs, reaching a level guarantees a stopped machine iff the level is at least 3: at 2 another client can set the machine driving again |
| `SafetyMonitor.CheckDemands` | src/application/SwcSafetyMonitor/SafetyMonitorService.cpp:75-124 | what each check of a run does, by the entity table and the last report alone: another entity Expired takes the level to at least 3 and stops the machine; else one Failed takes it to at least 2; else an ASIL-D violation takes it to 4 and stops the machine; else a level byte of at least 2 takes it to at least that; else nothing changes; a rise is called back once |
| `SafetyMonitor.OtherActions` | src/application/SwcSafetyMonitor/SafetyMonitorService.cpp:126-160 | the action of level 1 switches Infotainment off, and levels 0 and above 4 have none |
| `SafetyMonitor.EscalationsAct` | src/application/SwcSafetyMonitor/SafetyMonitorService.cpp:110-160 | wherever the level rises in a run with reports in 0..4, it rises to at least 2; at 2 the machine is parked unless stopped, Infotainment and OTA are off and other groups as before; at 3 and 4 it is in Shutdown, groups as before |
| `SafetyMonitor.MachineFollowsAPath` | src/application/SwcSafetyMonitor/SafetyMonitorService.cpp:75-160 | in every run the machine state callbacks are one path of valid transitions from Startup |
| `SafetyMonitor.LevelAboveFourMutesTheMonitor` | src/application/SwcSafetyMonitor/SafetyMonitorService.cpp:101-118 | above level 4 no further run with reports in 0..4, violations and Shutdown included, changes the level or calls back |
| `SafetyMonitor.LevelIsTheMaximum` | src/application/SwcSafetyMonitor/SafetyMonitorService.cpp:110-124 | the level always is the maximum of the starting level and all levels demanded so far |
| `SafetyMonitor.AtMostThreeCallbacks` | src/application/SwcSafetyMonitor/SafetyMonitorService.cpp:75-124 | from level 0 a run has at most three callbacks, strictly rising, the last being the level reached; level 1 is never entered |
| `SafetyMonitor.OwnStatusIsIrrelevant` | src/application/SwcSafetyMonitor/SafetyMonitorService.cpp:77-83 | the monitor's own entity never influences the verdict it acts on |
| `SafetyThreads.UninterruptedEscalation` | src/application/SwcSafetyMonitor/SafetyMonitorService.cpp:110-160 | an escalation made in its single loads, stores and requests, uninterrupted, does what the contract of EscalateSafetyLevel says of level, machine state and level callbacks |
| `SafetyThreads.SafeStopSurvivesInterleaving` | src/application/SwcSafetyMonitor/SafetyMonitorService.cpp:110-160 | however escalating threads and other clients interleave: once a level of 3 or 4 was called back, or is the level while nobody is escalating, the machine is stopped, then and ever after |
| `SafetyThreads.LevelNeverFallsIff` | src/application/SwcSafetyMonitor/SafetyMonitorService.cpp:110-118 | the level never falls, over all interleavings, iff at most one thread escalates |
| `SafetyThreads.OvertakenStoreLowers` | src/application/SwcSafetyMonitor/SafetyMonitorService.cpp:113-118 | a check overtaken by Shutdown between its load and its store takes the level from 3 back to 2 |
| `VehicleSignalService.VehicleSignalServiceSWC.ValidateE2E` | src/application/SwcVehicleSignal/VehicleSignalService.cpp:149-160 | accepts the successor modulo 256, or anything after 0, and then remembers the counter |
| `VehicleSignalService.VehicleSignalServiceSWC.OnSignalReceived` | src/application/SwcVehicleSignal/VehicleSignalService.cpp:126-147 | a rejected set only counts an error and, from the fourth on, reports a checkpoint; an accepted one is stored and passed on |
| `VehicleSignalService.AcceptedCountersChain` | src/application/SwcVehicleSignal/VehicleSignalService.cpp:149-160 | along every run, adjacent accepted counters a, b satisfy b = (a+1) mod 256 or a = 0 |
| `VehicleSignalService.Resynchronises` | src/application/SwcVehicleSignal/VehicleSignalService.cpp:126-160 | after any number of lost frames, with a nonzero last counter, exactly the (-lost mod 256) next frames are rejected and the following one is accepted |
| `VehicleSignalService.LossNoticedIff` | src/application/SwcVehicleSignal/VehicleSignalService.cpp:151-159 | the first frame after a loss is rejected iff the last counter is not 0 and the loss is no multiple of 256 |
| `Hash.Compute` | src/ara/crypto/crypto.cpp:244-267 | the two loops return the 32-byte digest of the data |
| `Hash.DigestsEqualIff` | src/ara/crypto/crypto.cpp:244-267 | two digests are equal iff the 64-bit accumulators are |
| `Hash.FirstBlock` | src/ara/crypto/crypto.cpp:250-254 | the first eight bytes as a number: 0xDEADBEEF for the empty message, and 31 times it plus the byte for one byte more, modulo 2^64 |
| `Hash.NextBlock` | src/ara/crypto/crypto.cpp:255-265 | each block of eight bytes gives the next by the step of the generator |
| `Hash.OneByteSeparates` | src/ara/crypto/crypto.cpp:251-254 | messages that differ in exactly one byte have different digests |
| `Hash.NeighbouringBytesCollideIff` | src/ara/crypto/crypto.cpp:251-254 | messages that differ only in two neighbouring bytes have the same digest iff 31 times the first plus the second agree |
| `Hash.ACollision` | src/ara/crypto/crypto.cpp:244-267 | two distinct two-byte messages with the same digest |
| `TimeSync.TimeBases.ApplyCorrection` | src/ara/tsync/tsync.cpp:118-126 | stores the corrected total in the selected time base and in no other; ids 0 to 3 select their own |
| `TimeSync.IdsSelectThemselves` | src/ara/tsync/tsync.cpp:31-35 | ids 0 to 3 select the time base of that number, and the others the last one |
| `TimeSync.FromTotalExactIff` | src/ara/tsync/tsync.cpp:122-125 | the stored time is normalised and has the corrected total iff that total is not negative or a whole number of seconds |
| `TimeSync.MinusOneIsHuge` | src/ara/tsync/tsync.cpp:122-125 | a correction to -1 ns is stored as 0 seconds and 4294967295 nanoseconds |
| `TimeSync.CorrectionsAddUp` | src/ara/tsync/tsync.cpp:118-126 | while the total stays non-negative, any corrections keep the time normalised and shift the total by their sum |
| `TimeSync.OrderIsDifference` | include/ara/tsync/time_sync.h:40-49 | for normalised times, t1 < t2 iff their difference is positive, and t1 = t2 iff it is 0 |
| `TimeSync.DifferenceIsTheCorrection` | src/ara/tsync/tsync.cpp:118-126 | the difference from a time to the same time corrected is the sum of the corrections while totals stay non-negative; differences are counted in nanoseconds |
| `TimeSync.ChronoRoundTrip` | src/ara/tsync/tsync.cpp:138-153 | clock points at or after the epoch survive the conversion to a time point and back, for 1 ns and 1 us ticks |
| `TimeSync.ChronoCountsTicks` | src/ara/tsync/tsync.cpp:138-153 | a clock value converts to that many ticks of time, and a time to the whole ticks in it |
| `TimeSync.TimePointRoundTripIff` | src/ara/tsync/tsync.cpp:138-153 | a normalised time survives the conversion to the clock and back iff it is a whole number of ticks |

## Left out

- Sockets, threads, sleeps, signals and `main`: replaced by arbitrary frames, steps and clock readings.
- Logging, console output and the HMI: output only.
- The meaning of float signals: they are carried as their four payload bytes, as the parser and the CRC treat them.
- SomeIp.SomeIpMessage.Deserialize: requires that the copy it is about to make lies inside the data, because outside the source's behaviour is undefined; `SomeIp.CopyInBoundsIff` says when that is.
- TimeSync.TimeBases.ApplyCorrection: requires the stored seconds in nanoseconds, and the totals, to fit 64 signed bits; beyond that the source's arithmetic is undefined.
- SampleQueue.EveryRunIsConsistent: does not cover an enqueue, while subscribed with capacity zero, into an empty queue: the source then pops an empty queue, which is undefined.
- BridgeThreads.EveryRunFromCreated: does not cover an `Init` while the loop runs, which would race with it for the start time, two loops at once, or other components offering or withdrawing catalog ids.
- SafetyThreads.SafeStopSurvivesInterleaving: follows the machine state only; the function groups of level 2 are requested in between.
- HealthManagement.PlatformHealthManagement.RegisterEntity: does not model the stored supervision configuration and times, which nothing reads.
- HealthManagement.PlatformHealthManagement.ReportCheckpoint: does not model the checkpoint time and the alive count, which nothing reads.
- SafetyMonitor.SafetyMonitorServiceSWC.PeriodicSafetyCheck: does not model the watchdog kick and its time.
- SafetyMonitor.SafetyMonitorServiceSWC.Init: does not model the recovery action stored with the health manager.
- `FindServices`, `GetActiveNetworks`, the SOME/IP transmit queue, safety snapshots, getters: they would only add easy members.
- The subscription of `VehicleSignalServiceProxy`, which holds its lock while discovery may call back into it.
- Event publishers, event subscribers, service finder, key-value storage and diagnostic monitor: declared without bodies.
- Key store, XOR cipher, stand-in MAC, signature and random stubs of the crypto provider.
- Identity and access management, logger registry, skeleton base and byte-swap macros.
- Reading the current time: the source ignores the stored time base there.
