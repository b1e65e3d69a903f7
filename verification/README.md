# Vanetza: buffers, congestion control, event loop and codecs

A Dafny model of the stateful core of the vendored Vanetza stack, with proofs of what its
operations keep, do and undo over whole runs.

- `Lifetime.dfy`: the one-byte packet lifetime and its reduction by queuing time.
- `ManualRuntime.dfy`: the event queue and its trigger loop, under which callbacks schedule and cancel.
- `Limeric.dfy`, `LimericRuns.dfy`: the periodic, drift-free schedule of the LIMERIC update, alone and
  in a runtime shared with other events.
- `CbfModel.dfy`, `CbfRuns.dfy`, `CbfPacketBuffer.dfy`: the contention-based forwarding buffer
  (Annexes E.3 and F.3 of ETSI EN 302 636-4-1 V1.3.1) as a state machine, theorems about all its
  runs, and the class over packet list, timer bimap, byte count, counters and pending event that
  refines it; `CbfLimits.dfy`: exactly when it stays within its capacity, when a duplicate is
  harmless, and when its flush is in time; `CbfRuntime.dfy`: the buffer driven by the
  runtime; `CbfHistory.dfy`: what it holds and lets out, from the operations alone.
- `FlowModel.dfy`, `FlowRuns.dfy`, `FlowControl.dfy`: the DCC gatekeeper in the same three layers;
  the transmit rate control is an arbitrary function of what it was notified about;
  `FlowLimits.dfy`, `FlowTiming.dfy`: exactly when its hooks name the packets they are about, when
  a trigger sends too early, and which runs avoid it; `FlowRuntime.dfy`: the gatekeeper driven by
  the runtime; `FlowHistory.dfy`: what it does with requests, by the requests and profiles alone.
- `SoftState.dfy`: the map with expiring entries, over a heap and a hash map.
- `Recency.dfy`: what a bounded recency list holds, the memory of seen packets and the LRU cache.
- `TcpFraming.dfy`: size-prefixed packets with Ethernet headers over a byte stream.
- `FullyMeshed.dfy`: the reactive DCC state machine with its sliding windows.
- `PacketBuffer.dfy`: the store-and-forward buffer with expiry, head drop and data that is buffered
  again while it is flushed; `PacketAging.dfy`: what that does to lifetimes.
- `Wkb.dfy`, `CountryData.dfy`: the country file, its WKB geometry (clause 8 of OGC 06-103r4),
  reader, writer and converter framing.
- `Codecs.dfy`, `GeoNetHeaders.dfy`, `GeoNetParser.dfy`: GeoNetworking headers (section 8.6 of
  ETSI EN 302 636-4-1 V1.2.1 for the basic header) and their parser; `GeoNetIndication.dfy`: the
  router's checks from received octets to the processing of an extended header.
- `Octets.dfy`, `Collections.dfy`: shared vocabulary.

Operations that change state in place are classes with methods; each method's contract equates
the abstract value after it with a function of the one before, and the theorems are about those
functions and their runs. Time is an integer number of microseconds, channel load a real in
[0, 1], a WKB coordinate its 64 bits. The runtime's clock, timeouts, packets, chunks, samples and
what callbacks do are parameters.

Where the code differs from its documentation or from what one would expect, the model follows
the code, and each time the exact condition is proved:

- the forwarding buffer stores one packet longer than its capacity (`CbfLimits.RunWithin`), a refused
  duplicate may have evicted others (`CbfLimits.DuplicateHarmlessIff`), and an update does not move
  the pending flush (`CbfLimits.RunArmed`);
- an overflow of the gatekeeper reports the arriving packet (`FlowLimits.RunHooksExact`), and a trigger
  does not check the delay of what it sends (`FlowLimits.TriggerPremature`, `FlowTiming.TimelyIff`);
- encoding a lifetime is not monotone (`Lifetimes.EncodeOrder`) and wraps from 6350 s
  (`Lifetimes.EncodeAccuracy`), and data flushed and buffered again often enough never ages
  (`PacketAging.NeverAges`, `PacketAging.LeavesIff`);
- refreshing an expired entry finds its old value (`SoftState.DropsInvisible`);
- a packet over 65535 bytes does not survive the TCP link (`TcpFraming.RoundTripExact`).

A cache of capacity zero holds one entry (`RecencyModel.WithinCapacityIff`); octets behind a geometry
within its announced size are ignored; the LIMERIC destructor cancels a scope in which nothing is
scheduled (`Limerics.DestroyedStillTicks`).

`dafny verify dfyconfig.toml` checks everything.

## Model

| member | source | states |
|---|---|---|
| `Lifetimes.EncodeNearest` | vanetza_patched/vanetza/geonet/lifetime.cpp:45-57 | for every duration in [0, 6350 s) encoding selects the coarsest base its range asks for and the nearest multiple of that unit, halves upwards |
| `Lifetimes.EncodeAccuracy` | vanetza_patched/vanetza/geonet/lifetime.cpp:45-86 | decoding an encoded duration is off by at most half the selected unit if and only if the duration is below 6350 s, where the six-bit multiplier starts to wrap |
| `Lifetimes.ValueRoundTrip` | vanetza_patched/vanetza/geonet/lifetime.cpp:45-86 | the value of a raw lifetime survives decode and encode if and only if it is not multiplier 63 of one of the three finer bases |
| `Lifetimes.RawRoundTrip` | vanetza_patched/vanetza/geonet/lifetime.cpp:45-86 | the raw octet itself is reproduced exactly for the listed multiplier ranges of each base |
| `Lifetimes.EncodeOrder` | vanetza_patched/vanetza/geonet/lifetime.cpp:45-57 | encoding keeps the order of two durations below 6350 s if and only if they are not one of the inverted pairs around 3.15 s, 63 s and 630 s |
| `Lifetimes.EncodeNeverGains` | vanetza_patched/vanetza/geonet/pending_packet.hpp:73-82 | whatever is left of a decodable lifetime never encodes to more than that lifetime |
| `Lifetimes.ReduceSound` | vanetza_patched/vanetza/geonet/pending_packet.hpp:68-85 | the remaining lifetime is max(0, L - max(0, q)), the octet on the wire never gains lifetime, is within half a unit of the remainder, and is zero when nothing remains |
| `Lifetimes.ReduceAges` | vanetza_patched/vanetza/geonet/pending_packet.hpp:68-85 | the octet after a reduction decodes to what is left, rounded to the nearest multiple of its selected unit |
| `Lifetimes.AgedBound` | vanetza_patched/vanetza/geonet/pending_packet.hpp:68-85 | one reduction moves a lifetime no more than half the unit it was given in away from the exact remainder |
| `Lifetimes.Lifetime.Set` | vanetza_patched/vanetza/geonet/lifetime.cpp:27-30 | setting base and multiplier keeps the base and the low six bits of the multiplier |
| `Lifetimes.Lifetime.EncodeDuration` | vanetza_patched/vanetza/geonet/lifetime.cpp:45-57 | the assigned octet is the specified encoding, half a unit accurate below 6350 s |
| `Lifetimes.PendingPacket.ReduceLifetime` | vanetza_patched/vanetza/geonet/pending_packet.hpp:68-85 | without a PDU nothing remains; with one the returned remainder and the new octet are those of the specification, and the packet length is unchanged |
| `Runtimes.EnqueuePending` | vanetza_patched/vanetza/common/manual_runtime.cpp:11-14 | scheduling inserts the deadline into the pending deadlines of its scope in order and leaves every other scope alone |
| `Runtimes.EnqueuedBehind` | vanetza_patched/vanetza/common/manual_runtime.cpp:11-14 | an event goes behind all events due up to the same time and in front of all later ones |
| `Runtimes.CancelPending` | vanetza_patched/vanetza/common/manual_runtime.cpp:21-27 | cancelling a scope removes exactly its pending deadlines and leaves every other scope alone |
| `Runtimes.DrainOrder` | vanetza_patched/vanetza/common/manual_runtime.cpp:57-72 | what a trigger fires comes from the due events, in deadline order |
| `Runtimes.DrainHeedsCancel` | vanetza_patched/vanetza/common/manual_runtime.cpp:57-72 | no event is fired whose scope a callback fired earlier in the same trigger has cancelled |
| `Runtimes.DrainComplete` | vanetza_patched/vanetza/common/manual_runtime.cpp:57-72 | a due event that no earlier callback cancels is fired exactly as often as it was due |
| `Runtimes.TriggerExact` | vanetza_patched/vanetza/common/manual_runtime.cpp:57-72 | a trigger fires exactly the due events, in order, except those cancelled by a callback fired before them |
| `Runtimes.ExecuteAllSplit` | vanetza_patched/vanetza/common/manual_runtime.cpp:57-72 | commands of callbacks that schedule only later than the trigger time act on due and later events separately |
| `Runtimes.ServeNext` | vanetza_patched/vanetza/common/manual_runtime.cpp:60-71 | serving the front of the queue and running its callback continues the drain of what was due |
| `Runtimes.ServeSettles` | vanetza_patched/vanetza/common/manual_runtime.cpp:57-72 | whatever callbacks schedule or cancel: if the loop ends, nothing due is left and the queue is ordered |
| `Runtimes.ServeMore` | vanetza_patched/vanetza/common/manual_runtime.cpp:57-72 | and how it ends does not depend on any bound on its rounds |
| `Runtimes.MeasureSettles` | vanetza_patched/vanetza/common/manual_runtime.cpp:57-72 | the loop ends for callbacks that make events due at once, if some measure of queue and history falls with every round |
| `Runtimes.ServeOrder` | vanetza_patched/vanetza/common/manual_runtime.cpp:57-72 | callbacks that schedule nothing before their own deadline are fired in deadline order, including events made due during the trigger |
| `Runtimes.LaterSettles` | vanetza_patched/vanetza/common/manual_runtime.cpp:57-72 | callbacks that only schedule for later are the special case in which the loop drains what was due at first |
| `Runtimes.ManualRuntime.Next` | vanetza_patched/vanetza/common/manual_runtime.cpp:29-36 | the earliest deadline, or none |
| `Runtimes.ManualRuntime.FireDue` | vanetza_patched/vanetza/common/manual_runtime.cpp:57-72 | the loop performs exactly the rounds specified for arbitrary callbacks that let it end |
| `Runtimes.ManualRuntime.Trigger` | vanetza_patched/vanetza/common/manual_runtime.cpp:43-72 | progress to a time, provided that callbacks let the loop end: fired and remaining events are those of every terminating specification run, only later events remain, and for callbacks that schedule only later the drain of what was due is fired |
| `Limerics.TickOnGrid` | vanetza_patched/vanetza/dcc/limeric.cpp:78-92 | the chosen tick lies on a multiple of twice the CBR interval if and only if the nominal time is not before the epoch or the clock itself lies on the grid; from the epoch on it is one to three intervals away |
| `Limerics.TickAfterLateness` | vanetza_patched/vanetza/dcc/limeric.cpp:78-92 | a callback served late continues at the tick after the grid point nearest to its service time; the next tick is exactly one step on if and only if the lateness is at most one interval |
| `Limerics.TickServed` | vanetza_patched/vanetza/dcc/limeric.cpp:70-92 | a runtime that holds one tick and is triggered fires it if it is due and then holds the next, within one round of its loop |
| `Limerics.DriftFree` | vanetza_patched/vanetza/dcc/limeric.cpp:70-92 | in a runtime that holds nothing else, triggered at whatever times: one tick on the grid stays pending, at least one step later for each tick served, and exactly one step later for each if and only if none is served later than one interval |
| `LimericRuns.OthersDoNotMatter` | vanetza_patched/vanetza/dcc/limeric.cpp:70-92 | whatever other events the runtime holds and their callbacks and the tick's listeners do, as long as the loop ends and they schedule no tick, the ticks fired and the one pending are those of a runtime without them |
| `LimericRuns.DriftFreeAmong` | vanetza_patched/vanetza/dcc/limeric.cpp:70-92 | so over every such run the tick stays free of drift under the same exact condition |
| `Limerics.PromptTicks` | vanetza_patched/vanetza/dcc/limeric.cpp:70-92 | in such a run the i-th tick fired is i steps after the first |
| `Limerics.Limeric.constructor` | vanetza_patched/vanetza/dcc/limeric.cpp:18-24 | construction leaves the first tick pending at the runtime |
| `Limerics.Limeric.Schedule` | vanetza_patched/vanetza/dcc/limeric.cpp:78-92 | scheduling leaves the next tick pending at the runtime in the null scope |
| `Limerics.Limeric.Destroy` | vanetza_patched/vanetza/dcc/limeric.cpp:26-29 | the destructor's cancel does not reach the pending tick, which was scheduled without a scope |
| `Limerics.DestroyedStillTicks` | vanetza_patched/vanetza/dcc/limeric.cpp:18-29 | after construction and destruction the tick is still pending, since it is in the null scope |
| `CbfRuns.AlwaysSound` | vanetza_patched/vanetza/geonet/cbf_packet_buffer.cpp:63-211 | in every run timers are ordered, identifiers and list nodes are distinct, the byte bound holds up to a single packet (made exact by CbfLimits), and a flush is pending while anything is stored |
| `CbfLimits.WithinCapacityIff` | vanetza_patched/vanetza/geonet/cbf_packet_buffer.hpp:95 | in every sound state the stored bytes are within the documented capacity if and only if no stored packet by itself is longer |
| `CbfLimits.StepWithin` | vanetza_patched/vanetza/geonet/cbf_packet_buffer.cpp:92-124 | an operation keeps the bytes within capacity if and only if it is not an effective addition of a longer packet |
| `CbfLimits.RunWithin` | vanetza_patched/vanetza/geonet/cbf_packet_buffer.hpp:95 | the bytes are within capacity at every point of a run if and only if no longer packet is added in it |
| `CbfLimits.OversizedIsStored` | vanetza_patched/vanetza/geonet/cbf_packet_buffer.cpp:92-124 | a concrete run in which a buffer for 100 bytes holds 101 |
| `CbfLimits.DuplicateHarmlessIff` | vanetza_patched/vanetza/geonet/cbf_packet_buffer.cpp:92-117 | a duplicate leaves the stored packets alone if and only if the buffer has room for its bytes as well, since room is made before it is rejected |
| `CbfLimits.DuplicateEvicts` | vanetza_patched/vanetza/geonet/cbf_packet_buffer.cpp:92-117 | a concrete run in which a rejected duplicate evicts another packet |
| `CbfRuns.StepConserves` | vanetza_patched/vanetza/geonet/cbf_packet_buffer.cpp:63-197 | what one operation takes out of the buffer is exactly what leaves by removal, fetch, head drop or flush |
| `CbfRuns.Conservation` | vanetza_patched/vanetza/geonet/cbf_packet_buffer.cpp:63-203 | in every run each accepted packet is either stored once or has left exactly once |
| `CbfRuns.HeadDropOldest` | vanetza_patched/vanetza/geonet/cbf_packet_buffer.cpp:99-105 | every packet dropped for room was stored and arrived before every packet kept |
| `CbfRuns.HeadDropMinimal` | vanetza_patched/vanetza/geonet/cbf_packet_buffer.cpp:99-105 | head drop ends as soon as the rest fits or is empty; the last packet dropped would not have fitted |
| `CbfRuns.UpdateArmed` | vanetza_patched/vanetza/geonet/cbf_packet_buffer.cpp:126-137 | restarting a timer keeps the pending flush in time if and only if the new expiry does not precede it, since an update does not reschedule |
| `CbfRuns.StepArmed` | vanetza_patched/vanetza/geonet/cbf_packet_buffer.cpp:63-211 | every operation other than such an update keeps the pending flush no later than the earliest timer |
| `CbfLimits.RunArmed` | vanetza_patched/vanetza/geonet/cbf_packet_buffer.cpp:63-211 | the flush is pending no later than the earliest timer at every point of a run if and only if no update in it sets an expiry before the flush pending at that moment |
| `CbfRuns.NothingOverdue` | vanetza_patched/vanetza/geonet/cbf_packet_buffer.cpp:173-211 | in such a run no stored timer is overdue once the runtime has served everything due |
| `CbfRuntime.FlushingSettles` | vanetza_patched/vanetza/geonet/cbf_packet_buffer.cpp:173-211 | as a callback of the runtime a flush schedules only for later and lets the loop end |
| `CbfRuntime.TriggerFlushes` | vanetza_patched/vanetza/geonet/cbf_packet_buffer.cpp:173-211 | among any other events, a trigger of the runtime flushes the buffer exactly as the state machine does and leaves its next flush pending |
| `CbfRuntime.NeverOverdue` | vanetza_patched/vanetza/geonet/cbf_packet_buffer.cpp:173-211 | driven by the runtime, after a run whose updates do not undercut the pending flush, a trigger of the runtime leaves no timer overdue |
| `CbfRuns.HurriedUpdateIsLate` | vanetza_patched/vanetza/geonet/cbf_packet_buffer.cpp:126-137 | a concrete run in which an update leaves a timer overdue although nothing is due at the runtime |
| `CbfRuns.FlushExact` | vanetza_patched/vanetza/geonet/cbf_packet_buffer.cpp:173-197 | a flush keeps exactly the packets whose timers have not expired and releases all others |
| `CbfRuns.FlushOrder` | vanetza_patched/vanetza/geonet/cbf_packet_buffer.cpp:173-203 | released packets leave in expiry order; one reaches the callback if and only if its lifetime exceeds its queuing time, and its lifetime on the wire has not grown |
| `CbfRuns.StoredThroughout` | vanetza_patched/vanetza/geonet/cbf_packet_buffer.cpp:92-137 | a packet stored at the end of a run under an old node was stored at its start with the same identifier and length, a lifetime that never grew, and a counter grown by its updates |
| `CbfRuns.CounterCountsUpdates` | vanetza_patched/vanetza/geonet/cbf_counter.cpp:14-37 | the counter of a stored packet is one plus the number of updates of its identifier since it was accepted, across head drops and rejected duplicates |
| `CbfRuns.CounterZeroIffAbsent` | vanetza_patched/vanetza/geonet/cbf_counter.cpp:19-37 | in every run the counter of an identifier is zero if and only if no packet with it is stored |
| `CbfHistory.AddExactly` | vanetza_patched/vanetza/geonet/cbf_packet_buffer.cpp:92-124 | an addition keeps exactly the packets that fit together with all later ones and the arriving packet, and stores that with its timer started if and only if none of those kept has its identifier |
| `CbfHistory.TakenExactly` | vanetza_patched/vanetza/geonet/cbf_packet_buffer.cpp:63-76 | removing and fetching take out exactly the packet with the identifier |
| `CbfHistory.InsertedBehind` | vanetza_patched/vanetza/geonet/cbf_packet_buffer.cpp:106-117 | a new timer runs out after all that run out at the same time |
| `CbfHistory.UpdateOrder` | vanetza_patched/vanetza/geonet/cbf_packet_buffer.cpp:126-137 | an update leaves its packet in its place if the new expiry still fits there, and otherwise puts it behind all that run out at the same time |
| `CbfHistory.StoredAsAccepted` | vanetza_patched/vanetza/geonet/cbf_packet_buffer.cpp:92-137 | from the operations alone: a stored packet's timer runs out the timeout of its last addition or update after the time of that, has been running since then, and its lifetime is that accepted less the time queued before each update |
| `CbfHistory.LeavesAsAccepted` | vanetza_patched/vanetza/geonet/cbf_packet_buffer.cpp:63-197 | from the operations alone: a packet that leaves has the identifier and length accepted; a flush lets it out no earlier than that timer; it is delivered or fetched if and only if its lifetime exceeds its queuing time, with what is left of it; dropped or removed, it is unchanged |
| `CbfHistory.LeavesInTime` | vanetza_patched/vanetza/geonet/cbf_packet_buffer.cpp:139-203 | a delivered or fetched packet carries the lifetime accepted less all the time since then, within half a unit of that lifetime for each update and for leaving, and never more than it |
| `CbfHistory.FetchYields` | vanetza_patched/vanetza/geonet/cbf_packet_buffer.cpp:139-160 | a fetch yields the packet if and only if it is stored and its lifetime exceeds its queuing time, and takes it out in any case |
| `CbfHistory.WakeFollows` | vanetza_patched/vanetza/geonet/cbf_packet_buffer.cpp:78-211 | the flush is moved if and only if another packet has come first, and then to its timer; an update does not move it |
| `CbfHistory.AlwaysOnTime` | vanetza_patched/vanetza/geonet/cbf_packet_buffer.cpp:78-211 | in every run without updates, while anything is stored the flush is pending for exactly the first timer |
| `CbfPacketBuffers.ErasedStructured` | vanetza_patched/vanetza/geonet/cbf_packet_buffer.cpp:63-90 | erasing one node from list, bimap, counters and byte count keeps them in one-to-one agreement and removes exactly that packet |
| `CbfPacketBuffers.AppendedStructured` | vanetza_patched/vanetza/geonet/cbf_packet_buffer.cpp:106-117 | appending a node and its timer keeps list, bimap and counters in one-to-one agreement and adds exactly that packet in timer order |
| `CbfPacketBuffers.RestartedStructured` | vanetza_patched/vanetza/geonet/cbf_packet_buffer.cpp:126-137 | replacing a timer in the bimap keeps the agreement and restarts exactly that packet's timer |
| `CbfPacketBuffers.CbfPacketBuffer.Add` | vanetza_patched/vanetza/geonet/cbf_packet_buffer.cpp:92-124 | adding head-drops, rejects a surviving duplicate, stores otherwise, and moves the pending flush only when the first timer is another one; other scopes' events are untouched |
| `CbfPacketBuffers.CbfPacketBuffer.Remove` | vanetza_patched/vanetza/geonet/cbf_packet_buffer.cpp:63-90 | removal takes out exactly the packet with the identifier, reports whether there was one, and moves the pending flush if it was the first |
| `CbfPacketBuffers.CbfPacketBuffer.Update` | vanetza_patched/vanetza/geonet/cbf_packet_buffer.cpp:126-137 | an update settles the lifetime, restarts the timer and counts the duplicate, and leaves the pending flush alone |
| `CbfPacketBuffers.CbfPacketBuffer.Fetch` | vanetza_patched/vanetza/geonet/cbf_packet_buffer.cpp:139-159 | fetching takes the packet out and returns it with reduced lifetime if any is left |
| `CbfPacketBuffers.CbfPacketBuffer.Flush` | vanetza_patched/vanetza/geonet/cbf_packet_buffer.cpp:173-197 | a flush releases exactly the packets with expired timers, calls back with those still alive in order, and makes the next flush pending |
| `CbfPacketBuffers.DeliveredInOrder` | vanetza_patched/vanetza/geonet/cbf_packet_buffer.cpp:173-191 | the callback gets every delivered packet, in the order in which they leave |
| `CbfPacketBuffers.OnlyDelivered` | vanetza_patched/vanetza/geonet/cbf_packet_buffer.cpp:173-191 | and nothing else |
| `CbfPacketBuffers.CbfPacketBuffer.Counter` | vanetza_patched/vanetza/geonet/cbf_packet_buffer.cpp:168-171 | the counter of the identifier |
| `CbfPacketBuffers.CbfPacketBuffer.MakeRoom` | vanetza_patched/vanetza/geonet/cbf_packet_buffer.cpp:99-105 | dropping from the front of the list until the counted bytes fit or the list is empty |
| `FlowRuns.Conservation` | vanetza_patched/vanetza/dcc/flow_control.cpp:25-148 | in every run each requested packet is in exactly one of queued, transmitted, dropped as expired, dropped by overflow |
| `FlowRuns.AlwaysFifo` | vanetza_patched/vanetza/dcc/flow_control.cpp:25-148 | in every run each category's packets are transmitted in request order, nothing is sent from a queue past its expiry and nothing is dropped as expired before it |
| `FlowRuns.NextQueueBest` | vanetza_patched/vanetza/dcc/flow_control.cpp:111-127 | the chosen queue's head has the least delay and, among equals, the highest category; no queue is chosen exactly when every head is delayed indefinitely |
| `FlowRuns.AlwaysScheduled` | vanetza_patched/vanetza/dcc/flow_control.cpp:38-73 | with finite delays, in every run a trigger is pending whenever a packet is queued |
| `FlowRuns.TriggerStalls` | vanetza_patched/vanetza/dcc/flow_control.cpp:38-57 | without that assumption, serving the only trigger leaves none pending if and only if every remaining head is delayed indefinitely |
| `FlowRuns.ImmediateOnlyUncontended` | vanetza_patched/vanetza/dcc/flow_control.cpp:25-36 | a request bypasses the queues if and only if no live packet of the same or a higher category waits and the rate control grants a zero delay |
| `FlowRuns.StepWithinLimit` | vanetza_patched/vanetza/dcc/flow_control.cpp:59-73 | queues within the length limit stay within it |
| `FlowHistory.SentAtOnceIff` | vanetza_patched/vanetza/dcc/mapping.cpp:13-26 | for every request of every run, by the profiles alone: it is sent at once if and only if its delay is zero and no packet of the same or a lower-numbered profile is queued that has not expired; otherwise it is queued |
| `FlowHistory.TriggerSendsIff` | vanetza_patched/vanetza/dcc/flow_control.cpp:38-51 | in every run a due trigger sends exactly the packet with the least delay of those first requested of each profile, the lowest-numbered profile among equals, and one at all if and only if some of these delays is not indefinite |
| `FlowHistory.OnlyAsRequested` | vanetza_patched/vanetza/dcc/flow_control.cpp:25-160 | in every run whatever is queued, sent, expired or overflowed is a packet as it was requested, expiring its lifetime after the time of that request |
| `FlowHistory.OutcomeWas` | vanetza_patched/vanetza/dcc/flow_control.cpp:25-160 | whatever an operation sends or drops, at that time, was queued, or has just been requested and is sent at once |
| `FlowHistory.NotifiedOfSent` | vanetza_patched/vanetza/dcc/flow_control.cpp:25-51 | in every run the rate control is notified of exactly what is sent, in order and at that time |
| `FlowHistory.HooksByKind` | vanetza_patched/vanetza/dcc/flow_control.cpp:59-160 | every outcome is reported once and in order, what is sent to the transmit hook and what is dropped to the drop hook, with the category of its profile |
| `FlowHistory.OverflowsExactly` | vanetza_patched/vanetza/dcc/flow_control.cpp:59-73 | a queued request drops no more packets than the length limit requires |
| `FlowHistory.ReschedulesExactly` | vanetza_patched/vanetza/dcc/flow_control.cpp:177-184 | rescheduling leaves one trigger pending, after the least delay of all packets at the front of a queue, and changes nothing if all of them are delayed indefinitely |
| `FlowLimits.RequestHooksExact` | vanetza_patched/vanetza/dcc/flow_control.cpp:25-73 | the hooks called in a request name the packets sent or dropped, in order, if and only if it is sent at once or its queue has room after expired packets are gone: an overflow reports the arriving packet |
| `FlowLimits.RunHooksExact` | vanetza_patched/vanetza/dcc/flow_control.cpp:25-160 | the hooks of a whole run name its outcomes if and only if every request in it finds such room |
| `FlowLimits.OverflowMisreported` | vanetza_patched/vanetza/dcc/flow_control.cpp:59-73 | a concrete run in which the first packet is dropped and the second reported |
| `FlowLimits.TrimmedOlder` | vanetza_patched/vanetza/dcc/flow_control.cpp:62-69 | what overflows was requested before the arriving packet |
| `FlowLimits.TriggerPremature` | vanetza_patched/vanetza/dcc/flow_control.cpp:38-51 | a trigger sends a packet whose delay has not passed if and only if every head left after dropping expired packets is delayed and not all of them indefinitely |
| `FlowLimits.StaleTriggerIsPremature` | vanetza_patched/vanetza/dcc/flow_control.cpp:38-73 | a concrete run from the initial state in which a stale trigger is due and would send a packet ten units early |
| `FlowTiming.SecondTriggerIff` | vanetza_patched/vanetza/dcc/flow_control.cpp:25-73 | pending triggers become more than one, or more than they were, if and only if a request that is not sent at once finds nothing queued while a trigger is still pending |
| `FlowTiming.SingleIff` | vanetza_patched/vanetza/dcc/flow_control.cpp:25-184 | at most one trigger is pending at every point of a run if and only if it makes no such request |
| `FlowTiming.TimelyIff` | vanetza_patched/vanetza/dcc/flow_control.cpp:25-184 | for every rate control whose delay counts down to a time set by what it was notified about: no trigger is pending for an earlier time at any point of a run if and only if nothing sent in it moves that time behind a trigger that stays pending |
| `FlowTiming.CalmNeverEarly` | vanetza_patched/vanetza/dcc/flow_control.cpp:38-57 | and in such a run no trigger sends before the delay has passed |
| `FlowTiming.SingleNeverEarly` | vanetza_patched/vanetza/dcc/flow_control.cpp:38-73 | in particular while at most one trigger is pending and nothing is sent between its scheduling and its firing |
| `FlowTiming.UntimelyFiresEarly` | vanetza_patched/vanetza/dcc/flow_control.cpp:38-73 | a trigger that is pending for too early a time does send too early, if a packet is requested before it is due |
| `FlowTiming.NothingWaits` | vanetza_patched/vanetza/dcc/flow_control.cpp:38-73 | conversely, under such a rate control no packet waits longer than it has to in any run: once transmissions are possible and no trigger is due, nothing is queued |
| `FlowRuntime.GatekeeperSettles` | vanetza_patched/vanetza/dcc/flow_control.cpp:38-57 | as a callback of the runtime the trigger lets the loop end at every time and for every rate control, also one that asks for no delay: packets queued and events due fall with every round |
| `FlowRuntime.CommandsOfTrigger` | vanetza_patched/vanetza/dcc/flow_control.cpp:38-57 | the trigger it schedules at the runtime is the one the state machine has pending |
| `FlowRuntime.TriggerFires` | vanetza_patched/vanetza/common/manual_runtime.cpp:57-72 | among any other events, a trigger of the runtime makes the gatekeeper fire as the state machine does until none of its triggers is due |
| `FlowControls.FlowControl.Request` | vanetza_patched/vanetza/dcc/flow_control.cpp:25-36 | a request drops expired packets and then transmits at once or enqueues, with exactly the hooks and accesses of the specification, other scopes' events untouched |
| `FlowControls.FlowControl.EnqueuePacket` | vanetza_patched/vanetza/dcc/flow_control.cpp:59-73 | enqueuing trims the queue, appends the packet, and schedules a trigger if nothing was queued before |
| `FlowControls.FlowControl.Overflow` | vanetza_patched/vanetza/dcc/flow_control.cpp:62-69 | packets are dropped from the front while the queue reaches the limit, each reported with the arriving packet |
| `FlowControls.FlowControl.OnTrigger` | vanetza_patched/vanetza/dcc/flow_control.cpp:38-51 | a trigger drops expired packets, transmits the head of the best queue without asking for its delay again, and schedules the next |
| `FlowControls.AccessedIffSent` | vanetza_patched/vanetza/dcc/flow_control.cpp:150-160 | the access layer is handed every packet that is sent, in order |
| `FlowControls.FlowControl.FindNext` | vanetza_patched/vanetza/dcc/flow_control.cpp:111-127 | the loop over the categories finds the specified best queue |
| `FlowControls.FlowControl.FindContention` | vanetza_patched/vanetza/dcc/flow_control.cpp:87-101 | whether a packet of the same or a higher category is waiting |
| `FlowControls.FlowControl.DropAllExpired` | vanetza_patched/vanetza/dcc/flow_control.cpp:135-148 | exactly the packets past their expiry leave the queues, the others keep their order |
| `FlowControls.FlowControl.Reschedule` | vanetza_patched/vanetza/dcc/flow_control.cpp:177-184 | all pending triggers of this instance are replaced by one for the best queue, if there is one |
| `SoftState.DropTransparent` | vanetza_patched/vanetza/geonet/soft_state_map.hpp:160-196 | dropping removes exactly the expired keys, and no lookup or iteration, then or later, can tell |
| `SoftState.ReadingChangesNothing` | vanetza_patched/vanetza/geonet/soft_state_map.hpp:198-211 | reading a visible entry changes no lookup then or at any later time |
| `SoftState.VisibleExactly` | vanetza_patched/vanetza/geonet/soft_state_map.hpp:104-235 | in every run, from the operations alone: a key is visible if and only if no more time has passed since it was last created, refreshed or resurrected than the lifetime set at that time, and then has the value it was created with or last written |
| `SoftState.AccessAlike` | vanetza_patched/vanetza/geonet/soft_state_map.hpp:150-160 | refreshing a key keeps two maps indistinguishable to lookups if and only if they store the same for it, counting the creator's value where one stores nothing, or the lifetime is negative and hides the result |
| `SoftState.DropsInvisible` | vanetza_patched/vanetza/geonet/soft_state_map.hpp:104-235 | no lookup at any point of a run and no access in it tells whether entries were dropped if and only if no access meets a key that was dropped with a value other than the creator supplies, for every lifetime |
| `SoftState.DropsInvisibleToLookups` | vanetza_patched/vanetza/geonet/soft_state_map.hpp:104-235 | lookups alone tell under the same condition, as long as no lifetime is negative |
| `SoftState.DropTells` | vanetza_patched/vanetza/geonet/soft_state_map.hpp:150-172 | a concrete run in which lookups after a refresh differ with and without a drop |
| `SoftState.EraseEntry` | vanetza_patched/vanetza/geonet/soft_state_map.hpp:166-172 | erasing a heap item and its slot keeps heap and map in one-to-one agreement and erases exactly that entry |
| `SoftState.TopDecides` | vanetza_patched/vanetza/geonet/soft_state_map.hpp:166-172 | an unexpired heap top means that no stored entry has expired |
| `SoftState.SoftStateMap.GetData` | vanetza_patched/vanetza/geonet/soft_state_map.hpp:198-211 | an absent key is created, an expired one resurrected with its old value, a visible one left as it is |
| `SoftState.SoftStateMap.RefreshKey` | vanetza_patched/vanetza/geonet/soft_state_map.hpp:150-160 | a refresh renews the lifetime and finds the stored value, even an expired one, before a created one |
| `SoftState.SoftStateMap.GetValuePtr` | vanetza_patched/vanetza/geonet/soft_state_map.hpp:118-133 | the value exactly if the key is stored and not expired |
| `SoftState.SoftStateMap.HasValue` | vanetza_patched/vanetza/geonet/soft_state_map.hpp:140-143 | true exactly for visible keys |
| `SoftState.SoftStateMap.Map` | vanetza_patched/vanetza/geonet/soft_state_map.hpp:179-195 | exactly the entries that have not expired |
| `SoftState.SoftStateMap.DropExpired` | vanetza_patched/vanetza/geonet/soft_state_map.hpp:166-172 | popping the heap while its top is expired leaves exactly the entries that have not expired, heap and map in agreement |
| `RecencyModel.AlwaysMostRecent` | vanetza_patched/vanetza/geonet/gbc_memory.cpp:8-44 | in every run, also with changing capacities, the memory holds the most recently used identifiers in order of last use, as many as it holds |
| `RecencyModel.HoldsExactly` | vanetza_patched/vanetza/geonet/gbc_memory.cpp:8-44 | in every run the capacity is the number set last, at least one, and exactly the most recently used identifiers are held, as many as follows from the operations alone |
| `RecencyModel.KnownInRun` | vanetza_patched/vanetza/geonet/gbc_memory.cpp:46-49 | and an identifier is known if and only if fewer others have been used since |
| `RecencyModel.SteadyHoldsLast` | vanetza_patched/vanetza/geonet/gbc_memory.cpp:8-49 | without a change of capacity c the last c distinct identifiers are held, and one is known if and only if fewer than c others have been used since |
| `RecencyModel.HoldsLastDistinct` | vanetza_patched/vanetza/geonet/gbc_memory.cpp:24-44 | at fixed capacity c exactly the last max(1, c) distinct identifiers by last use are held |
| `RecencyModel.WithinCapacityIff` | vanetza_patched/vanetza/common/lru_cache.hpp:49-75 | no more is held than the capacity if and only if the capacity is at least one or nothing has been used |
| `RecencyModel.KnownIff` | vanetza_patched/vanetza/geonet/gbc_memory.cpp:46-49 | an identifier is known if and only if it was used and fewer than max(1, c) different ones were since |
| `RecencyModel.Inclusion` | vanetza_patched/vanetza/geonet/gbc_memory.cpp:8-49 | of two memories with the same uses and capacities that are never smaller, the larger knows everything the smaller knows, in the same order |
| `RecencyModel.TouchRefines` | vanetza_patched/vanetza/geonet/gbc_memory.cpp:24-44 | one use keeps the memory a prefix of the distinct identifiers by last use |
| `GbcMemories.GbcMemory.SetCapacity` | vanetza_patched/vanetza/geonet/gbc_memory.cpp:8-17 | a capacity below one becomes one, and surplus identifiers are forgotten oldest first |
| `GbcMemories.GbcMemory.Remember` | vanetza_patched/vanetza/geonet/gbc_memory.cpp:24-44 | a known identifier moves to the end of the queue, an unknown one is appended after making space; reports whether it was known |
| `GbcMemories.GbcMemory.Knows` | vanetza_patched/vanetza/geonet/gbc_memory.cpp:46-49 | membership |
| `GbcMemories.GbcMemory.Count` | vanetza_patched/vanetza/geonet/gbc_memory.cpp:19-22 | the number of known identifiers |
| `LruCaches.LruCache.Access` | vanetza_patched/vanetza/common/lru_cache.hpp:49-57 | every access returns the generator's value for the key and makes it the most recent, index and map in agreement; a cache of capacity zero still holds one entry |
| `LruCaches.LruCache.Add` | vanetza_patched/vanetza/common/lru_cache.hpp:64-75 | a full cache first drops its least recent key |
| `LruCaches.LruCache.Refresh` | vanetza_patched/vanetza/common/lru_cache.hpp:77-82 | a cached key moves to the front |
| `LruCaches.LruCache.Remove` | vanetza_patched/vanetza/common/lru_cache.hpp:84-90 | the least recent key leaves index and map; nothing happens to an empty cache |
| `TcpFraming.NothingLost` | vanetza_patched/tools/socktap/tcp_link.cpp:148-166 | every stream is the framing of the packets cut from it followed by the rest |
| `TcpFraming.RestIncomplete` | vanetza_patched/tools/socktap/tcp_link.cpp:148-166 | the rest holds no complete packet |
| `TcpFraming.OnlyFraming` | vanetza_patched/tools/socktap/tcp_link.cpp:27-36 | packets of at most 65535 bytes followed by an incomplete rest are cut back into exactly those packets and that rest |
| `TcpFraming.RoundTripExact` | vanetza_patched/tools/socktap/tcp_link.cpp:27-36 | a stream of framed packets is cut back into them if and only if each has at most 65535 bytes, since the size prefix is truncated to 16 bits |
| `TcpFraming.FrameLayout` | vanetza_patched/tools/socktap/tcp_link.cpp:27-36 | the size precedes the packet, most significant octet first |
| `TcpFraming.CutEarly` | vanetza_patched/tools/socktap/tcp_link.cpp:148-166 | cutting what has arrived so far and continuing with the rest is cutting everything at once |
| `TcpFraming.ChunksDoNotMatter` | vanetza_patched/tools/socktap/tcp_link.cpp:148-166 | however a stream is chunked, packets passed up and bytes kept are those of the whole stream |
| `TcpFraming.Delivery` | vanetza_patched/tools/socktap/tcp_link.cpp:148-166 | of fitting packets sent, a prefix has been passed up, whole and in order; the bytes kept and those outstanding are exactly the remaining frames |
| `TcpFraming.HeaderBack` | vanetza_patched/vanetza/net/ethernet_header.cpp:9-43 | decoding an Ethernet header gives back the addresses and the type it was created from |
| `TcpFraming.HeaderLayout` | vanetza_patched/vanetza/net/ethernet_header.cpp:9-22 | destination, source, and the type with its most significant octet first |
| `TcpFraming.HeaderExact` | vanetza_patched/vanetza/net/ethernet_header.cpp:9-43 | and creating a decoded header gives back its 14 octets |
| `TcpFraming.SentIsIndicated` | vanetza_patched/tools/socktap/tcp_link.cpp:168-181 | packets sent with an Ethernet header are all indicated with that header and their payload |
| `TcpFraming.IndicatedWasSent` | vanetza_patched/tools/socktap/tcp_link.cpp:168-181 | what is indicated is octet for octet the packets passed up, without those too short for a header |
| `TcpFraming.EndToEnd` | vanetza_patched/tools/socktap/tcp_link.cpp:27-181 | once all octets have arrived, in whatever chunks, the packets have come out whole if and only if each fits its size prefix, and then exactly the headers and payloads sent have been indicated |
| `TcpFraming.Request` | vanetza_patched/tools/socktap/tcp_link.cpp:27-43 | the layers are written behind a two-byte prefix of their total size, most significant byte first |
| `TcpFraming.TcpSocket.ReceiveHandler` | vanetza_patched/tools/socktap/tcp_link.cpp:148-166 | a chunk is appended and every complete packet passed up, terminating with an incomplete rest; an error changes only the status |
| `TcpFraming.TcpSocket.PassUp` | vanetza_patched/tools/socktap/tcp_link.cpp:168-181 | a packet shorter than an Ethernet header is dropped, any other indicated with its decoded header if a callback is set |
| `TcpFraming.TcpSocket.GetNextPacketSize` | vanetza_patched/tools/socktap/tcp_link.cpp:183-190 | the size prefix, or zero while it has not arrived |
| `FullyMeshed.NoDirectSwing` | vanetza_patched/vanetza/dcc/fully_meshed_state_machine.cpp:103-127 | the machine never changes between relaxed and restrictive directly |
| `FullyMeshed.TransitionsByWindow` | vanetza_patched/vanetza/dcc/fully_meshed_state_machine.cpp:103-178 | each change of mode happens if and only if all samples of the last second, or of the last five, lie on the respective side of its threshold |
| `FullyMeshed.RestrictiveLasts` | vanetza_patched/vanetza/dcc/fully_meshed_state_machine.cpp:103-127 | restrictive, once entered, lasts through at least the next 49 updates |
| `FullyMeshed.RestrictiveEnds` | vanetza_patched/vanetza/dcc/fully_meshed_state_machine.cpp:103-127 | and ends at the 50th when the load drops at once |
| `FullyMeshed.RelaxedStaysAway` | vanetza_patched/vanetza/dcc/fully_meshed_state_machine.cpp:103-127 | relaxed, once left, is not entered again at any of the next 49 updates |
| `FullyMeshed.CoolsDown` | vanetza_patched/vanetza/dcc/fully_meshed_state_machine.cpp:103-127 | after 51 samples below 0.19 the machine is relaxed, whatever came before |
| `FullyMeshed.RampsUp` | vanetza_patched/vanetza/dcc/fully_meshed_state_machine.cpp:103-127 | after 11 samples of at least 0.59 the machine is restrictive, whatever came before |
| `FullyMeshed.Settles` | vanetza_patched/vanetza/dcc/fully_meshed_state_machine.cpp:103-127 | after 50 samples in between the machine is active in the substate of the thresholds reached by the highest |
| `FullyMeshed.LighterIsFaster` | vanetza_patched/vanetza/dcc/fully_meshed_state_machine.cpp:103-138 | of two load histories, one nowhere higher than the other, the lighter never has the longer transmission interval |
| `FullyMeshed.MinUpToMax` | vanetza_patched/vanetza/dcc/fully_meshed_state_machine.cpp:146-178 | the precondition min <= max of the active state's update always holds |
| `FullyMeshed.ChooseSubstate` | vanetza_patched/vanetza/dcc/fully_meshed_state_machine.cpp:46-63 | the larger of the two threshold counts, capped at 4, is always that of the maximum: the minimum never decides |
| `FullyMeshed.ThresholdsEven` | vanetza_patched/vanetza/dcc/fully_meshed_state_machine.cpp:46-63 | the thresholds are evenly spaced from the load that activates the machine to the one that makes it restrictive |
| `FullyMeshed.UpperBound` | vanetza_patched/vanetza/dcc/fully_meshed_state_machine.cpp:54-58 | the first threshold above a load |
| `FullyMeshed.FullyMeshedStateMachine.Update` | vanetza_patched/vanetza/dcc/fully_meshed_state_machine.cpp:103-127 | an update appends the sample to the ring buffer and leaves the machine in the mode of the whole history |
| `FullyMeshed.FullyMeshedStateMachine.MinChannelLoad` | vanetza_patched/vanetza/dcc/fully_meshed_state_machine.cpp:146-161 | the minimum of the last ten samples of the history, zero without any |
| `FullyMeshed.FullyMeshedStateMachine.MaxChannelLoad` | vanetza_patched/vanetza/dcc/fully_meshed_state_machine.cpp:163-178 | the maximum of the last fifty samples of the history, zero without any |
| `FullyMeshed.FullyMeshedStateMachine.TransmissionInterval` | vanetza_patched/vanetza/dcc/fully_meshed_state_machine.cpp:65-77 | the interval of the current mode; the substate index is always in range |
| `PacketBuffers.PushExact` | vanetza_patched/vanetza/geonet/packet_buffer.cpp:30-44 | data that fits the buffer is stored behind the longest suffix of unexpired data that fits beside it; data that does not leaves the buffer empty |
| `PacketBuffers.PushWithinCapacity` | vanetza_patched/vanetza/geonet/packet_buffer.cpp:30-44 | stored bytes never exceed the capacity |
| `PacketBuffers.Conservation` | vanetza_patched/vanetza/geonet/packet_buffer.cpp:30-84 | in every run each attempt to push, also by data being flushed, is exactly once held, flushed, expired, head-dropped or refused |
| `PacketBuffers.AlwaysFine` | vanetza_patched/vanetza/geonet/packet_buffer.cpp:30-84 | in every run, whatever data re-adds while it is flushed, data is flushed in the order pushed, never after its lifetime and with exactly the rest of it, and expires only after it |
| `PacketBuffers.FlushHandsOut` | vanetza_patched/vanetza/geonet/packet_buffer.cpp:46-61 | a flush hands out the unexpired data in order and nothing else, whatever is re-added meanwhile |
| `PacketBuffers.FlushLeaves` | vanetza_patched/vanetza/geonet/packet_buffer.hpp:81-88 | what remains after a flush is what the data re-added during it makes of an empty buffer |
| `PacketAging.ReaddedDeadline` | vanetza_patched/vanetza/geonet/packet_buffer.cpp:30-61 | data re-added when flushed gets a deadline within half a unit of its old one, later if and only if its remaining time is rounded up |
| `PacketAging.FullAtEveryFlush` | vanetza_patched/vanetza/geonet/packet_buffer.cpp:30-61 | data re-added at each of some flushes, whenever these are, has its whole lifetime left after every one of them if and only if no gap between them takes more than half a unit off it, the unit being that of what the gap leaves |
| `PacketAging.NeverAges` | vanetza_patched/vanetza/geonet/packet_buffer.cpp:30-61 | with a fixed period: the whole lifetime is left after any number of flushes, in whatever octet, if and only if the period takes at most half a unit off it, the unit being that of what one period leaves |
| `PacketAging.LeavesIff` | vanetza_patched/vanetza/geonet/packet_buffer.cpp:30-61 | such data leaves the buffer at some flush if and only if the period takes more than that off it: what ages at all ages away |
| `PacketAging.DefaultOutlives` | vanetza_patched/vanetza/geonet/mib.cpp:36 | a packet of the default lifetime of 60 s, re-added every 0.4 s, never leaves, although its octet changes |
| `PacketAging.MaximumOutlives` | vanetza_patched/vanetza/geonet/mib.cpp:35 | and one of the maximum lifetime of 600 s, re-added every 4 s, does not either |
| `PacketBuffers.PacketBuffer.PushData` | vanetza_patched/vanetza/geonet/packet_buffer.cpp:30-44 | a push leaves the specified contents and exits, byte count equal to the sum, and returns true if and only if the data alone fits |
| `PacketBuffers.PacketBuffer.Flush` | vanetza_patched/vanetza/geonet/packet_buffer.cpp:46-61 | the buffer is emptied, unexpired data handed out in order with reduced lifetime, and what it re-adds stored as by pushing, all as in the specification |
| `PacketBuffers.PacketBuffer.DropHead` | vanetza_patched/vanetza/geonet/packet_buffer.cpp:63-71 | the head leaves and its bytes are given back, if there is one |
| `PacketBuffers.PacketBuffer.DropExpired` | vanetza_patched/vanetza/geonet/packet_buffer.cpp:73-84 | exactly the expired nodes leave |
| `PacketBuffers.PacketBuffer.DropBytes` | vanetza_patched/vanetza/geonet/packet_buffer.cpp:86-90 | heads are dropped until there is room; reports whether there is |
| `Wkb.ManyWritten` | vanetza_patched/vanetza/geodesy/country_data_reader.cpp:58-98 | a counted repetition of items that can be read back is read back |
| `Wkb.ManyRead` | vanetza_patched/vanetza/geodesy/country_data_reader.cpp:58-98 | a counted repetition that is accepted is exactly what is written for its items |
| `Wkb.WordLayout` | vanetza_patched/vanetza/geodesy/country_data_reader.cpp:34-41 | a word has its least significant octet first, or last |
| `Wkb.GeometryLayout` | vanetza_patched/vanetza/geodesy/country_data_reader.cpp:102-151 | order mark 1 means least significant octet first, any other last; 3 is a polygon and 6 a multi-polygon |
| `Wkb.PointLayout` | vanetza_patched/vanetza/geodesy/country_data_reader.cpp:43-88 | longitude before latitude, the octets of each in the order of the mark |
| `Wkb.PointsWritten` | vanetza_patched/vanetza/geodesy/country_data_reader.cpp:80-88 | written coordinates are read back bit for bit in either byte order |
| `Wkb.RingRead` | vanetza_patched/vanetza/geodesy/country_data_reader.cpp:67-88 | a ring is accepted only as the octets written for it, and reading stays within the data |
| `Wkb.GeometryWritten` | vanetza_patched/vanetza/geodesy/country_data_reader.cpp:102-151 | every polygon or multi-polygon whose counts fit 32 bits is read back from its encoding, in either and also mixed byte order, whatever follows |
| `Wkb.GeometryRead` | vanetza_patched/vanetza/geodesy/country_data_reader.cpp:102-151 | whatever octets are accepted are exactly the encoding of the geometry read, and the reported position lies within the data |
| `CountryFile.EntryWritten` | vanetza_patched/vanetza/geodesy/country_data_reader.hpp:95-121 | a written entry is read back whatever follows, including ignored octets within its announced size |
| `CountryFile.EntryRead` | vanetza_patched/vanetza/geodesy/country_data_reader.hpp:95-121 | an accepted entry is exactly the octets written for it and consumes some of the data, so the loop terminates |
| `CountryFile.FileWritten` | vanetza_patched/vanetza/geodesy/country_data_reader.hpp:84-125 | every list of entries that can be written is read back in order, to the end of the file |
| `CountryFile.EntryLayout` | vanetza_patched/vanetza/geodesy/country_data_reader.hpp:84-121 | an entry is its code and its size, least significant octets first, then its geometry |
| `CountryFile.FileLayout` | vanetza_patched/vanetza/geodesy/country_data_reader.hpp:84-95 | a file is version 1, least significant octet first, and its entries one after the other |
| `CountryFile.RingsHandedOn` | vanetza_patched/vanetza/geodesy/country_data_reader.cpp:58-98 | the first ring is handed on as the outer one, the others as they follow |
| `CountryFile.AcceptedExactly` | vanetza_patched/vanetza/geodesy/country_data_reader.hpp:84-125 | a file is accepted if and only if it is one that can be written, and then it is the one written for the entries read |
| `CountryFile.RejectedAtFault` | vanetza_patched/vanetza/geodesy/country_data_reader.hpp:84-125 | a rejected file starts with the writing of the entries handed on, no further entry could have been, and the fault lies behind them |
| `CountryFile.ConvertedIsRead` | vanetza_patched/tools/country-data/convert.py:62-93 | what the converter writes for a shapefile is handed on by the reader: the records kept, in order, with the first ring of each polygon outside |
| `CountryFile.ReadU32` | vanetza_patched/vanetza/geodesy/country_data_reader.cpp:34-41 | four bytes in the chosen order |
| `CountryFile.ReadF64` | vanetza_patched/vanetza/geodesy/country_data_reader.cpp:43-53 | the bits of eight bytes in the chosen order |
| `CountryFile.ParseRings` | vanetza_patched/vanetza/geodesy/country_data_reader.cpp:58-98 | the loop over rings reads what the specification reads, first ring outside, and stops at the same fault and position |
| `CountryFile.ParsePolygonBody` | vanetza_patched/vanetza/geodesy/country_data_reader.cpp:58-98 | polygon, end position, or fault with its position relative to the body |
| `CountryFile.ParsePolygons` | vanetza_patched/vanetza/geodesy/country_data_reader.cpp:123-146 | the loop over the polygons of a multi-polygon, with fault positions relative to the whole |
| `CountryFile.ParseWkb` | vanetza_patched/vanetza/geodesy/country_data_reader.cpp:102-151 | polygons, end position, or fault with its message and position |
| `CountryFile.ReadEntryAt` | vanetza_patched/vanetza/geodesy/country_data_reader.hpp:95-121 | one entry's call, or its fault with its position in the file |
| `CountryFile.ReadCountryData` | vanetza_patched/vanetza/geodesy/country_data_reader.hpp:84-125 | the callbacks made are exactly the entries before the first fault; success reports the length of the data, a fault its message and a position within the data |
| `Codecs.PairLawful` | vanetza_patched/vanetza/geonet/basic_header.cpp:48-69 | two codecs that each read what they write and write what they read do so one after the other |
| `Codecs.MappedLawful` | vanetza_patched/vanetza/geonet/basic_header.cpp:48-69 | and so does a codec whose value is repacked reversibly |
| `Codecs.U16Octets` | vanetza_patched/vanetza/common/serialization.hpp:28-34 | a 16-bit number is two octets, the most significant first |
| `Codecs.U32Octets` | vanetza_patched/vanetza/common/serialization.hpp:28-34 | a 32-bit number is its two halves, the most significant first |
| `Codecs.I32Octets` | vanetza_patched/vanetza/common/serialization.hpp:45-52 | a signed number is written in two's complement |
| `GeoNetHeaders.BasicLayout` | vanetza_patched/vanetza/geonet/basic_header.cpp:48-57 | version and next header share the first octet; reserved octet, lifetime and hop limit follow |
| `GeoNetHeaders.CommonLayout` | vanetza_patched/vanetza/geonet/common_header.cpp:65-77 | next header and reserved bits share the first octet; header type, traffic class and flags follow, then the tail |
| `GeoNetHeaders.CommonTailLayout` | vanetza_patched/vanetza/geonet/common_header.cpp:73-76 | payload length in 16 bits, maximum hop limit, reserved octet |
| `GeoNetHeaders.MacLayout` | vanetza_patched/vanetza/net/mac_address.cpp:87-92 | six octets in order |
| `GeoNetHeaders.AddressLayout` | vanetza_patched/vanetza/geonet/address.cpp:48-57 | flag, station type and country code in one 16-bit word, then the MAC address |
| `GeoNetHeaders.LpvLayout` | vanetza_patched/vanetza/geonet/position_vector.cpp:85-95 | address, timestamp, latitude, longitude, accuracy flag with speed, heading, in this order |
| `GeoNetHeaders.AreaLayout` | vanetza_patched/vanetza/geonet/gbc_gac_header.cpp:100-111 | latitude, longitude, both distances and the angle, in this order |
| `GeoNetHeaders.MultiHopLayout` | vanetza_patched/vanetza/geonet/tsb_header.cpp:11-16 | sequence number, reserved word, position vector |
| `GeoNetHeaders.GeoBroadcastLayout` | vanetza_patched/vanetza/geonet/gbc_gac_header.cpp:100-111 | sequence number, reserved word, position vector, area, reserved word |
| `GeoNetHeaders.BasicLawful` | vanetza_patched/vanetza/geonet/basic_header.cpp:48-69 | the basic header and its 4 octets determine each other |
| `GeoNetHeaders.CommonLawful` | vanetza_patched/vanetza/geonet/common_header.cpp:65-95 | the common header and its 8 octets determine each other |
| `GeoNetHeaders.AddressLawful` | vanetza_patched/vanetza/geonet/address.cpp:48-69 | flag, station type, country code and MAC address and the 8 octets of an address determine each other |
| `GeoNetHeaders.SixteenBits` | vanetza_patched/vanetza/geonet/address.cpp:59-64 | flag, five bits and ten bits make up the 16-bit word |
| `GeoNetHeaders.LpvLawful` | vanetza_patched/vanetza/geonet/position_vector.cpp:85-108 | a long position vector and its 24 octets determine each other, position accuracy flag and 15-bit speed sharing a word |
| `GeoNetHeaders.SingleHopLawful` | vanetza_patched/vanetza/geonet/shb_header.cpp:15-25 | a single-hop header and its 28 octets determine each other |
| `GeoNetHeaders.MultiHopLawful` | vanetza_patched/vanetza/geonet/tsb_header.cpp:11-23 | a multi-hop header and its 28 octets determine each other |
| `GeoNetHeaders.GeoBroadcastLawful` | vanetza_patched/vanetza/geonet/gbc_gac_header.cpp:100-124 | a GeoBroadcast header and its 44 octets determine each other |
| `GeoNetParsers.PduWritten` | vanetza_patched/vanetza/geonet/pdu.cpp:12-36 | every unsecured packet whose header type fits its extended header is parsed from its serialization, whatever payload follows, and its length is the sum of the header lengths |
| `GeoNetParsers.PduRead` | vanetza_patched/vanetza/geonet/parser.cpp:25-126 | whatever octets parse as a packet are byte for byte its serialization followed by the rest, and the parsed bytes are the header lengths |
| `GeoNetParsers.ParsesExactly` | vanetza_patched/vanetza/geonet/parser.cpp:25-126 | parsing is complete if and only if the sixth octet names a known header type and the data is long enough for it |
| `GeoNetParsers.HeaderTypes` | vanetza_patched/vanetza/geonet/header_type.hpp:13-28 | the sixth octet of whatever is parsed is 0x10 for a beacon, 0x40 to 0x42 for a GeoBroadcast, 0x50 for a single-hop and 0x51 for a multi-hop header, and for nothing else |
| `GeoNetParsers.DeserializeBasic` | vanetza_patched/vanetza/geonet/basic_header.cpp:59-69 | fields are read in order; too few octets are used up and nothing is returned |
| `GeoNetParsers.DeserializeCommon` | vanetza_patched/vanetza/geonet/common_header.cpp:79-95 | fields are read in order; too few octets are used up and nothing is returned |
| `GeoNetParsers.DeserializeAddress` | vanetza_patched/vanetza/geonet/address.cpp:59-69 | word and MAC address are read and unpacked |
| `GeoNetParsers.DeserializeMac` | vanetza_patched/vanetza/net/mac_address.cpp:94-99 | six octets are read |
| `GeoNetParsers.DeserializeLpv` | vanetza_patched/vanetza/geonet/position_vector.cpp:97-108 | fields are read in order, flag and speed unpacked from one word |
| `GeoNetParsers.DeserializeGeoBroadcast` | vanetza_patched/vanetza/geonet/gbc_gac_header.cpp:113-124 | fields are read in order; too few octets are used up and nothing is returned |
| `GeoNetParsers.DeserializeSingleHop` | vanetza_patched/vanetza/geonet/shb_header.cpp:21-25 | position vector and DCC field are read |
| `GeoNetParsers.DeserializeMultiHop` | vanetza_patched/vanetza/geonet/tsb_header.cpp:18-23 | sequence number, reserved word and position vector are read |
| `GeoNetParsers.Parser.ParseBasic` | vanetza_patched/vanetza/geonet/parser.cpp:25-36 | four bytes parsed or, if the header is cut short, none while the archive is used up |
| `GeoNetParsers.Parser.ParseCommon` | vanetza_patched/vanetza/geonet/parser.cpp:38-49 | eight bytes parsed or none |
| `GeoNetParsers.Parser.ParseExtended` | vanetza_patched/vanetza/geonet/parser.cpp:83-121 | the extended header of the type, its length parsed, or none; types without an implementation leave the archive alone |
| `GeoNetIndication.ProcessedIff` | vanetza_patched/vanetza/geonet/router.cpp:394-450 | a packet is handed to the processing of its extended header unsecured if and only if its headers parse, version, next header and security settings allow it, its hop limit does not exceed the maximum, and the announced payload is there; whether it is then passed up is not modelled |
| `GeoNetIndication.ProcessedExactly` | vanetza_patched/vanetza/geonet/router.cpp:394-590 | packet and payload are handed to that processing if and only if the octets are the serialization of that acceptable packet, the payload of the announced length, and anything behind it |
| `GeoNetIndication.HandedOnIff` | vanetza_patched/vanetza/geonet/router.cpp:394-417 | a packet goes on to decapsulation if and only if its first octet has the router's version and next header 2; next headers other than 1 and 2 are ignored |
| `GeoNetIndication.DroppedAtOnce` | vanetza_patched/vanetza/geonet/router.cpp:394-417 | a packet is dropped before its common header is read if and only if it is shorter than four octets, of another version, or unsecured where security is strict |
| `GeoNetIndication.DroppedIff` | vanetza_patched/vanetza/geonet/router.cpp:419-590 | an unsecured packet is dropped for exactly the first of: too short for a common header, hop limit above the maximum, extended header not readable, payload missing |
| `GeoNetIndication.Indicate` | vanetza_patched/vanetza/geonet/router.cpp:394-590 | parsing and checking header after header, then trimming, reaches the specified verdict: processing of the extended header, the reason for dropping, hand-over to decapsulation, or none |
| `GeoNetIndication.FinishIndication` | vanetza_patched/vanetza/geonet/indication_context.cpp:41-52 | the extended header, or why there is none, and exactly the announced payload |
| `Codecs.InputArchive.Load` | vanetza_patched/vanetza/common/archives.cpp:21-28 | an incomplete read uses up what there is and marks the archive |

## Left out

- The ADAM harness, the F2 filter and the control state machine: their sources are not part of this model.
- Sockets, connection handling and the list of peers of the TCP link: only framing and reassembly are modelled.
- Security: secured PDUs and `Parser::parse_secured`; geometry of areas, haversine, path history, point-in-polygon.
- The conversion of a GeoBroadcast header's area to and from floating-point shapes, since its rounding is not modelled; `is_empty`, `is_valid`, comparisons and hashes of addresses and position vectors, which compare fields one by one.
- Floating point: durations are integers, so the rounding of a lifetime is that of exact quotients; the duty-cycle arithmetic of LIMERIC (`calculate_duty_cycle`, `average_cbr`, `update_cbr`) is not modelled.
- The width of the clock: time points and durations are unbounded, so `time_point::max()` as the answer of an empty event queue is an absent value; a duration's maximum is kept only as the bound `next_queue` starts from.
- `ManualRuntime::reset`; a callback's label names the callback instead of code, and what it does is an arbitrary function of the events fired so far.
- Reuse of an erased list node's address by the allocator: a node gets a number never used before, so comparing first timers by node never confuses two packets.
- Re-entrance of the forwarding buffer's timer callback and of the gatekeeper's hooks into their owner; `CbfCounterImmortal` and `CbfCounterFading`; the sender and the payload of a buffered packet.
- `BurstBudget`, `LimericBudget` and `GradualStateMachine`: the gatekeeper is proved for every transmit rate control, so no particular one is modelled beside the fully meshed state machine. `CbrAggregator` averages floating-point loads; `PortDispatcher` lies behind the indication that is modelled.
- The internal shape of the binomial heap and of the hash map: the heap's top is any item of least expiry.
- `LruCaches.LruCache.Access`: values written through the returned reference are not modelled; the map's iterator into the index is represented by the key, which occurs once.
- `TcpFraming.TcpSocket.PassUp`: whether a callback is set does not change during a connection.
- `GeoNetParsers.PduWritten`: serialization is a function that puts octets in front of those that follow, not a write to a stream, so failing writes are not modelled; the DCC field of a single-hop header is its raw 32 bits, as parsing always yields.
- `FlowTiming.TimelyIff`, `FlowTiming.NothingWaits`: rate controls whose delay also depends on the packet; for these a trigger's packet may have expired when it is due, and only `FlowLimits.TriggerPremature` applies.
- `FlowRuntime.TriggerFires`, `CbfRuntime.TriggerFlushes`: callbacks of others that call the gatekeeper or the buffer during the same trigger of the runtime.
- `PacketBuffers.PacketBuffer.Flush`: attempts to push are numbered, where the source tells data apart by its address; lifetimes are reduced as `PendingPacket` does, the only data the router buffers.
- `GeoNetIndication.Indicate`: the processing of the extended header and its decision whether to pass the packet up; what indication does besides, to the location table and the forwarding buffers; packets handed over already parsed.
- `GeoNetParsers.Parser.ParseBasic`: a header object that is partly filled when its archive ends early is not modelled, the result is absent instead.
- `CountryFile.ConvertedIsRead`: a geometry too large for its 32-bit size makes the converter fail; shapefile access, its normalisation of shapes and its record counts are not modelled.
- `CountryFile.ParseWkb`: a polygon list partly filled when parsing fails is not specified, as the only caller discards it.
