# Tenet transport, modelled and proved

This project models the master side of Tenet's reliable transports and the state machines around
them, and proves what they keep over whole runs:

- **the two reliable receivers**, the stream transport and the rate-controlled transport (RCRT):
  reordering buffer, missing list, negative acknowledgements, FIN handling, timers, on top of the
  two linked lists and of the circular 16-bit sequence numbers;
- **the RCRT rate controller**: joins, leaves, multiplicative decrease, additive increase, the
  allocation by ratio, the allocation by water filling, and the loss estimator that feeds it;
- **dissemination (TRD)**: fragmentation and reassembly, and the Trickle timer;
- **the transaction id allocator** and its list.

`dafny verify dfyconfig.toml` checks everything.

## How it is organised

The protocol is written down once, as functions over a parameter `Arith`: `Wire` is the 16-bit
arithmetic that runs, `Unbounded` the true numbering of the packets. Three layers meet there.

1. *Theorems about the protocol* are proved in the true numbering, over every sequence of arrivals,
   losses, duplicates, reorderings and timeouts (`InOrder`, `Ledger`, `StreamRuns`, `StreamFin`,
   `StreamAck`, `StreamEndpoint`, `RcrtRuns`, `RcrtFin`). A run is a sequence of events; `Log` is the
   history of packets that arrived, and `IsFirst(log, p)` says that `p` was the first arrival under
   its number. `Deliveries`, `StreamSteps`, `RcrtSteps`, `RateSteps`, `LossRuns` and `Trickle.Told` say
   over every run what the next event does without the functions that compute it: a missing list as a
   set, gaps and ranges by their bounds, replies by their contents, quotients by products, and every
   constant as a number.
2. *Refinement* (`InStep`, `StreamWire`, `StreamDelivery`, `RcrtWire`): `Wrap` maps the true numbering
   to the numbers carried, and the wrapped connection does exactly the wrapped steps of the true one as
   long as the numbers in play are in sight of each other.
3. *Classes* (`U16List`, `SortedPacketList`, `StreamConnection`, `RcrtConnection`, `RateController`,
   `WaterFilling.Pool`, `LossEstimator.Estimator`, `Fragment.Reassembler`, `Trickle.TrickleTimer`,
   `TidList.Tids`) have the program's fields, loops and linked nodes. Each method is proved to take
   its `View()` (or `Contents()`) to the value of the corresponding function. `MissingList` holds the
   two loops over the missing list that both transports have.

Terms used below: a run is *near* if every arriving number is below the next expected one plus the
valid range (200), so that no gap is skipped by force; it is *close* if every arriving number lies in a
window around the next expected one that is no wider than the valid range; it is *closed by* `fin` if
every FIN carries `fin` and all data is numbered below it; it is *flagged* if every packet older than
the newest one is marked as a retransmission. In RCRT a number has *come* if a packet with it has
arrived no more than 100 ahead of the newest number then; the transport refuses all others, and `Log`
holds those that it took in. Runs are allowed to go on after a connection has been deleted, so what is
proved of them holds in particular up to the deletion.

## What the proofs turned up

- The header says that numbers up to the valid range apart can be compared; the code gets it wrong
  at exactly that distance when a wrap-around lies between (`SeqNo.CmpFailsAtTheEdge`). The model
  follows the code; `SeqNo.CmpExact` says exactly which pairs are compared correctly.
- As a consequence, packets of the next lap are dropped as old from the valid range on, and lost to
  the application (`StreamWire.TakenExactly`). Such a packet moves the buffer exactly if the head of
  the buffer is on its lap and from 200 to 49800 behind it, or is itself taken for an old packet
  (`StreamWire.DroppedAhead`). So a gap that is open when the numbers wrap around is given up only with
  the help of a buffered packet from beyond the wrap-around, and even then the packet that gives it up
  is lost (`StreamWire.LostAcrossTheWrap`).
- The stream transport strikes a number off the missing list only if the packet is flagged as a
  retransmission. A late packet without the flag is delivered but stays listed, and the FIN is not
  acknowledged although nothing is missing (`StreamFin.UnflaggedHoldsUpFin`). Exactly when the FIN is
  acknowledged: `StreamAck.FinAckedExactly`, and, for a FIN in range of the SYN,
  `StreamAck.FinAckedInRange`.
- RCRT also strikes off late packets without the flag, but it refuses packets more than 100 ahead of
  the newest one. A packet refused and not sent again is missing for good: the FIN is acknowledged
  exactly when every number before it has come (`RcrtFin.FinAckedExactly`), which is less than to
  arrive (`RcrtFin.RefusedHoldsUpFin`). Until the newest number moves, packets beyond that jump change
  nothing (`RcrtRuns.StallsBeyondJump`).
- A forced skip in RCRT acknowledges the arriving number, not the one delivered, and with it packets
  that never came (`RcrtFin.SkipOveracknowledges`; exactly when, `RcrtRuns.ArrivalAckExactly` and
  `RcrtRuns.AckExactly`).
- A stream connection that has given up is deleted, and a FIN that comes later is acknowledged at
  once (`StreamEndpoint.GivenUpRun`). Exactly when an acknowledgement by the endpoint means complete
  delivery: `StreamEndpoint.EndpointFinAck`.
- The floor under a decrease, one packet per flow in 30 seconds, can lift the total rate above what
  the flows asked for (`RateWitnesses.FloorExceedsDemand`; exactly when, `RateRuns.DemandRespected`).
  A leave that finds it there cuts the total but not the rates of those who stay, which then no longer
  add up to it (`RateWitnesses.LeaveBreaksConservation`; exactly when, `RateRuns.RatesConserved`).
- With intervals truncated to whole milliseconds the total rate can become negative
  (`RateWitnesses.TotalCanBecomeNegative`; exactly when, `RateRuns.TotalStaysPositive`).
- While packets arrive in order the loss rate never rises, except at one point: when the numbers have
  come round to the last loss, 50000 packets later, the current interval counts as 0 again
  (`LossRuns.InOrderArrival`).
- Fragments are counted in 8 bits, and the size is announced in 16: the round trip holds if and only if
  there are at most 256 fragments (`Fragment.RoundTrip`), and the reassembly buffer is overrun by a
  message of the sender only if it is longer than 65535 bytes (`Fragment.ShortPiecesFit`; exactly when,
  `Fragment.PiecesFit`).
- A wait whose count of periods, cut to 16 bits, is 32768 or more leaves the Trickle timer announcing
  at every tick (`Trickle.LongWaitIsNone`; exactly when, `Trickle.StageBounded`).

## Assumptions

- Senders number their packets from 1 (stream: from one above the SYN) in the arithmetic of
  `mote/lib/transport/tr_seqno.c`, so numbers carried lie in 1..50000; the number of a SYN is below
  50000, because the stream transport adds 1 to it without wrapping.
- Rates are real numbers where the program has doubles. A conversion of a negative rate to an
  interval, which C leaves undefined, gives the longest interval. The interval of a new RCRT flow,
  which is not initialised before the first allocation, stands at the one requested.
- Clocks, measured rates and coin tosses enter RCRT events as their outcome: `wanted` says that a
  feedback goes out that no new loss calls for, `decreased` that a timeout led to a decrease.

## Model

| member | source | states |
|---|---|---|
| SeqNo.ComputeAdd | mote/lib/transport/tr_seqno.c:72-80 | the subtraction loop ends and gives a number that can be carried, congruent to the 16-bit sum |
| SeqNo.CmpExact | mote/lib/transport/tr_seqno.c:86-113 | for two packets less than a lap apart, the comparison gives their true order if and only if they are less than 200 apart, or on one lap and at most 49800 apart |
| SeqNo.CmpFailsAtTheEdge | mote/lib/transport/tr_seqno.h:44 | at the documented limit of 200, across a wrap-around, the newer packet is taken for the older one |
| SeqNo.PrecedesExact | master/transport/sortedpacketlist.c:84-99 | the order test of the sorted list agrees with the true order if and only if the packets are up to half a lap apart |
| SeqNo.NextWraps | mote/lib/transport/tr_seqno.c:53-59 | the successor of a carried number is the number carried by the next packet |
| SeqNo.PrevWraps | mote/lib/transport/tr_seqno.c:64-70 | likewise the predecessor |
| SeqNo.AddWraps | mote/lib/transport/tr_seqno.c:72-80 | adding k to a carried number gives what the packet k later carries |
| SeqNo.DiffWraps | mote/lib/transport/tr_seqno.c:44-48 | the difference of carried numbers is the true distance, for packets less than a lap apart |
| SeqNo.WrapInjective | mote/lib/transport/tr_seqno.h:41-45 | within a lap no two packets carry the same number |
| Receiver.GapShrinks | master/transport/streamtransport.c:222-230 | the walk of the gap detection terminates, in either arithmetic |
| Receiver.DeleteLength | master/transport/uint16list.c:57-87 | deletion shortens the missing list by one exactly if the number is in it, so that the prune-and-fill loop terminates |
| InOrder.InsertPacketKeeps | master/transport/sortedpacketlist.c:63-123 | insertion keeps the buffer strictly sorted and adds exactly the packet, unless its number is there |
| InOrder.DrainKeeps | master/transport/streamtransport.c:284-317 | draining keeps deliveries in order and from first arrivals, forced skips included, and leaves only packets newer than the next expected one and in range of the arriving one |
| InOrder.DrainHeld | master/transport/streamtransport.c:284-317 | draining only moves packets from the buffer to the application: the branch for something in the past is never taken |
| InOrder.ReceiveKeeps | master/transport/streamtransport.c:246-318 | after any arrival, delivered numbers are strictly increasing below the next expected one, the buffer is sorted above it, both hold first arrivals, and nothing awaited that arrived is lost |
| InOrder.ReceiveConserves | master/transport/streamtransport.c:261-317 | the multiset of delivered and buffered packets grows by exactly the arriving packet if it is new, and not at all otherwise |
| InOrder.BufferInRange | master/transport/streamtransport.c:306-316 | after the arrival of s every buffered number e satisfies s < e + 200 |
| InOrder.ReceiveContiguous | master/transport/streamtransport.c:261-317 | without a forced skip deliveries have no gaps |
| InOrder.Reassembled | master/transport/streamtransport.c:261-317 | without skips, the next expected number is the least that has not arrived, and application and buffer hold the first arrivals before and after it |
| Deliveries.DrainStops | master/transport/streamtransport.c:284-317 | draining moves the next expected number to the first at which nothing is held, nor anything newer that has dropped out of range, forced skips included |
| Deliveries.ReceiveTold | master/transport/streamtransport.c:246-318 | so does every arrival; everything held before that number is handed up, in order, and everything after it stays in the buffer |
| Ledger.DetectIsRange | master/transport/streamtransport.c:212-239 | gap detection lists every number strictly between the newest one and the arriving one, once and in order |
| Ledger.AdvanceKeeps | master/transport/streamtransport.c:416-421 | moving the newest number forward keeps every number up to it accounted for, save itself |
| Ledger.DeleteMembers | master/transport/uint16list.c:57-87 | in an ascending list, deletion removes the number and nothing else and keeps the order |
| Ledger.ReceiveKeepsBooks | master/transport/streamtransport.c:416-446 | the arrival of a packet settles the account of its own number and keeps all others |
| Ledger.UnexpiredMembers | master/transport/streamtransport.c:183-187 | pruning keeps exactly the members in range, in order |
| Ledger.FillExact | master/transport/streamtransport.c:180-196 | building a NACK strikes off exactly the expired numbers and writes the first survivors, as many as fit, in order |
| Ledger.FillKeepsBooks | master/transport/streamtransport.c:180-196 | pruning never loses track of a number in range |
| Ledger.FillOldest | master/transport/streamtransport.c:180-196 | building a NACK keeps exactly the numbers in range, and asks for the oldest of them, in order, all if they fit and otherwise as many as do |
| Ledger.OldestIsUnique | master/transport/streamtransport.c:180-196 | there is only one such list of numbers to ask for |
| Ledger.LogUpTo | master/transport/streamtransport.c:416-421 | nothing newer than the newest number has arrived |
| StreamRuns.RunInv | master/transport/streamtransport.c:320-479 | the joint invariant of buffer, missing list, counters and history holds after every run |
| StreamRuns.InOrderAtMostOnce | master/transport/streamtransport.c:246-318 | over every run, forced skips included, delivered numbers strictly increase and each carries the payload that came first under it |
| StreamRuns.NothingForgotten | master/transport/streamtransport.c:212-317 | over every run, a number from the next expected to the newest one is buffered, listed as missing, out of range or a FIN; the next expected one is never buffered, and all that is buffered lies above it |
| StreamRuns.NothingLostOrInvented | master/transport/streamtransport.c:261-317 | over every run, what is delivered and what is buffered are together exactly the packets that were new on arrival |
| StreamRuns.NackAsksForOldest | master/transport/streamtransport.c:158-209 | over every run, a NACK strikes off exactly the expired numbers and asks for the oldest gaps left, in order |
| StreamRuns.PhaseStep | master/transport/streamtransport.c:374-407 | each step, in either arithmetic: passive only with nothing missing; finished, and the FIN acknowledged with the newest number, only by a step that leaves nothing missing |
| StreamRuns.PassiveMeansComplete | master/transport/streamtransport.c:460-478 | after every run, in either arithmetic, a passive connection misses nothing |
| StreamRuns.RunNear | master/transport/streamtransport.c:246-318 | near runs deliver without gaps and keep the newest number in range |
| StreamRuns.StateIsHistory | master/transport/streamtransport.c:246-318 | over near runs, next expected number, deliveries and buffer are a function of the history of arrivals |
| StreamRuns.StepShape | master/transport/streamtransport.c:410-446 | the buffer changes by data only, and the newest number by a newer one only, in either arithmetic |
| StreamSteps.NackAsks | master/transport/streamtransport.c:158-209 | with something missing, one NACK goes out with the newest number and the five oldest missing numbers in range, in order; the expired ones are struck off |
| StreamSteps.FinStepTold | master/transport/streamtransport.c:374-407 | a FIN is acknowledged with the newest number if nothing is missing up to it; otherwise the five oldest of the missing numbers in range are asked for in a NACK, and the timeouts are counted from 0 again |
| StreamSteps.DataStepTold | master/transport/streamtransport.c:410-479 | data moves the deliveries as told, strikes a flagged number off, and lists the gap; a gap is answered by one NACK for the five oldest missing numbers in range, the completion of a FIN by its acknowledgement, and nothing else at all; the timeouts are counted from 0 again |
| StreamSteps.TimeoutStepTold | master/transport/streamtransport.c:514-567 | a timeout deletes, gives up at the fiftieth, repeats the NACK, goes back to passive, or acknowledges the FIN, in exactly the cases named |
| StreamSteps.RunTold | master/transport/streamtransport.c:352-567 | over every run, the next event, of any of the five kinds, leaves exactly the state and sends exactly the reply that is told of it |
| StreamSteps.RunBegins | master/transport/streamtransport.c:593-624 | a run begins with the number after the SYN expected and nothing else seen |
| StreamSteps.TimeoutRepeatsNack | master/transport/streamtransport.c:526-544 | over every run, a timeout of a waiting connection with something missing and fewer than 49 timeouts behind it sends a NACK for the five oldest missing numbers in range, in order, or for all if fewer |
| StreamFin.NothingMissing | master/transport/streamtransport.c:391-394 | an empty missing list up to the FIN means that the FIN is the next expected number and the buffer is empty |
| StreamFin.RunFin | master/transport/streamtransport.c:374-407 | over near, closed runs, a finished connection, or one that has acknowledged the FIN, has delivered everything before it |
| StreamFin.FinAckMeansDelivered | master/transport/streamtransport.c:374-394 | once the FIN is acknowledged the application has exactly the numbers between SYN and FIN, once each, in order, with the first payloads, and the buffer is empty |
| StreamFin.RunWait | master/transport/streamtransport.c:391-407 | over near, closed, flagged runs, nothing that arrived is listed as missing, and after a FIN the connection waits exactly while something is missing |
| StreamFin.FinAckedWhenFlagged | master/transport/streamtransport.c:460-478 | over near, closed, flagged runs, the FIN has been acknowledged if and only if it and everything before it have arrived |
| StreamFin.UnflaggedHoldsUpFin | master/transport/streamtransport.c:440-443 | a run in which everything has arrived and been delivered, and the FIN stays unacknowledged, for want of a flag |
| InStep.ViewCompares | mote/lib/transport/tr_seqno.c:86-113 | in view, comparison, list order and equality of carried numbers are the true ones |
| InStep.ReceiveInStep | master/transport/streamtransport.c:262-317 | in view, reception on carried numbers gives the wrapped result of true reception |
| InStep.DetectInStep | master/transport/streamtransport.c:212-239 | so does gap detection |
| InStep.FillInStep | master/transport/streamtransport.c:180-196 | so does the filling of a NACK |
| InStep.GapInStep | master/transport/streamtransport.c:384-389 | so does the entry of a gap in the missing list, and the books stay in view |
| InStep.WindowInView | mote/lib/transport/tr_seqno.h:41-45 | a window around the next expected number no wider than 200 is in view |
| StreamWire.RunInStep | master/transport/streamtransport.c:320-567 | refinement over whole runs: in sight, the 16-bit connection is at every point the wrapped true one, replies included |
| StreamWire.CloseInSight | master/transport/streamtransport.c:416-446 | close runs in which gaps are filled by flagged packets keep everything in sight, the missing list included, wherever the numbers wrap; deliveries do not need the flag, see StreamDelivery |
| StreamWire.FinAckInSight | master/transport/streamtransport.c:374-394 | FIN completeness for the 16-bit connection, as long as everything is in sight |
| StreamWire.TakenExactly | master/transport/streamtransport.c:262-283 | the 16-bit receiver takes a packet less than a lap ahead for new if and only if it is within range or on the same lap, and otherwise drops it |
| StreamWire.DroppedAhead | master/transport/streamtransport.c:268-317 | with packet and head less than a lap ahead: a packet ahead that the 16-bit receiver drops as old is not kept, whatever is in the buffer; it moves the buffer if and only if the head is on its lap and 200 to 49800 behind it, or is itself taken for old, and in the first case the head is delivered |
| StreamWire.LostAcrossTheWrap | master/transport/streamtransport.c:268-313 | with 49900 awaited and 50050 buffered, 50250 gives up on 49900 and is itself lost, where the true receiver keeps it |
| StreamDelivery.DeliveryInStep | master/transport/streamtransport.c:246-318 | over every close run, flagged or not, the 16-bit connection delivers and buffers exactly the wrapped packets of the true one |
| StreamDelivery.RunTogether | master/transport/streamtransport.c:374-407 | over every close, closed run, every number still to come is in the 16-bit missing list, so stale numbers only delay, and the FIN is acknowledged only when everything before it has been delivered |
| StreamDelivery.FinAckOnTheWire | master/transport/streamtransport.c:374-394 | FIN completeness for the 16-bit connection over every close, closed run, flagged or not |
| StreamDelivery.FillSpares | master/transport/streamtransport.c:180-196 | building a NACK, in either arithmetic and from any list, never strikes off a number in range |
| StreamAck.MissingIsHistory | master/transport/streamtransport.c:416-443 | over every run, the missing list holds exactly the numbers from the SYN to the newest that were never newest on arrival, have not come flagged, and were not out of range of a NACK sent |
| StreamAck.FinAckedExactly | master/transport/streamtransport.c:374-407 | over every closed run, the FIN is acknowledged if and only if at some FIN, data packet or timeout before the last, with the FIN come, every number before it has been cleared or given up in that sense |
| StreamAck.FinAckedInRange | master/transport/streamtransport.c:460-478 | with the FIN at most 200 above the SYN: acknowledged if and only if it has come and every number before it came newer than all before it or flagged |
| StreamEndpoint.EmptySlotTold | master/transport/streamtransport.c:357-382 | without a connection, a SYN creates one that expects the number after it, a FIN is acknowledged by its own number, and nothing else is answered |
| StreamEndpoint.LiveSlotTold | master/transport/streamtransport.c:352-567 | over every sequence of arrivals, a connection in the table does what is told of it, what it says is sent back, and it stays in the table as long as it is open |
| StreamEndpoint.WaitingTimeout | master/transport/streamtransport.c:526-557 | a timeout while waiting counts up, keeps waiting and sends one NACK for the five oldest missing numbers, or, the fiftieth in a row, deletes the connection and sends nothing |
| StreamEndpoint.GivingUpAcknowledgesFin | master/transport/streamtransport.c:379-382 | after enough timeouts the connection is gone, and a FIN is then acknowledged at once |
| StreamEndpoint.DeletedExactly | master/transport/streamtransport.c:517-564 | an open connection is deleted if and only if it has finished and lingered, was to be deleted and waited for nothing, or has given up; the last two are early |
| StreamEndpoint.ServesSession | master/transport/streamtransport.c:352-382 | over every sequence of arrivals, the table holds the connection that the last effective SYN created, until it is deleted |
| StreamEndpoint.EndpointFinAck | master/transport/streamtransport.c:379-394 | over every sequence of arrivals with a near, closed session, an acknowledged FIN means complete delivery if and only if the connection was not deleted early or everything had arrived by then |
| StreamEndpoint.TimeoutsWear | master/transport/streamtransport.c:526-541 | in any run, timeouts in a row wear a waiting connection out, the fiftieth deleting it |
| StreamEndpoint.GivenUpRun | master/transport/streamtransport.c:533-541 | a run from a SYN in which 2 arrives and 1 does not, fifty timeouts pass, and the FIN is acknowledged with nothing delivered |
| RcrtRuns.StepShape | master/transport/rcrtransport.c:1084-1325 | each step, in either arithmetic: the buffer and the acknowledgement change by a packet that is taken in and new only, and the newest number by a newer one only |
| RcrtRuns.RunInv | master/transport/rcrtransport.c:1084-1325 | the joint invariant holds after every run: nothing that was taken in is listed as missing, and the acknowledgement lies between the last delivery and the newest number |
| RcrtRuns.InOrderAtMostOnce | master/transport/rcrtransport.c:944-1019 | over every run, forced skips included, delivered numbers strictly increase and are first arrivals |
| RcrtRuns.NothingLostOrInvented | master/transport/rcrtransport.c:1178-1185 | over every run, what is delivered and what is buffered are together exactly the packets that were new on arrival |
| RcrtRuns.ArrivalAckExactly | master/transport/rcrtransport.c:958-1018 | one arrival, in terms of the state before it: the acknowledgement is exact afterwards if and only if the packet is the next one, or pushes packets out and the last of them has a neighbour, or pushes nothing out and it was exact before |
| RcrtRuns.AckExactly | master/transport/rcrtransport.c:1005-1013 | over every run, the acknowledgement is the number before the next expected one if and only if the last packet handed up was in order |
| RcrtRuns.RunAckTells | master/transport/rcrtransport.c:959-1013 | otherwise it is at least 200 ahead of it |
| RcrtRuns.ExactPartition | master/transport/rcrtransport.c:1207-1235 | over every run, a number from the next expected to the newest one, in range and not a FIN, is in exactly one of buffer and missing list |
| RcrtRuns.NeverMissesHeld | master/transport/rcrtransport.c:1207-1212 | over every run, no number listed as missing has ever been taken in |
| RcrtRuns.NeverAsksForHeld | master/transport/rcrtransport.c:861-881 | from the state after any run, filling the slots strikes off exactly the expired numbers and writes the first survivors, none of which has been taken in |
| RcrtRuns.PhaseStep | master/transport/rcrtransport.c:1287-1308 | each step, in either arithmetic: active only with nothing missing; closed, and the FIN acknowledged, only by a step that leaves nothing missing |
| RcrtRuns.ActiveMeansComplete | master/transport/rcrtransport.c:1287-1308 | after every run, in either arithmetic, an active connection misses nothing |
| RcrtRuns.DrainAckBounds | master/transport/rcrtransport.c:983-1018 | draining keeps the acknowledgement between the last delivery and the newest number |
| RcrtRuns.DrainAckExact | master/transport/rcrtransport.c:988-996 | without a forced skip draining leaves it at the last delivery |
| RcrtRuns.LogIsCame | master/transport/rcrtransport.c:1169-1176 | over every run, the packets taken in are those that arrived no more than 100 ahead of the newest number then |
| RcrtRuns.StateIsHistory | master/transport/rcrtransport.c:944-1019 | over near runs the whole receiving state is a function of the numbers that have come: next expected number, deliveries, buffer, acknowledgement, and the exact set of missing numbers |
| RcrtRuns.StallsBeyondJump | master/transport/rcrtransport.c:1169-1176 | after any run, packets more than 100 ahead of the newest number change nothing, however many arrive |
| RcrtSteps.ReceiveAckTold | master/transport/rcrtransport.c:944-1019 | the acknowledgement stays if nothing is handed up, goes to the last packet handed up if that was the expected one, and to the arriving number if a gap before it has been given up |
| RcrtSteps.FeedbackAsks | master/transport/rcrtransport.c:861-881 | one feedback goes out with the newest number, the acknowledgement, and the ten oldest missing numbers in range, in order; the expired ones are struck off |
| RcrtSteps.FinStepTold | master/transport/rcrtransport.c:1128-1156 | a FIN closes and is acknowledged with the newest number if nothing is missing up to it; otherwise it is answered by a feedback for the ten oldest missing numbers in range, and the first one restarts the count of timeouts |
| RcrtSteps.DataStepTold | master/transport/rcrtransport.c:1158-1325 | data more than 100 ahead changes nothing; other data moves deliveries and acknowledgement as told if it is new, strikes off a flagged or late number, lists the gap, and is answered by the acknowledgement of the FIN, by one feedback, or not at all, in exactly the cases named |
| RcrtSteps.TimeoutStepTold | master/transport/rcrtransport.c:1345-1396 | a timeout is answered by a feedback unless the connection is active, and counted, or from the second on taken back to 0 if the rates have been decreased |
| RcrtSteps.RunTold | master/transport/rcrtransport.c:1084-1396 | over every run, the next event, of any of the four kinds, leaves exactly the state and sends exactly the reply that is told of it; a feedback carries the newest number, the acknowledgement, and the ten oldest missing numbers in range, in order, or all if fewer |
| RcrtSteps.RunBegins | master/transport/rcrtransport.c:1491-1516 | a run begins with 1 expected, 0 acknowledged and nothing seen |
| RcrtSteps.FeedbackSparesTaken | master/transport/rcrtransport.c:861-881 | over every run, no feedback that is sent asks for a number that has ever been taken in |
| RcrtSteps.FeedbackAsksForNext | master/transport/rcrtransport.c:861-881 | over near runs, a feedback sent with something missing asks first for the next expected packet and acknowledges the one before it |
| RcrtSteps.NextIsLeastMissing | master/transport/rcrtransport.c:1207-1235 | over near runs, the next expected number is the least one missing, as long as any is |
| RcrtFin.RunWait | master/transport/rcrtransport.c:1128-1156 | over near, closed runs, after a FIN the connection waits for something missing, or is closed and has acknowledged |
| RcrtFin.FinAckedExactly | master/transport/rcrtransport.c:1143-1154 | over near, closed runs, the FIN is acknowledged, and the connection closed, if and only if the FIN has been received and every number before it has arrived at least once no more than 100 ahead of the newest one, however flagged |
| RcrtFin.RefusedHoldsUpFin | master/transport/rcrtransport.c:1169-1176 | a run in which 101, then 1 to 100, then the FIN arrive, and the FIN is not acknowledged |
| RcrtFin.FinAckMeansDelivered | master/transport/rcrtransport.c:1291-1297 | by then the application has every number up to the FIN, once each, in order, with the first payloads, and the buffer is empty |
| RcrtFin.SkipOveracknowledges | master/transport/rcrtransport.c:1011 | a run of three arrivals whose forced skip acknowledges 202 and with it 199 packets that have not come |
| RcrtWire.RunInStep | master/transport/rcrtransport.c:1084-1396 | refinement over whole runs: in sight, the 16-bit connection is at every point the wrapped true one, feedback included |
| RcrtWire.CloseInSight | master/transport/rcrtransport.c:1169-1220 | arrivals in a window of 200 around the next expected number keep everything in sight wherever the numbers wrap |
| RcrtWire.FinAckInSight | master/transport/rcrtransport.c:1128-1156 | the FIN theorem, both directions, for the 16-bit connection, as long as everything is in sight |
| RcrtWire.FinAckOnTheWire | master/transport/rcrtransport.c:1128-1156 | the same over every close run |
| U16List.List.constructor | master/transport/uint16list.h:47-51 | the new list is empty |
| U16List.List.Find | master/transport/uint16list.c:47-55 | finds a number if and only if it is in the list |
| U16List.List.Add | master/transport/uint16list.c:89-103 | appends a number that is not there, through the tail, and changes nothing otherwise; the not-found mark itself is appended every time |
| U16List.List.Remove | master/transport/uint16list.c:57-87 | takes the number out wherever it sits, keeping head, tail and length right |
| U16List.List.UnlinkHead | master/transport/uint16list.c:62-68 | the case in which it is the head |
| U16List.List.UnlinkAfter | master/transport/uint16list.c:73-80 | the case in which it follows another entry, which becomes the tail if it was the last |
| U16List.List.RemoveFirst | master/transport/uint16list.c:105-115 | takes the first number out and leaves the tail behind; the list stays usable although the tail may be stale |
| U16List.List.GetIth | master/transport/uint16list.c:133-143 | the ith number, counting from 1, or the not-found mark |
| U16List.List.IsEmpty | master/transport/uint16list.c:117-122 | whether there is no number in the list |
| U16List.DeleteAt | master/transport/uint16list.c:70-83 | deletion cuts out exactly the first occurrence |
| U16List.DeleteAbsent | master/transport/uint16list.c:86 | deletion of a number that is not there changes nothing |
| U16List.InsertKeepsDistinct | master/transport/uint16list.c:89-103 | no number is ever in the list twice |
| U16List.DeleteKeepsDistinct | master/transport/uint16list.c:57-87 | deletion removes the number altogether and nothing else |
| SortedPacketList.List.constructor | master/transport/sortedpacketlist.c:47-51 | the new list is empty |
| SortedPacketList.List.Find | master/transport/sortedpacketlist.c:53-61 | finds a packet if and only if one with that number is in the list |
| SortedPacketList.List.Add | master/transport/sortedpacketlist.c:63-123 | inserts before the first packet that the new one precedes, unless its number is there |
| SortedPacketList.List.FindPlace | master/transport/sortedpacketlist.c:94-119 | the walk stops at the last entry before that place |
| SortedPacketList.List.LinkHead | master/transport/sortedpacketlist.c:84-89 | splices an entry in before the head |
| SortedPacketList.List.LinkAfter | master/transport/sortedpacketlist.c:105-116 | splices an entry in after another |
| SortedPacketList.List.GetFirstValue | master/transport/sortedpacketlist.c:125-130 | the number of the first packet, or the mark of an empty list |
| SortedPacketList.List.DeleteFirstPacket | master/transport/sortedpacketlist.c:132-160 | takes exactly the first packet out and returns it, and does nothing to an empty list |
| SortedPacketList.InsertSortedAt | master/transport/sortedpacketlist.c:94-119 | the place found by the walk is that of the recursive definition |
| StreamConnection.Connection.constructor | master/transport/streamtransport.c:593-624 | a new connection expects the number after the SYN and misses nothing |
| MissingList.DetectGap | master/transport/streamtransport.c:212-239 | the loop, which rcrtransport.c:911-937 has too, inserts every number of the gap into the linked list and returns how many it found |
| MissingList.FillSlots | master/transport/streamtransport.c:180-196 | the prune-and-fill loop, which rcrtransport.c:861-881 has too, with its retried slots, ends and computes the NACK and the pruned list |
| StreamConnection.Connection.SendNACK | master/transport/streamtransport.c:158-209 | sends one NACK if something is missing, and nothing otherwise (told in `StreamSteps.NackAsks`) |
| StreamConnection.Connection.SendFinAck | master/transport/streamtransport.c:154-156 | acknowledges the newest number, and the connection is finished |
| StreamConnection.Connection.AcceptPacket | master/transport/streamtransport.c:261-283 | delivers, drops or buffers the arriving packet |
| StreamConnection.Connection.DrainOnce | master/transport/streamtransport.c:284-317 | one turn of the drain loop, which shortens the buffer whenever it goes on |
| StreamConnection.Connection.DrainBuffer | master/transport/streamtransport.c:284-317 | the drain loop ends in the specified state |
| StreamConnection.Connection.ReceiveStrMsg | master/transport/streamtransport.c:246-318 | reception in place does one reception of the model, and resets the timeout count |
| StreamConnection.Connection.ReceiveSyn | master/transport/streamtransport.c:365-370 | a duplicate SYN is acknowledged and changes nothing else |
| StreamConnection.Connection.AdvanceTo | master/transport/streamtransport.c:416-421 | a newer number moves the books forward |
| StreamConnection.Connection.ReceiveFin | master/transport/streamtransport.c:374-407 | the FIN case in place does the FIN step |
| StreamConnection.Connection.TakePacket | master/transport/streamtransport.c:415-446 | list updates and reception in place, in the program's order |
| StreamConnection.Connection.ReplyToData | master/transport/streamtransport.c:460-478 | the state transitions and replies after data |
| StreamConnection.Connection.ReceiveData | master/transport/streamtransport.c:410-479 | the data case in place does the data step |
| StreamConnection.Connection.TimerFired | master/transport/streamtransport.c:513-567 | the timer in place does the timeout step (told in `StreamSteps.TimeoutStepTold`) |
| StreamConnection.Connection.RequestDelete | master/transport/streamtransport.c:658-681 | a finished connection is deleted, another one marked |
| RcrtConnection.Connection.constructor | master/transport/rcrtransport.c:1491-1516 | a new connection expects 1, acknowledges 0 and misses nothing |
| RcrtConnection.Connection.SendFEEDBACK | master/transport/rcrtransport.c:837-907 | one feedback with the newest number, the acknowledgement and the NACK list (told in `RcrtSteps.FeedbackAsks`) |
| RcrtConnection.Connection.SendFinAck | master/transport/rcrtransport.c:1143-1146 | acknowledges the newest number and deletes the connection |
| RcrtConnection.Connection.AcceptPacket | master/transport/rcrtransport.c:958-982 | delivers, drops or buffers, and acknowledges what it delivers |
| RcrtConnection.Connection.DrainOnce | master/transport/rcrtransport.c:983-1018 | one turn of the drain loop, acknowledgement included |
| RcrtConnection.Connection.DrainBuffer | master/transport/rcrtransport.c:983-1018 | the drain loop ends in the specified state with the specified acknowledgement |
| RcrtConnection.Connection.ReceiveRtrMsg | master/transport/rcrtransport.c:944-1019 | reception in place does one reception of the model |
| RcrtConnection.Connection.ReceiveFin | master/transport/rcrtransport.c:1128-1156 | the FIN case in place does the FIN step |
| RcrtConnection.Connection.StrikeOffList | master/transport/rcrtransport.c:1207-1212 | strikes off a retransmission or any other late packet |
| RcrtConnection.Connection.IsNewPacket | master/transport/rcrtransport.c:1178-1185 | whether a packet is still awaited and not buffered |
| RcrtConnection.Connection.TakePacket | master/transport/rcrtransport.c:1178-1258 | list updates and reception in place, in the program's order |
| RcrtConnection.Connection.ReplyToData | master/transport/rcrtransport.c:1287-1314 | the state transitions and replies after data |
| RcrtConnection.Connection.ReceiveData | master/transport/rcrtransport.c:1158-1315 | the data case in place does the data step |
| RcrtConnection.Connection.TimerFired | master/transport/rcrtransport.c:1345-1396 | the timer in place does the timeout step |
| Rates.DeliveryRange | master/transport/rcrtransport.c:608-616 | from a loss rate of at most 1/2, the delivery rate used stays in [1/2, 1] |
| RateRuns.RunInv | master/transport/rcrtransport.c:1443-1566 | after every run, with any requests and either kind of interval, the counters are the number of flows, the sum of their demands and the ratio |
| RateRuns.RatesConserved | master/transport/rcrtransport.c:485-514 | over every run with exact intervals and any requests: after each step every rate is the common fraction of its demand and the rates add up to the positive total, if and only if every leave that keeps a flow finds the total within the demand |
| RateRuns.DemandRespected | master/transport/rcrtransport.c:603-685 | over every run, with truncated as with exact intervals and any requests: after each step the total is within the demand and no flow is told to send faster than it asked (65534 ms being the longest interval there is), if and only if every decrease finds at least one packet in 30 seconds asked for per flow |
| RateRuns.ModestRun | master/transport/rcrtransport.c:627 | in particular if nobody asks for an interval above 30 seconds |
| RateRuns.TotalStaysPositive | master/transport/rcrtransport.c:1544-1551 | over every run, the total stays non-negative if and only if every leave that keeps a flow finds it no less than the rate of the flow that leaves |
| RateRuns.NoZeroInterval | master/transport/rcrtransport.c:172-177 | over every run with at most 30000 flows at a time, no stored interval is 0 |
| RateRuns.LeaveProportional | master/transport/rcrtransport.c:1536-1566 | a leave keeps the rates in proportion if and only if it is the last one or finds the total within the demand |
| RateRuns.LeaveKeepsRatio | master/transport/rcrtransport.c:1536-1566 | a leave that keeps a flow keeps the ratio if and only if the total does not exceed the demand |
| RateRuns.DecreaseBounded | master/transport/rcrtransport.c:603-627 | after every run, whatever was asked for and whatever the sign of the total, a decrease takes at most half off, and raises the total to the floor at most |
| RateRuns.FloorWithinDemand | master/transport/rcrtransport.c:623-627 | a decrease keeps the total within the demand if and only if the demand is at least one packet per flow in 30 seconds |
| RateWitnesses.FloorExceedsDemand | master/transport/rcrtransport.c:627 | a flow that asks for a packet a minute and is told to send two |
| RateWitnesses.LeaveBreaksConservation | master/transport/rcrtransport.c:1544-1551 | a run of four events after which the total is a packet a minute and the one flow left sends two |
| RateRuns.StepBounded | master/transport/rcrtransport.c:603-685 | every step keeps the demand bound if and only if it is not a decrease that finds less than the floor asked for |
| RateSteps.ReallotTold | master/transport/rcrtransport.c:172-177 | the interval that a flow is given times the ratio is the interval that it asked for; stored, it is the greatest whole number of milliseconds for which that product is no more, and 65534 at most |
| RateSteps.JoinStepTold | master/transport/rcrtransport.c:1443-1472 | a join adds its demand, a request for 0 counting as one for 20 ms; it adds half a packet a second to the total, or its demand if that is no more, exactly if the total is 0, nobody is there, or the start-up is on and the total no more than 25; everyone is allotted the new ratio |
| RateSteps.LeaveStepTold | master/transport/rcrtransport.c:1536-1566 | a leave takes off the demand and the rate of the flow, cuts the total to the demand, tells nobody else, and starts anew with the last flow |
| RateSteps.IncreaseStepTold | master/transport/rcrtransport.c:652-685 | an increase adds two packets a second in the start-up and one after it, up to the demand; if the total changes, the last delivery rate is set back to 1 and everyone is allotted the new ratio, and otherwise nothing changes |
| RateSteps.FactorTold | master/transport/rcrtransport.c:618-621 | with a delivery rate of p a decrease keeps half of the total for p up to 2/3, p / (2 - p) of it up to 98/99, and all of it above |
| RateSteps.DecreaseStepTold | master/transport/rcrtransport.c:603-647 | a decrease goes by the delivery rate over the last one if that is worse, and by 1 otherwise; it leaves that share of the total, or one packet per flow in 30 seconds if that is more; if the total changes, the start-up ends and everyone is allotted the new ratio |
| RateSteps.RunTold | master/transport/rcrtransport.c:485-685 | over every run, with exact or truncated intervals and any requests, the next event does exactly what is told, in numbers |
| RateController.Controller.RecalculateRho | master/transport/rcrtransport.c:233-237 | stores and returns the ratio of total rate and demand, 1 without demand |
| RateController.Controller.AllocateRateByRho | master/transport/rcrtransport.c:485-514 | the loop re-allots every flow, and none for a ratio of 0 |
| RateController.Controller.AdjustRatesAtJoin | master/transport/rcrtransport.c:1443-1472 | a join in place does the join step |
| RateController.Controller.FinishConnection | master/transport/rcrtransport.c:1536-1566 | a leave in place does the leave step |
| RateController.Controller.ReduceTotal | master/transport/rcrtransport.c:608-627 | the delivery rate used and the reduced total, with its floor (told in `RateSteps.FactorTold`) |
| RateController.Controller.DecreaseAllRate | master/transport/rcrtransport.c:603-647 | a decrease in place does the decrease step and reports whether the total changed (told in `RateSteps.DecreaseStepTold`) |
| RateController.Controller.IncreaseAllRate | master/transport/rcrtransport.c:652-685 | an increase in place does the increase step and reports whether the total changed |
| RateWitnesses.TotalCanBecomeNegative | master/transport/rcrtransport.c:1544-1551 | a run of four events after which the total rate is negative |
| WaterFilling.LevelIsFair | master/transport/rcrtransport.c:411-482 | the shares at a level are max-min fair: nobody can get more unless somebody with no more gets less |
| WaterFilling.LevelSum | master/transport/rcrtransport.c:411-482 | the shares add up to all there is or all that is asked for, whichever is less |
| WaterFilling.LevelFound | master/transport/rcrtransport.c:431-460 | when a pass satisfies nobody, the share then reached is a level |
| WaterFilling.Pool.Pass | master/transport/rcrtransport.c:435-459 | a pass keeps the rate left, the flows waiting and the level consistent, and waits for fewer if it satisfied one |
| WaterFilling.Pool.RunPasses | master/transport/rcrtransport.c:431-460 | the passes end, with everyone below the level satisfied and all others above it |
| WaterFilling.Pool.DistributeR | master/transport/rcrtransport.c:412-482 | there is a level at which the total is used up or everyone satisfied, and every flow has the lesser of its demand and that level |
| LossEstimator.IntervalRange | master/transport/connectionlist.c:301-333 | every loss interval lies in 2..20 |
| LossEstimator.AverageAtLeast | master/transport/connectionlist.c:345-352 | a weighted average is no less than the least interval |
| LossEstimator.RunSound | master/transport/connectionlist.c:265-373 | over every run, the estimator remembers the last eight intervals since the restart, newest first, and the loss rate is 0 or in (0, 1/2] (what it is: `LossRuns.RunMean`) |
| LossRuns.AverageIs | master/transport/connectionlist.c:15 | an average times the sum of the weights is the weighted sum, the weights being 1, 1, 1, 1, 0.8, 0.6, 0.4 and 0.2 from the newest on |
| LossRuns.LengthenRaises | master/transport/connectionlist.c:345-352 | lengthening the kth interval by one raises the average by its share of the weights |
| LossRuns.NewestFourAlike | master/transport/connectionlist.c:15 | exchanging two of the four newest intervals leaves the average alone |
| LossRuns.RunMean | master/transport/connectionlist.c:342-373 | over every run with an interval remembered, the mean is no less than the average of the intervals remembered, nor, with two or more, than that of the current interval and all but the oldest, and equals one of the two; the loss rate is its inverse |
| LossRuns.RecoversWithoutLoss | master/transport/connectionlist.c:354-372 | over every run with two or more intervals remembered, the loss rate is at most the inverse of the mean that the current interval is part of |
| LossRuns.InOrderArrival | master/transport/connectionlist.c:342-373 | over every run, an arrival in order keeps the intervals, and does not raise the loss rate if and only if one interval only is remembered or the numbers have not come round to the last loss |
| LossRuns.IntervalTold | master/transport/connectionlist.c:298-333 | in true numbers of packets, the length of a loss interval: the distance from the last loss within 2 and 20, and at the first loss what has been received up to 10, or 2 |
| LossRuns.RecordTold | master/transport/connectionlist.c:281-340 | in true numbers, a newer packet ends an interval if and only if it is not the next one; the last loss is then the number before it, and the new interval stands before the others, of which the ninth goes |
| LossRuns.RestartTold | master/transport/connectionlist.c:274-279 | a restart forgets everything but the last loss |
| LossEstimator.Estimator.PushInterval | master/transport/connectionlist.c:336-339 | the circular buffer holds the latest eight intervals |
| LossEstimator.Estimator.AverageRecent | master/transport/connectionlist.c:345-352 | the loop over the buffer computes the weighted average of the intervals |
| LossEstimator.Estimator.AverageCurrent | master/transport/connectionlist.c:354-362 | and that of the current interval and all but the oldest |
| LossEstimator.Estimator.RestartAveraging | master/transport/connectionlist.c:274-279 | forgets the intervals and the loss rate, but not the last loss |
| LossEstimator.Estimator.UpdateLoss | master/transport/connectionlist.c:281-373 | the update in place does the update of the model (told in `LossRuns.RunMean`) |
| Fragment.CountIsCeiling | master/trd/trd_fragment.c:90-96 | as many fragments as are needed, and no more |
| Fragment.Send | master/trd/trd_fragment.c:78-143 | the loops cut the message into its fragments, in order; an empty message is refused |
| Fragment.FeedPrefix | master/trd/trd_fragment.c:146-191 | from any state, the receiver has collected exactly the first k fragments, up to the first that looks like the last |
| Fragment.RoundTrip | master/trd/trd_fragment.c:78-191 | from any state, the fragments of a message hand up exactly that message, once, and leave the receiver idle, if and only if there are at most 256 |
| Fragment.SizesAddUp | master/trd/trd_fragment.c:107-126 | the sizes of the fragments add up to that of the message |
| Fragment.PiecesFit | master/trd/trd_fragment.c:167-178 | from any state, the fragments of a message all fit the reassembly buffer if and only if there are at most 256, or those up to the first that looks like the last fit the size announced in 16 bits |
| Fragment.ShortPiecesFit | master/trd/trd_fragment.c:167-178 | so for every message of up to 65535 bytes |
| Fragment.OnlyIntactCount | master/trd/trd_fragment.c:156-160 | fragments of another length than stated change nothing, wherever they come in a sequence |
| Fragment.NothingWithoutFirst | master/trd/trd_fragment.c:173-177 | until a first fragment comes, an idle receiver stays idle and hands nothing up |
| Fragment.Reassembler.ReceivePiece | master/trd/trd_fragment.c:146-191 | reception in place, on the buffer and its pointer, does one step of the receiver |
| Trickle.NeverInFirstHalf | master/trd/trd_timer.c:108-120 | over every run, no announcement in the first half of an interval |
| Trickle.AtMostOnce | master/trd/trd_timer.c:153-161 | over every run, between two announcements an interval begins |
| Trickle.NeverAfterSuppression | master/trd/trd_timer.c:78-88 | over every run, no announcement between a suppression and the next interval |
| Trickle.SilentUntilNext | master/trd/trd_timer.c:97-99 | an interval that has been processed or suppressed stays silent |
| Trickle.RunTold | master/trd/trd_timer.c:74-161 | over every run, the next event does exactly what is told: a tick counts down, announces, is suppressed, or begins the next stage, with a countdown of 2 to the stage and an announcement of less than half; a reset, and the beginning, is stage 1 with countdown 2 |
| Trickle.AfterReset | master/trd/trd_timer.c:133-136 | over every run, undisturbed after a reset, the second tick announces and the third begins the next interval |
| Trickle.StagesAfterReset | master/trd/trd_timer.c:89-94 | over every run, while only ticks have come since a reset, the stage is one more than the number of intervals begun since, up to 15 |
| Trickle.NeverAfterProcessed | master/trd/trd_timer.c:97-99 | over every run, no announcement in an interval that something else has dealt with |
| Trickle.UndisturbedTick | master/trd/trd_timer.c:74-95 | tick by tick, where an undisturbed interval announces and where it ends |
| Trickle.UndisturbedInterval | master/trd/trd_timer.c:74-95 | in any run, an undisturbed interval announces exactly when the chosen number of ticks is left, lasts its countdown (one more if that number is 0), and the next one is twice as long up to the longest |
| Trickle.StageBounded | master/trd/trd_timer.c:122-131 | the stage set for a wait is at most 16, and at most 15 if and only if the count of periods, cut to 16 bits, is below 32768 |
| Trickle.LongWaitIsNone | master/trd/trd_timer.c:108-112 | at stage 16 the timer announces at every tick |
| Trickle.TrickleTimer.SetInterval | master/trd/trd_timer.c:108-120 | begins an interval of the current stage |
| Trickle.TrickleTimer.UpdateCountersNow | master/trd/trd_timer.c:74-95 | counts down, suppresses, or doubles the interval |
| Trickle.TrickleTimer.TimerTick | master/trd/trd_timer.c:153-161 | a tick in place does the tick of the model, and announces exactly when that does |
| Trickle.TrickleTimer.ResetTimer | master/trd/trd_timer.c:133-140 | a reset begins an interval of the least stage (told in `Trickle.RunTold`) |
| Trickle.TrickleTimer.SetWait | master/trd/trd_timer.c:122-131 | the loop finds the least stage whose interval is longer than the count of periods, cut to 16 bits |
| TidList.NextIsUnique | master/transport/tidlist.c:114-131 | the id assigned is determined by the counter and the ids in use |
| TidList.AddMembers | master/transport/tidlist.c:138-159 | an entry whose id is not in use is added, and its id is then in use; any other changes nothing |
| TidList.RemoveMembers | master/transport/tidlist.c:221-226 | removal takes out the entry with that id and no other |
| TidList.CloseMembers | master/transport/tidlist.c:176-190 | a client's end takes out exactly its tasks and closings |
| TidList.StepKeepsDistinct | master/transport/tidlist.c:138-159 | adding, removing and closing keep ids distinct |
| TidList.RunDistinct | master/transport/tidlist.c:138-226 | no id is live twice after any run |
| TidList.Tids.Find | master/transport/tidlist.c:202-219 | finds the entry with an id if and only if there is one |
| TidList.Tids.NextCandidate | master/transport/tidlist.c:122-123 | the counter wraps at 16 bits, and counts above 50000 stand for 1 |
| TidList.Tids.AssignNewTid | master/transport/tidlist.c:114-131 | from any 16-bit counter, if some id is free, the search ends with the id asked for, if that is free, and otherwise with the next free one from the counter on |
| TidList.Tids.AddTid | master/transport/tidlist.c:138-159 | puts a new entry in front unless its id is in use, and keeps the count |
| TidList.Tids.RemoveTidNow | master/transport/tidlist.c:221-226 | removes the entry with that id, if any, and keeps the count |
| TidList.Tids.CloseAllForClient | master/transport/tidlist.c:176-190 | one pass removes everything that ends with a client, and keeps the count |

## Left out

- Sockets, select loops, the serial forwarder, log files, packet headers, checksums, byte order and allocation failure: arrivals are events, replies and deliveries are traces.
- The length of a packet: it is that of the payload, a sequence.
- Clocks, round-trip times, smoothed rates, congestion levels and random feedback: see Assumptions. The loss estimate in use is the one by average loss intervals; the smoothed one is not modelled.
- `rcrtransport_delete_tid`, `deletePending` in RCRT and the deletion in its timer: that code goes on using a connection after freeing it.
- The signal to the tid list that the last connection of a transaction has ended, and the table of connections: connections are independent, one for each transaction and mote. `StreamEndpoint` has one place of the table.
- `allocate_R_over_N`, `append_dR_by_goodput`, and the choice of an allocator by the name of a policy.
- Rounding of doubles: rates are reals, only the truncation to whole intervals is modelled.
- The lists of connections in the rate controller and of transaction ids: their entries are sequences reassigned in place, so pointers and the freeing of entries are not captured. The two lists of sequence numbers are modelled node by node.
- Fragments that do not fit the buffer: `Fragment.Reassembler.ReceivePiece` requires that a fragment fits, where the program copies without looking; `Fragment.PiecesFit` says exactly when the sender's do.
- The rate of a flow whose stored interval is 0, which is infinite in C: a flow can leave only with another interval, and `RateRuns.NoZeroInterval` says that there is no other with at most 30000 flows.
- The pause between fragments, the sequence number that `trd_send` returns, and the stored count of fragments, which the receiver never reads.
- The file that stores the last transaction id, and the message that ends a task when its client leaves.
- `trd_state.c`, `packettransport.c`, routing, the applications and the command encoders.
- TidList.Tids.AssignNewTid: requires a free id, because the search does not end without one.
- StreamWire.RunInStep: supposes that everything in play is in sight, the numbers in the missing list included, which `StreamWire.CloseInSight` derives from the arrivals for flagged runs; for others `StreamDelivery` refines the deliveries and the FIN, not the other replies, because a stale number can come out of sight of the newest one and is then pruned at another time.
- RcrtWire.RunInStep: supposes the same, which `RcrtWire.CloseInSight` derives from the arrivals for every close run.
