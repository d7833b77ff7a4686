# Verified models of the traffic junction system

The system runs road junctions. Cameras and vehicles report to a junction server, which decides
which lanes get green; vehicles find their junction by asking a proxy over a small binary protocol;
every program logs through one de-interleaving logger. This project models these three parts in
Dafny and proves what they keep over all runs, all schedules and all inputs.

`dafny verify dfyconfig.toml` checks the whole project.

## The logger

Many threads append entries to one list. A serializer thread follows a cursor through the entries
of one "current" thread until one of them flushes the stream, prints the block, and turns to the
owner of the oldest entry left. Both sides hold the log's mutex, so a write and a pass of the
serializer are atomic steps of a transition system (`LogModel.dfy`). The cursor is an option, since
a list's end iterator stays `end` when an entry is appended. Whether an entry flushes is part of the
entry.

The main theorem (`LogProofs.OutputIsReference`) is schedule independence: a turn of the serializer
commutes with any write, so that in every interleaving the output is a prefix of, and at rest equal
to, a reference function of the writes alone. From the invariant follow that no line is torn, no
entry lost or reordered, that only an unfinished line can hold up the log, and that shutdown
terminates and prints everything. `DeinterleavingLog.dfy` is the object with its loops, proved
against the transition system.

## The junction controller

The statechart has eight phases in a cycle and a stopped one. When the green timer expires the
controller queues the lanes whose own timers have expired, serves the oldest queued request by a
jump, or else advances the cycle; leaving a phase counts cars, resets timers and mostly assigns the
name of the next phase. `JunctionModel.dfy` has the operations on values, `EffectProofs.dfy` what
each does, `SignalProofs.dfy`, `CycleProofs.dfy`, `ResponseProofs.dfy`, `RegistryProofs.dfy` and
`CountingProofs.dfy` the properties of all runs, and `TrafficLightStateMachine.dfy` the object, whose
lane timers are objects too. What a timer's own thread does between two operations is a step that may
set any time left and may expire.

Where the code differs from what one would expect, the code is modelled and the difference stated
as a theorem:

- Leaving W by a normal transition assigns no next normal state, so the announced lanes are W's while
  N and S are green. `AgreementAfterPhaseEnd` says exactly when announcement and phase agree, and
  `EveryEighthPhaseEndMisannounces` that they do disagree.
- A jump freezes the timer of the lane it serves without resetting it, so an expiry is requested anew at
  every phase end until a phase that resets the timer is left (`ExpiryIsRequestedUntilReset`), and every
  request is served (`RequestsBalance`). One expiry is served exactly once if and only if the phase it falls
  into already resets the lane (`ExpiryServedOnceIff`); otherwise twice or more, at most the queue's length
  plus three times (`ExpiryRequestsBounded`). The bound on a lane's wait holds all the same.
- When both axes have expired, the one that expired later is served first (`LaterAxisFirst`), unlike the
  thesis's first come, first served.
- Turning a connected client into its own lane's tracker breaks the balance of waiting, passed and
  connected cars; `CarsAreConserved` has the exact condition and `ConversionBreaksBalance` a run.

## Messages and connections

A message is a header and a body used as a stack of bytes. On the wire it is the header's 16-byte
memory image (a 64-bit little-endian machine; the padding may hold anything) followed by the body.
The reader collects both from whatever pieces the socket delivers. `Connections.Deliver` joins a sender
and a receiver: the receiver rebuilds a prefix of the messages that the sender took from its queue, all
of them if and only if no byte failed to be taken. A socket is modelled by the
fragments it will deliver, which are not empty and after which it fails, and by the number of bytes it
will still take.

Each typed message is read by pops and written by pushes. Each parser is characterised by the bytes
it accepts, in both directions, so that the round trips hold exactly for the valid values. An address
takes nine characters on the wire; the address check accepts longer and shorter ones, which are then
cut or refused (`RedirectReadBack`, `LongAddressIsCut`). A double is eight bytes, of which only
equality with the sentinel 257.0 matters. `VehicleTrackerClient.dfy` proves that the vehicle's client
tells replies, redirects and rejections apart and what a whole query with its redirects comes to.

## Model

| member | source | states |
|---|---|---|
| LogProofs.RunIsConsistent | Common/utile/Log.hpp:142-234 | the inductive invariant, in every run until the drain: no current thread means nothing queued or streamed; a cursor that is not `end` is at the first pending entry of the current thread; at `end` that thread has nothing pending; the stream is the current thread's and unflushed; every flushed block is one thread's line |
| LogProofs.ExecuteCommutesWithWrite | Common/utile/Log.hpp:179-234 | one turn of the serializer and one `write`, by any thread, give the same state in either order |
| LogProofs.PassAbsorbsWrite | Common/utile/Log.hpp:179-234 | a whole pass before a write makes no difference once a pass follows the write |
| LogProofs.RunSettles | Common/utile/Log.hpp:142-234 | whatever the interleaving of writes and wake-ups, one more pass leads to the state that a single pass over all the writes leads to |
| LogProofs.PassComputesReference | Common/utile/Log.hpp:179-204 | the cursor-driven pass computes the schedule-free reference: serve the oldest writer up to its first flush, then start over with what is left |
| LogProofs.OutputIsReference | Common/utile/Log.hpp:142-240 | in every interleaving the printed blocks are a prefix of the reference's, and at rest blocks, unfinished line and waiting entries are exactly the reference's |
| LogProofs.NothingLost | Common/utile/Log.hpp:142-240 | in every run, closing or not, a thread's printed, streamed and queued entries are together everything it wrote, in order |
| LogProofs.BlocksAreLines | Common/utile/Log.hpp:183-240 | no line is torn: every flushed block is a single thread's next writes up to its next flushing one, and a thread with nothing queued has had all its finished lines printed |
| LogProofs.RestMeansPrinted | Common/utile/Log.hpp:147-204 | a serializer at rest has printed everything and serves no one if and only if every thread's last write was a flushing one |
| LogProofs.SerializeEndsAtRest | Common/utile/Log.hpp:147-204 | a wake-up of the serializer on an open log ends with the cursor at `end`, and with list, stream and current thread empty if every thread ended its line |
| LogProofs.DrainKeepsOrder | Common/utile/Log.hpp:151-173 | the order in which shutdown executes what is pending keeps every thread's own order and leaves nothing out |
| LogProofs.DrainIsContiguous | Common/utile/Log.hpp:151-173 | shutdown keeps each thread's remaining entries together, the unflushed stream included |
| LogProofs.DrainServesOldestFirst | Common/utile/Log.hpp:153-173 | the thread being served is drained first, and then the others in the order of their oldest pending entries |
| LogProofs.ShutdownPrintsEverything | Common/utile/Log.hpp:22-31 | closing from any reachable state prints every pending entry once and in per-thread order in one last block, after which list and stream are empty |
| DeinterleavingLog.Log.Write | Common/utile/Log.hpp:208-234 | `write` takes the log to the state of the transition system's write step, keeps the invariant, and signals exactly when the current thread is none or the writer's, which it is whenever the write gives the serializer something to do |
| DeinterleavingLog.Log.FindNext | Common/utile/Log.hpp:200-202 | `find_if`: the first entry of the thread from a position on, or `end` |
| DeinterleavingLog.Log.Flush | Common/utile/Log.hpp:236-240 | prints exactly the text of the streamed entries, empties the stream and clears the flushed flag |
| DeinterleavingLog.RenderIsTexts | Common/utile/Log.hpp:215-217 | streaming entries one after the other yields the concatenation of their texts, first to last, and nothing else |
| DeinterleavingLog.ConsoleShowsReference | Common/utile/Log.hpp:142-240 | the output as text: after any run of writes and wake-ups the console shows, flush by flush, the concatenated texts of the reference's blocks, a prefix of them and at rest all, with the unfinished line's text in the buffer |
| DeinterleavingLog.Log.Turn | Common/utile/Log.hpp:179-204 | one turn of the do-while loop is one execution step, and the loop's condition says whether another is possible |
| DeinterleavingLog.Log.Serialize | Common/utile/Log.hpp:144-206 | one iteration of the serializer thread is the transition system's serialize step, normal or closing |
| DeinterleavingLog.Log.DrainThread | Common/utile/Log.hpp:161-172 | the inner loop executes all of the current thread's entries and leaves exactly the others', in order; it shortens the list, which needs the invariant that the cursor is on one of them |
| DeinterleavingLog.Log.DrainList | Common/utile/Log.hpp:153-173 | the drain terminates with an empty list, having executed the pending entries in the drain order |
| DeinterleavingLog.Log.Drain | Common/utile/Log.hpp:151-177 | the closing branch: everything pending executed, one flush, serializer stopped |
| Timers.Timer.DecreaseTimer | Common/utile/Timer.cpp:63-70 | a timer never goes below zero |
| SignalProofs.RequestsCoverExpired | JunctionMainServer/model/controller/TrafficLightStateMachine.cpp:378-418 | a phase end queues only names the statechart knows, at most one per axis; every lane they name has expired and every expired lane is named |
| SignalProofs.LaterAxisFirst | JunctionMainServer/model/controller/TrafficLightStateMachine.cpp:402-417 | when both axes have expired, E/W goes first if and only if a lane of N/S expired before every expired lane of E/W: the axis that has waited longer goes second |
| SignalProofs.CrossingSafety | JunctionMainServer/model/controller/TrafficLightStateMachine.hpp:166-176 | in every run the undefined-transition exception is unreachable, every queued request and next normal state is a known name, and neither the active phase nor the announcement mixes {E,W} with {N,S} |
| SignalProofs.AgreementAfterPhaseEnd | JunctionMainServer/model/controller/TrafficLightStateMachine.hpp:166-337 | after a phase end the announced lanes are the active phase's if and only if it was not a normal transition out of W with a next normal state other than "NS" |
| SignalProofs.NextPhaseEndAgrees | JunctionMainServer/model/controller/TrafficLightStateMachine.hpp:303-318 | a disagreement is gone after the very next phase end, whatever happens in between |
| CycleProofs.EveryEighthPhaseEndMisannounces | JunctionMainServer/model/controller/TrafficLightStateMachine.hpp:303-318 | the disagreement is real: in every run in which no lane's timer expires, whatever else happens, the announcement is wrong after exactly every eighth phase end |
| CycleProofs.PhasesRepeat | JunctionMainServer/model/controller/TrafficLightStateMachine.hpp:179-337 | the normal cycle goes through its eight phases in order, again and again |
| CycleProofs.JumpEntersFirst | JunctionMainServer/model/controller/TrafficLightStateMachine.hpp:166-173 | of the phases in which exactly the requested lanes are green, a jump enters the first of the cycle, for all six names |
| CycleProofs.JumpResumesCycle | JunctionMainServer/model/controller/TrafficLightStateMachine.cpp:433-466 | after the last queued jump, over every run in which nothing expires, k phase ends lead k places further in the cycle than the phase the jump entered |
| SignalProofs.PhaseEndTimers | JunctionMainServer/model/controller/TrafficLightStateMachine.cpp:244-287 | after a phase end exactly the announced lanes' timers are frozen; the timers of the lanes that were green, and E's when W is left, hold the red duration and are not expired; all other readings are unchanged; the green timer holds the green duration and is not expired |
| ResponseProofs.RequestIsServed | JunctionMainServer/model/controller/TrafficLightStateMachine.cpp:433-466 | the jump queue is first come, first served: the request at place i is served by phase end i + 1, on display and in the active phase |
| ResponseProofs.BoundedResponse | JunctionMainServer/model/controller/TrafficLightStateMachine.cpp:378-466 | a lane whose timer is expired when a phase ends with q queued requests is green within q + 2 phase ends counting this one, whatever is queued later |
| ResponseProofs.ResponseFromStart | JunctionMainServer/model/controller/TrafficLightStateMachine.cpp:378-466 | the same bound without `q`: a lane found expired after n phase ends of a run is green within n + 2 more |
| ResponseProofs.QueueLength | JunctionMainServer/model/controller/TrafficLightStateMachine.cpp:378-466 | the queue's exact length over every run, by the requests made and the phase ends that found none; it grows by at most one request a phase end |
| ResponseProofs.RequestsBalance | JunctionMainServer/model/controller/TrafficLightStateMachine.cpp:378-466 | every request is served exactly once: in every run, requests for a lane queued at the start or made on the way have been served or are still queued |
| SignalProofs.ExpiryOutlivesPhaseEnd | JunctionMainServer/model/controller/TrafficLightStateMachine.cpp:433-456 | an expiry outlives a phase end if and only if the phase that is left does not reset the lane's timer, on jumps and normal transitions alike |
| ResponseProofs.ExpiryIsRequestedUntilReset | JunctionMainServer/model/controller/TrafficLightStateMachine.cpp:378-418 | with any queue and any other expiries, one expiry is requested once at every phase end up to and including the first that leaves a phase resetting the lane, and not after |
| ResponseProofs.ExpiryServices | JunctionMainServer/model/controller/TrafficLightStateMachine.cpp:378-466 | in every run in which the lane's timer does not run out anew, how often the lane is served: once for each of those requests and each queued before, less what is still queued |
| ResponseProofs.ExpiryServedOnceIff | JunctionMainServer/model/controller/TrafficLightStateMachine.cpp:378-466 | over the whole life of an expiry, the lane being queued neither before nor after it, the lane is served exactly once if and only if the phase active at the expiry resets its timer when it is left |
| ResponseProofs.ExpiryRequestsBounded | JunctionMainServer/model/controller/TrafficLightStateMachine.cpp:378-466 | one expiry causes at most q + 3 requests when q are queued |
| ResponseProofs.LoneExpiryIsServedTwice | JunctionMainServer/model/controller/TrafficLightStateMachine.cpp:433-456 | a single expiry with an empty queue, in a phase that does not reset the lane, makes exactly that lane green for two phases |
| ResponseProofs.FirstExpiryIsServedTwice | JunctionMainServer/model/controller/TrafficLightStateMachine.cpp:433-456 | a reachable input: the first timer to run out on a controller just started is served twice |
| RegistryProofs.RunKeepsDisjoint | JunctionMainServer/model/controller/TrafficLightStateMachine.cpp:78-154 | in every run no client is connected on two lanes |
| RegistryProofs.UnregisterLeavesNoTrace | JunctionMainServer/model/controller/TrafficLightStateMachine.cpp:127-154 | a successful `unregisterClient` leaves the client on no lane, although it erases from the first one found only, and the client may then register on any lane |
| RegistryProofs.RotatedMovesFirst | JunctionMainServer/model/controller/TrafficLightStateMachine.cpp:181-196 | the loop drops a prefix of departed vehicles, moves the first connected one to the back and moves nothing else; with nobody connected it empties the queue |
| RegistryProofs.EndEmergencyRotates | JunctionMainServer/model/controller/TrafficLightStateMachine.cpp:173-199 | if the caller was connected, the result is true exactly when no queued vehicle is still connected; otherwise the connected ones are rotated by one and only departed ones are dropped |
| RegistryProofs.NoEmergencyLost | JunctionMainServer/model/controller/TrafficLightStateMachine.cpp:127-199 | in every run a vehicle admitted as a client by `startEmergencyState` and connected ever since is in the emergency queue |
| RegistryProofs.RunKeepsBalance | JunctionMainServer/model/controller/TrafficLightStateMachine.cpp:95-199 | over any run without a phase end, waiting - passed - connected cars of a lane changes only by counter wrap-around and by one for turning a connected client into the lane's tracker |
| RegistryProofs.CarsAreConserved | JunctionMainServer/model/controller/TrafficLightStateMachine.cpp:95-199 | that balance is the same before and after (up to 16-bit wrap-around) if and only if no connected client is turned into the lane's tracker, which happens at most once |
| RegistryProofs.ConversionBreaksBalance | JunctionMainServer/model/controller/TrafficLightStateMachine.cpp:475-492 | a failing run: register on a lane without a tracker, then become its tracker |
| EffectProofs.Durations | JunctionMainServer/model/controller/TrafficLightStateMachine.cpp:17-22 | green lasts a fifth of the configured time, rounded down, and red three times as long, without wrap-around |
| EffectProofs.RegisterConnects | JunctionMainServer/model/controller/TrafficLightStateMachine.cpp:78-125 | a registration is accepted if and only if the client is the lane's tracker or connected nowhere; then exactly this client is added, unless it is the tracker; a refusal changes nothing |
| EffectProofs.RegisterLowersOneTimer | JunctionMainServer/model/controller/TrafficLightStateMachine.cpp:103-117 | a registration lowers at most its own lane's time left, and only for the side of the road in use; nothing else about any timer changes |
| EffectProofs.UnregisterDisconnects | JunctionMainServer/model/controller/TrafficLightStateMachine.cpp:127-154 | unregistering succeeds if and only if the client is connected, and takes exactly it off exactly one lane; a refusal changes nothing |
| EffectProofs.StartEmergencyQueues | JunctionMainServer/model/controller/TrafficLightStateMachine.cpp:161-171 | the vehicle is registered as one client on the side in use and, exactly if that is accepted, goes to the back of the queue |
| EffectProofs.EndEmergencyNeedsConnection | JunctionMainServer/model/controller/TrafficLightStateMachine.cpp:173-178 | a caller that is connected nowhere is told false and changes nothing |
| EffectProofs.TrackerIsAccepted | JunctionMainServer/model/controller/TrafficLightStateMachine.cpp:475-492 | a camera is accepted, and is then the lane's tracker, if and only if the lane has no other; other lanes keep theirs |
| EffectProofs.TrackerIsFirst | JunctionMainServer/model/controller/TrafficLightStateMachine.cpp:475-492 | in every run a lane's tracker is the address registered for it first, and exactly the calls with that address, or the first, succeed |
| EffectProofs.CountersCount | JunctionMainServer/model/controller/TrafficLightStateMachine.cpp:119-149 | in every run without a phase end, a lane's waiting and passed counters hold how many clients other than its tracker were let in and how many left, in 16 bits |
| EffectProofs.PhaseEndCounters | JunctionMainServer/model/controller/TrafficLightStateMachine.cpp:494-506 | a phase end takes passed off waiting for the lanes that were green, and stores the rounded-down weighted quotient of the old average and those new counters; the registry is untouched |
| CountingProofs.AverageErrorBound | JunctionMainServer/model/controller/TrafficLightStateMachine.cpp:494-506 | after t < 65535 samples with sum K the stored A satisfies K - t(t+1)/2 <= (t+1)A <= K and never exceeds the largest sample, so eight bits hold it |
| CountingProofs.AverageInEveryRun | JunctionMainServer/model/controller/TrafficLightStateMachine.cpp:494-506 | both bounds for the controller in every run, jumps and normal transitions alike: the error, and the largest sample of the run |
| CountingProofs.ReportLeavesExactly | JunctionMainServer/model/controller/TrafficLightStateMachine.cpp:225-228 | a camera report of n <= 100 cars leaves the most whole seconds that are no more than 100 - n percent of the time left, and a report of more leaves none as long as the decrease fits in 16 bits |
| CountingProofs.ReportsDecayGeometrically | JunctionMainServer/model/controller/TrafficLightStateMachine.cpp:95-105 | in every run in which the lane's timer is neither reset nor set to more, whatever else happens in between, k reports of n cars leave 100^k times the time left at most (100-n)^k times the initial one |
| TrafficLights.TrafficLightStateMachine.constructor | JunctionMainServer/model/controller/TrafficLightStateMachine.cpp:13-48 | the controller starts stopped, with a running timer of its own for every lane that is not missing and empty registries |
| TrafficLights.TrafficLightStateMachine.FreezeTimers | JunctionMainServer/model/controller/TrafficLightStateMachine.cpp:244-274 | the two loops freeze exactly the named lanes' timers and unfreeze all the others' |
| TrafficLights.TrafficLightStateMachine.ResetTimers | JunctionMainServer/model/controller/TrafficLightStateMachine.cpp:276-287 | the loop resets exactly the named lanes' timers to the red duration |
| TrafficLights.TrafficLightStateMachine.UpdateCarCount | JunctionMainServer/model/controller/TrafficLightStateMachine.cpp:494-506 | the loop over the lanes, with its 16- and 8-bit wrap-around, computes the counts that the averaging lemmas are about |
| TrafficLights.TrafficLightStateMachine.ScanTimers | JunctionMainServer/model/controller/TrafficLightStateMachine.cpp:380-400 | the loop collects, for each axis, the expired lanes' names and their earliest expiry |
| TrafficLights.TrafficLightStateMachine.QueueNextStatesWaiting | JunctionMainServer/model/controller/TrafficLightStateMachine.cpp:378-418 | appends the requests of both axes to the queue, the axis that expired later first, and nothing for an axis without expiries |
| TrafficLights.TrafficLightStateMachine.ProcessJumpTransition | JunctionMainServer/model/controller/TrafficLightStateMachine.hpp:166-175 | leaves the old phase by its exit action and enters the named one; an unknown name throws and changes nothing |
| TrafficLights.TrafficLightStateMachine.UpdateTrafficState | JunctionMainServer/model/controller/TrafficLightStateMachine.cpp:433-466 | serves the oldest request if there is one and else advances the cycle |
| TrafficLights.TrafficLightStateMachine.GreenLightExpireCallback | JunctionMainServer/model/controller/TrafficLightStateMachine.cpp:468-473 | the whole controller state after a phase end is that of the model's phase-end step |
| TrafficLights.TrafficLightStateMachine.FindClient | JunctionMainServer/model/controller/TrafficLightStateMachine.cpp:131-138 | the first lane, in enumerator order, on which the client is connected, if any |
| TrafficLights.TrafficLightStateMachine.RegisterClient | JunctionMainServer/model/controller/TrafficLightStateMachine.cpp:78-125 | refuses a client that is connected anywhere unless it is this lane's tracker; otherwise connects it, shortens the timer on the side in use, counts the car |
| TrafficLights.TrafficLightStateMachine.UnregisterClient | JunctionMainServer/model/controller/TrafficLightStateMachine.cpp:127-154 | erases the client from its first lane and counts it as passed unless it is the tracker; refuses a client that is not connected |
| TrafficLights.TrafficLightStateMachine.StartEmergencyState | JunctionMainServer/model/controller/TrafficLightStateMachine.cpp:161-171 | registers and, if admitted, queues the vehicle |
| TrafficLights.TrafficLightStateMachine.EndEmergencyState | JunctionMainServer/model/controller/TrafficLightStateMachine.cpp:173-199 | the loop of pops and the push back is the rotation that the registry lemmas are about; the result says whether the queue emptied |
| TrafficLights.TrafficLightStateMachine.RegisterVehicleTrackerIpAddress | JunctionMainServer/model/controller/TrafficLightStateMachine.cpp:475-492 | a lane keeps its first tracker: another one is refused, the same one is accepted again |
| Messages.Message.Push | IPC/net/Message.hpp:47-59 | appends the bytes and sets the header's size; the rest of the message is unchanged |
| Messages.Message.PopInto | IPC/net/Message.hpp:77-92 | takes the destination's size off the end of the body; with too few bytes body, header and destination all stay as they were |
| Messages.PopAllUndoesPushAll | IPC/net/Message.hpp:47-138 | any sequence of pushes of any sizes is undone by pops of the same sizes in reverse order: the values come back and the message is as before |
| Messages.RunKeepsSize | IPC/net/Message.hpp:47-147 | in every run of pushes, pops and clears the header's size is the body's length, and type and disconnecting never change |
| Messages.RunBody | IPC/net/Message.hpp:47-147 | what the body holds after any run of pushes, pops and clears, too-short pops included: its length, and for every place the byte of the last push that reached it |
| Framing.HeaderRoundTrip | IPC/net/Connection.hpp:262-271 | the header's bytes, whatever the padding, are read back as the header |
| Framing.HeaderLayout | IPC/net/Message.hpp:17-25 | where each header field lies in the 16 bytes, and which byte of id and size comes where |
| Bytes.LittleEndianAt | IPC/net/Message.hpp:53 | a value's bytes in memory, the lowest first: byte k has the weight 256^k |
| Framing.FrameRoundTrip | IPC/net/Connection.hpp:262-282 | a frame is read back whole whatever follows it, and the rest of the stream is what followed |
| Framing.StreamRoundTrip | IPC/net/Connection.hpp:253-261 | the frames of any sequence of messages are read back as that sequence, after which reading goes on with what follows |
| Framing.PrefixDeliversPrefix | IPC/net/Connection.hpp:67-88 | from any prefix of the stream the reader gets exactly the messages whose frames are complete in it |
| Framing.ArrivedIsLargest | IPC/net/Connection.hpp:67-88 | which is the longest sequence of first messages whose frames fit into the prefix |
| Connections.Connection.ReadData | IPC/net/Connection.hpp:67-88 | the loop over `left` fills the buffer with exactly the next bytes of the stream if there are that many, whatever the sizes of the reads, and else consumes everything, disconnects and fails |
| Connections.Connection.ReadHeader | IPC/net/Connection.hpp:262-271 | replaces the temporary message's header by the decoded next 16 bytes, or fails and leaves it alone |
| Connections.Connection.ReadBody | IPC/net/Connection.hpp:273-282 | gives the temporary message the next `header.size` bytes as its body, none being read for size zero, or fails and leaves it alone |
| Connections.Connection.AddToIncomingMessageQueue | IPC/net/Connection.hpp:284-303 | queues the temporary message and clears it for the next one |
| Connections.Connection.ReadMessages | IPC/net/Connection.hpp:242-260 | for every fragmentation, what is queued until the socket fails is exactly what the stream of bytes carries, in order; a torn last frame is dropped |
| Connections.Connection.Pop | Common/utile/ThreadSafePriorityQueue.hpp:46-57 | takes a message that none with priority precedes, and only that one |
| Connections.Connection.WriteMessages | IPC/net/Connection.hpp:337-377 | empties the queue: the messages taken are written as frames one after the other, those with priority first, all of them unless the socket fails, in which case only the last one taken is incomplete, the rest of the queue is discarded and the connection closed |
| Connections.TakenCarriesPrefix | IPC/net/Connection.hpp:242-407 | as far as a socket takes the frames, its bytes carry a prefix of the messages, and all of them if and only if it takes all the bytes |
| Connections.EveryCut | IPC/net/Connection.hpp:67-88 | every way of cutting bytes into fragments that are not empty is covered by the sizes that `Deliver` ranges over |
| Connections.Deliver | IPC/net/Connection.hpp:242-407 | end to end on the two objects: the sender writes its queue, its bytes reach the receiver in whatever fragments, and the receiver has queued a prefix of what the sender took, priority first; it has all of the sender's messages if and only if the sender's socket took all the bytes |
| IPAdressHelpers.CheckIPV4 | IPC/utile/IPAdressHelpers.cpp:7-39 | the three rounds of the original, each restarting at the first dot, accept exactly the texts with a number of at most 255 before the first dot and another after it |
| IPAdressHelpers.NumeralIsRead | IPC/utile/IPAdressHelpers.cpp:19 | `stoi` reads white space, a sign or none, and digits, whatever follows, as the number the digits spell in base ten |
| IPAdressHelpers.OnlyNumeralsAreRead | IPC/utile/IPAdressHelpers.cpp:19-25 | and nothing else: a text without a digit there throws |
| IPAdressHelpers.AcceptedAddresses | IPC/utile/IPAdressHelpers.cpp:7-39 | the check accepts a text if and only if what precedes its first dot and what follows it each spell a number from 0 to 255 |
| Codecs.ReplyRead | IPC/net/ProxyReply.cpp:8-61 | a reply is read from a message if and only if the body ends in its 43 bytes and it is valid (nine-character address that the check accepts, port not 65535, no sentinel coordinate); its header is the message's after the pops |
| Codecs.RedirectRead | IPC/net/ProxyRedirect.cpp:8-37 | the same for redirects and 11 bytes |
| Codecs.TrackerRead | IPC/net/VehicleTrackerMessage.cpp:9-37 | the same for tracker messages and 32 bytes |
| Codecs.ReplyFields | IPC/net/ProxyReply.cpp:8-61 | which bytes from the end of the body are which field of a reply, lower byte of the port first, latitude before longitude, and exactly which bodies are refused |
| Codecs.RedirectFields | IPC/net/ProxyRedirect.cpp:8-37 | the same for redirects |
| Codecs.TrackerFields | IPC/net/VehicleTrackerMessage.cpp:9-38 | the same for tracker messages |
| Codecs.SentinelIs257 | Common/utile/GeoCoordinate.hpp:20 | the refused bytes are those of the double 257.0 |
| Codecs.ReplyRoundTrip | IPC/net/ProxyReply.cpp:54-75 | exactly the valid replies are read back from their own message, all but the header's size, which is then zero |
| Codecs.RedirectRoundTrip | IPC/net/ProxyRedirect.cpp:31-47 | exactly the valid redirects are read back from their own message |
| Codecs.TrackerRoundTrip | IPC/net/VehicleTrackerMessage.cpp:34-47 | exactly the valid tracker messages are read back from their own message |
| Codecs.ReadThenWritten | IPC/net/ProxyReply.cpp:54-75 | writing what was read restores the bytes that were popped, and for a message of exactly that length the whole message, for all three codecs |
| Codecs.RedirectReadBack | IPC/net/ProxyRedirect.cpp:8-47 | what comes back for an address of any length: shorter than nine characters it is refused, longer ones are cut to their last nine |
| Codecs.LongAddressIsCut | IPC/net/ProxyRedirect.cpp:8-17 | the input for which the round trip fails: 192.168.100.200 is a valid address and comes back as 8.100.200 |
| Codecs.ParseReply | IPC/net/ProxyReply.cpp:54-61 | the reply constructor, pop by pop, leaves the message and yields the reply or the exception that the specification says |
| Codecs.ParseRedirect | IPC/net/ProxyRedirect.cpp:31-37 | the redirect constructor against its specification |
| Codecs.ParseTracker | IPC/net/VehicleTrackerMessage.cpp:34-38 | the tracker message constructor against its specification |
| Codecs.EncodeReply | IPC/net/ProxyReply.cpp:63-75 | the reply's conversion, push by push, yields the header with the body's size and the 43-byte layout |
| Codecs.EncodeRedirect | IPC/net/ProxyRedirect.cpp:39-47 | the redirect's conversion |
| Codecs.EncodeTracker | IPC/net/VehicleTrackerMessage.cpp:40-47 | the tracker message's conversion |
| VehicleTracker.VehicleTrackerClient.HandleProxyAnswer | VehicleTracker/model/VehicleTrackerClient.cpp:176-207 | tries the answer as a reply on a copy, then as a redirect, and otherwise rejects it without changing the client |
| VehicleTracker.ReplyIsTaken | VehicleTracker/model/VehicleTrackerClient.cpp:180-184 | every encoded valid reply is taken as a reply: an approving one sets junction and priority, any other is refused and changes nothing |
| VehicleTracker.RedirectIsFollowed | VehicleTracker/model/VehicleTrackerClient.cpp:190-195 | every encoded valid redirect is refused as a reply and followed: stacked, marked and connected to if reachable |
| VehicleTracker.AnswerIsClassified | VehicleTracker/model/VehicleTrackerClient.cpp:176-227 | the bytes alone decide, for every message: ending in a valid reply it is that reply; else, ending in a valid redirect, that redirect; else, and whenever it has fewer than 11 bytes, it changes nothing and fails |
| VehicleTracker.VehicleTrackerClient.QueryProxy | VehicleTracker/model/VehicleTrackerClient.cpp:121-174 | the recursion over redirects is the specification's, state and result |
| VehicleTracker.QueryNeedsAnswer | VehicleTracker/model/VehicleTrackerClient.cpp:123-160 | a client that is not connected, or gets no answer, fails and only forgets a former redirect |
| VehicleTracker.RedirectsAreFollowed | VehicleTracker/model/VehicleTrackerClient.cpp:164-174 | any chain of redirects within reach is followed to the first other answer, a reply, a rejection or a redirect out of reach, which decides the query; the proxies are stacked in order |
| VehicleTracker.RedirectsLeadToJunction | VehicleTracker/model/VehicleTrackerClient.cpp:164-174 | such a chain that ends in an approving reply ends at the junction that the reply names |
| VehicleTracker.QueryOutcome | VehicleTracker/model/VehicleTrackerClient.cpp:121-227 | whatever is answered: the stack only grows, by at most one proxy an answer; success means connected with a junction named; the query ends redirected exactly when the last proxy was out of reach; failure leaves junction and priority as they were |
## Left out

- Sockets, Boost.Asio, RSA, the database, the detectors, the windows, process handling, and JSON and file loading: input and output, or libraries not shown; what they deliver is a parameter.
- The logging macros of `Common/utile/Logger.hpp`, which at present bypass the logger with a line comment.
- Stream state that outlives an entry (`hex`, `unitbuf`), moving a log, and writes after its destruction.
- The timer thread's loop in `Common/utile/Timer.cpp` lines 7-37: its check and decrement are not one atomic step; a timer step may do anything that loop may do, and more.
- Timers.Timer.DecreaseTimer: the race between this method and the decrement of the timer's own thread is not modelled.
- `updateTimersDuration`, which returns at once.
- TrafficLights.TrafficLightStateMachine.RegisterClient: the decrease for a client that is not a tracker (with `lgput`), and any decrease of more than 16 bits, is a parameter, because the former is not the power its name suggests and the latter's conversion is undefined.
- CountingProofs.ReportsDecayGeometrically: the original takes a percentage in floating point and rounds up; the model does it on exact integers.
- TrafficLights.TrafficLightStateMachine.StartEmergencyState: registering and queueing are one step here, while the original releases its mutex in between.
- TrafficLights.TrafficLightStateMachine.EndEmergencyState: unregistering and the pops are one step here, while the original releases its mutex in between; the default insertion of a map's `operator[]` is a lookup with a default.
- TrafficLights.TrafficLightStateMachine.UpdateTrafficState: the branch for a pop that finds the queue empty although it was not, which a single consumer never takes.
- That emergency vehicles get green: the emergency state is never consulted by the traffic update.
- That the waiting counters are true counts across phase ends: the cumulative passed count is subtracted at each.
- CountingProofs.AverageInEveryRun: stops before the transition counter wraps at 65535.
- Connections.Connection.ReadData: shutdown in the middle of a read.
- Connections.Connection.ReadMessages: shutdown in the middle of a read, and failing to allocate a body of an absurd announced size; the priority queue of incoming messages is the sequence of what is pushed into it.
- Connections.Connection.WriteMessages: messages sent while it runs; the original takes them in later rounds of the same loop. Among messages of equal priority any order is possible, as in the original's heap.
- Framing.HeaderRoundTrip: bodies of 2^64 bytes and more.
- IPAdressHelpers.CheckIPV4: which texts an address ought to be; the check is modelled as it is, with the white space and signs that `stoi` lets pass.
- VehicleTracker.VehicleTrackerClient.QueryProxy: the coordinates, the direction, sending and waiting; an answer that fails to come for any of these reasons is absent. The disconnect message that precedes a switch is left out.
- The server's pool of ids, the proxy and its database, the rest of the vehicle's process loop, tracking and counting of moving objects, and configuration files.
