# Verified models of the GenAVB/TSN stack

These Dafny modules model the parts of the GenAVB/TSN stack whose correctness is hardest to see from the code, and
prove properties of them over every input and every run.

**Connection control** (AVnu Milan v1.2 sections 5.5.3 and 4.3.3.1; IEEE 1722.1-2013 sections 6.2.4, 6.2.5 and 8.2.2)

| module | what it models |
|---|---|
| `InflightPool`, `AcmpCommands` | the pool of commands in flight, its timers and retries, and sending a command |
| `SinkMachine`, `SinkInvariants`, `SinkRuns` | the Milan listener as a value: sink, discovery and SRP machines of any number of sinks, coupled through the pool; what every event keeps; progress |
| `SinkOutcomes` | what every event does to a sink, with its conditions written out, and the way to a reservation and back to one |
| `MilanListener` | the same as objects that update their fields, with the timers and traces of the source |
| `MilanTalker` | the Milan talker: one reconcile function driven by MAAP, SRP, probes and two timers |
| `AdvertiseMachine`, `AdvertiseOutcomes`, `AdpAdvertise` | the mutually recursive advertise machines of an entity and its interfaces: what every event keeps, and what it leads to |
| `TalkerTable`, `IeeeTalker` | the listener pairs of an IEEE 1722.1 talker, in slices of one shared array |

**Media clocks** (IEEE 1722-2016 clauses 5 and 10)

| module | what it models |
|---|---|
| `SytPlacement`, `Iec61883`, `Iec61883Listener` | which packets of a 61883-6 stream have a timestamp, and how the listener finds the frame it belongs to |
| `Crf`, `CrfRecovery`, `CrfListener` | clock recovery from a CRF stream, switching between received and generated timestamps: continuity, and what is measured and followed |
| `ClockSource` | the ring of hardware timestamps and its filling at the first update |

**Video** (RFC 6184 sections 5.6 to 5.8): `H264Payload`, `Cvf`, the talker's fragment headers and the listener's in-place
rewriting.

`WrapArithmetic`, `Sequences` and `Options` hold what several of these need.

## How to read it

Where the source updates state in place there is a class whose methods have its branches, loops and order of writes. A
ghost function gives the abstract value of an object, and every method's contract ties the new value to the old one by
a specification function. The theorems are lemmas about those functions: what one event keeps, and runs of any length.

What an operation computes is not left to its specification function: a lemma named `...Outcome`, or one like it, says
what an observer finds after it, with the source's condition written out over what was known, received and in flight.

Several invariants hold only under assumptions about the environment. Where the code needs one, a lemma named
`...Exact` says that the invariant survives an event *if and only if* the assumption holds for it:

- Milan listener: an accepted BIND names a non-null talker; the next sequence id is not still in flight; a probe response
  does not carry the sequence id of another sink's probe (the FIXME at avdecc/acmp_milan.c:1134); saved bindings neither
  duplicate a binding nor redirect a probe in flight (avdecc/acmp_milan.c:1559-1565 writes them unconditionally).
- Milan talker: MAAP announces a conflict before it moves a declared talker to another address.
- Advertising: a timer that fires while the entity's channels are not all open is lost, and with it the announcement
  (avdecc/adp_ieee.c:336-357).
- CRF: the listener does not start to generate before it has received a first timestamp. If it does (avtp/crf.c:490-493),
  the first timestamp received after that is used unchecked; everything after it is continuous again.
- 61883-6: intervals up to 256 frames, or packets of exactly one interval. The header comment of
  `avtp_61883_6_syt_interval_ln2` does not bound the interval, but the block counter has 8 bits.
- Clock source: at least two timestamps have to be valid, or the hardware wrote at least two.

Assumed throughout: allocation, IPC and transmission succeed; the talker of a bound sink is remote, so no message loops
back into a call in progress; the sinks are the only users of the in-flight pool, which has at least one entry more than
there are sinks. In Milan mode the source fires the no-response event for a command of any type that times out; with the
sinks as the only users, all of them are probes.

Integers are unbounded in Dafny: counters that wrap are taken modulo 2^8, 2^16 or 2^32 where the source's types do.
Conversions and differences of signed 32-bit numbers are taken to wrap.

## Model

| member | source | states |
|---|---|---|
| InflightPool.Partition | avdecc/avdecc.c:314-335 | free list, in-flight lists and held entries are disjoint and together are all entries of the storage |
| InflightPool.PartitionCount | avdecc/avdecc.c:314-381 | nothing is lost: free, in flight and held entries add up to the size of the storage |
| InflightPool.RemoveKeepsPlaced | avdecc/avdecc.c:450-465 | moving an entry from an in-flight list to the free list keeps every entry in exactly one place |
| InflightPool.RemoveFirstAt | avdecc/avdecc.c:364-381 | finding by sequence id takes the first match, so removing it removes that command and no other |
| InflightPool.RemoveFirstMiss | avdecc/avdecc.c:471-491 | cancelling a sequence id that is not in flight changes nothing |
| InflightPool.Pool.constructor | avdecc/avdecc.c:498-525 | all entries start free, with their timers stopped |
| InflightPool.Pool.Get | avdecc/avdecc.c:314-335 | hands out a free entry exactly when there is one |
| InflightPool.Pool.Start | avdecc/avdecc.c:337-350 | a held entry joins the front of a list with its timer running |
| InflightPool.Pool.Abort | avdecc/avdecc.c:357-362 | a held entry goes back to the free list |
| InflightPool.Pool.Find | avdecc/avdecc.c:364-381 | finds the first command with a sequence id, or there is none |
| InflightPool.Pool.Remove | avdecc/avdecc.c:450-465 | an entry leaves its list with its timer stopped; all others stay where they are |
| InflightPool.Pool.Cancel | avdecc/avdecc.c:471-491 | removes the first command with a sequence id, if any, and nothing else |
| InflightPool.Pool.Complete | avdecc/avdecc.c:280-312 | after the callback the entry's timer runs again, or the entry is free |
| AcmpCommands.CommandsHaveTimeouts | avdecc/acmp.c:40-57 | every command a controller or a listener sends has a timeout, so its entry cannot leak; commands are exactly the even types up to 12, and a controller may send those from 4 on |
| AcmpCommands.ControllerOutlastsListener | avdecc/acmp_ieee.c:26-43 | a controller that connects or disconnects still waits when the listener, which asks the talker twice, gives up; all other commands wait 200 ms |
| AcmpCommands.SendCmd | avdecc/acmp.c:208-241 | a command is tracked when an entry is free; the entry leaks exactly when the message has no timeout |
| SinkInvariants.OneProbeEach | avdecc/acmp_milan.c:402-460 | no sink has two probes in flight |
| SinkInvariants.PoolSuffices | avdecc/avdecc.c:314-335 | with one entry more than sinks, there is always a free entry for the next probe, also while a re-BIND holds two |
| SinkRuns.StepExact | avdecc/acmp_milan.c:868-1495 | an event keeps the whole invariant (states, parameters, probes in flight, discovery, SRP, stack traces, exclusive bindings) if and only if it meets the stated assumptions |
| SinkRuns.StolenProbeBreaks | avdecc/acmp_milan.c:1133-1140 | a response with another sink's sequence id takes away that sink's probe |
| SinkRuns.SavedBreaks | avdecc/acmp_milan.c:1559-1567 | saved parameters that duplicate a binding, or redirect a probe in flight, break the invariant |
| SinkRuns.RunKeeps | avdecc/acmp_milan.c:868-1567 | every run of admissible events, over any number of sinks, keeps the invariant |
| SinkRuns.NeverDead | avdecc/acmp_milan.c:1000-1237 | a bound sink that is not settled has a timer armed or a probe in flight, or waits for an undiscovered talker |
| SinkRuns.AwaitedComesCloser | avdecc/acmp_milan.c:1000-1237 | the event a sink waits for can happen, is admissible and brings it one step closer to being settled |
| SinkRuns.SettlesInThree | avdecc/acmp_milan.c:1000-1237 | from any unsettled state with a discovered talker, at most three answered events settle the sink on the answered stream, connected once, with its binding and all other sinks as they were |
| SinkRuns.OthersUntouched | avdecc/acmp_milan.c:868-1567 | an event for another sink, another talker entity or another stream leaves a sink exactly as it is |
| SinkRuns.SettlesInterleaved | avdecc/acmp_milan.c:1000-1237 | the same for every admissible run in which the sink sees only the events it waits for and anything may happen to the others in between: each brings it one step closer, and at most three settle it |
| SinkRuns.RegressionRestarts | avdecc/adp_milan.c:359-478 | an available_index that goes back restarts a sink that still looks for its talker, and no settled one |
| SinkRuns.ReplyHonest | avdecc/acmp_milan.c:472-541 | SUCCESS means bound or unbound as asked and exclusively; any other status means nothing changed |
| SinkRuns.StaleResponseIgnored | avdecc/acmp_milan.c:1133-1140 | a response that answers no command in flight, or comes when none is awaited, changes nothing |
| SinkRuns.DiscoveryInv | avdecc/adp_milan.c:359-478 | discovery and sink machine agree again when the call returns, although the sink hears of an event before discovery records it |
| SinkRuns.SrpInv | avdecc/acmp_milan.c:783-857 | SRP state and sink state agree again when the call returns |
| SinkRuns.NoResponseInv | avdecc/acmp.c:789-850 | a timeout retries once, then gives up, and keeps the probes matched to their sinks |
| SinkOutcomes.TimersMove | avdecc/acmp_milan.c:1025-1322 | every timer moves its sink on: TMR_DELAY sends the probe under the next sequence id; TMR_RETRY goes to the delay or waits for the talker; TMR_NO_TK disconnects the stream, clears its parameters and probes again, after the delay if the talker is discovered |
| SinkOutcomes.ProbeSentTwice | avdecc/acmp_milan.c:1092-1111 | an unanswered probe is sent again once; unanswered again it leaves, and the sink retries later with status TALKER_TIMEOUT |
| SinkOutcomes.ProbeAnswered | avdecc/acmp_milan.c:1133-1169 | the answer ends the sink's own probe and no other; SUCCESS settles and connects the stream of the answer, any other status is shown while the sink retries |
| SinkOutcomes.BindOutcome | avdecc/acmp_milan.c:921-1412 | an accepted BIND to the same talker changes the binding only; any other disconnects a settled sink, forgets its talker and replaces its probe by one to the new talker |
| SinkOutcomes.UnbindOutcome | avdecc/acmp_milan.c:944-1431 | UNBIND leaves no probe, stream, talker or binding, and disconnects a settled sink once |
| SinkOutcomes.UnbindUndoesBind | avdecc/acmp_milan.c:921-1202 | BIND and UNBIND of an unbound sink leave no trace but the sequence id used |
| SinkOutcomes.RepliesAre | avdecc/acmp_milan.c:338-541 | the status of every response by lock, index and exclusiveness; GET_RX_STATE reports a connection and fast connect iff a talker is bound, and registering failed iff SRP reports a failed talker |
| SinkOutcomes.SavedOutcome | avdecc/acmp_milan.c:1542-1571 | saved parameters start an unbound sink and change a bound one's binding only; incomplete ones are refused |
| SinkOutcomes.RegressedExact | avdecc/adp_milan.c:407 | the comparison of wrapping indices: regressed iff the true difference, within half a round, is not positive |
| SinkOutcomes.DiscoveryOutcome | avdecc/adp_milan.c:138-478 | an ADP message reaches exactly the sinks bound to its sender, each by what it knew: first discovery iff the gPTP identity matches, nothing from another interface, a newer index is noted, a regressed one is a departure and, if gPTP matches, a new discovery; a departure counts from the talker's interface only |
| SinkOutcomes.SilenceOutcome | avdecc/adp_milan.c:179-184 | a talker not heard of in time is gone: probing sinks wait for it, settled ones stay |
| SinkOutcomes.SrpOutcome | avdecc/acmp_milan.c:783-857 | a settled sink hears the registration of its own stream, id, address and VLAN, and is reserved by it; when a reserved one loses it the stream is disconnected and probed for again; nothing else is heard |
| SinkOutcomes.ReservedInFour | avdecc/acmp_milan.c:1000-1381 | from any unsettled state with a discovered talker, at most four events lead to a reservation of the answered stream |
| SinkOutcomes.SettlesAgain | avdecc/acmp_milan.c:1025-1462 | a settled sink that gets no reservation, or loses it, is settled again by three events, the old stream disconnected before the new one is connected |
| MilanListener.Listener.ValidMeans | avdecc/acmp_milan.c:868-1495 | between events: TMR_DELAY runs iff PRB_W_DELAY, TMR_RETRY iff PRB_W_RETRY, TMR_NO_TK iff SETTLED_NO_RSV, the discovery timer iff the talker is discovered; discovery, SRP state and status, probing and ACMP status, parameters and stack connection match the state; bindings are exclusive. Each transition starts and stops only the timers it names |
| MilanListener.Listener.ProbesMean | avdecc/acmp_milan.c:402-460 | a sink owns exactly one command in flight, with the sequence id it remembers, while it waits for a response, retried iff PRB_W_RESP2, and none otherwise |
| MilanListener.StreamInput.Restart | avdecc/acmp_milan.c:1031-1462 | a re-BIND in each state releases what that state holds: its own timer, its stack connection, the discovered talker |
| MilanListener.StreamInput.Unbind | avdecc/acmp_milan.c:944-1431 | likewise UNBIND, which leaves nothing behind |
| MilanListener.StreamInput.TalkerDeparted | avdecc/acmp_milan.c:1064-1281 | a departure stops the timer of the probing state and leaves a settled sink alone |
| MilanListener.StreamInput.NoTalkerTimerFired | avdecc/acmp_milan.c:1297-1322 | losing the reservation disconnects, and probes again with TMR_DELAY when the talker is discovered |
| MilanListener.StreamInput.NoResponse | avdecc/acmp_milan.c:1092-1111 | only the second timeout starts TMR_RETRY |
| MilanListener.StreamInput.Answered | avdecc/acmp_milan.c:1133-1169 | a failure starts TMR_RETRY, a success connects and starts TMR_NO_TK |
| MilanListener.StreamInput.ResetDiscovery | avdecc/adp_milan.c:359-478 | RESET forgets the talker and stops the discovery timer |
| MilanListener.StreamInput.Shutdown | avdecc/acmp_milan.c:2341-2357 | on exit a settled sink is disconnected and all timers are stopped |
| MilanListener.Listener.constructor | avdecc/acmp_milan.c:2245-2300 | all sinks start unbound with nothing armed |
| MilanListener.Listener.SendProbe | avdecc/acmp_milan.c:402-460 | the probe in flight carries the sequence id the sink remembers |
| MilanListener.Listener.AlreadyBound | avdecc/acmp_milan.c:447-470 | the scan finds another sink with the same talker exactly when there is one |
| MilanListener.Listener.Bind | avdecc/acmp_milan.c:472-512 | a binding is refused exactly when another sink has the talker; a probe is sent exactly when the talker changes |
| MilanListener.Listener.BindRxCommand | avdecc/acmp_milan.c:921-1293 | BIND in every state, with the new probe queued before the old one is cancelled, is the specified step |
| MilanListener.Listener.UnbindRxCommand | avdecc/acmp_milan.c:519-541 | UNBIND in every state is the specified step and releases everything the sink held |
| MilanListener.Listener.ProbeTxResponse | avdecc/acmp_milan.c:1133-1169 | a response in every state is the specified step |
| MilanListener.Listener.GetRxStateResponse | avdecc/acmp_milan.c:338-360 | the response tells the sink's state |
| MilanListener.Listener.SinkSm | avdecc/acmp_milan.c:868-1495 | the sink machine does what the specification says, touches one sink, and leaves it with exactly the resources of its state |
| MilanListener.Listener.DiscoverySm | avdecc/adp_milan.c:359-478 | the discovery machine, which calls the sink machine and is reset by it, does what the specification says |
| MilanListener.Listener.AcmpRcv | avdecc/acmp_milan.c:1505-1521 | a message for any sink index is the specified step; afterwards everything is consistent if and only if the message was admissible |
| MilanListener.Listener.TimerRcv | avdecc/acmp_milan.c:543-562 | likewise for the timers of a sink |
| MilanListener.Listener.DiscoveryTimerRcv | avdecc/adp_milan.c:179-184 | likewise for the discovery timer, without assumption |
| MilanListener.Listener.AcmpInflightTimeout | avdecc/acmp.c:789-850 | the sink hears of the timeout; a command sent once is sent again with the same sequence id |
| MilanListener.Listener.InflightTimeout | avdecc/avdecc.c:290-312 | a timeout ends with everything consistent, the entry free or its timer running again |
| MilanListener.Listener.AdpRcv | avdecc/adp_milan.c:138-160 | an ADP message reaches exactly the sinks bound to its entity, and leaves everything consistent |
| MilanListener.Listener.GetListenerUniqueId | avdecc/acmp_milan.c:754-774 | finds the first sink with a stream id |
| MilanListener.Listener.SrpStateSm | avdecc/acmp_milan.c:783-857 | only a settled sink listens to SRP, and only to its own stream |
| MilanListener.Listener.SavedBindingRcv | avdecc/acmp_milan.c:1542-1571 | saved parameters are written unconditionally; everything stays consistent if and only if they are admissible |
| MilanListener.Listener.Exit | avdecc/acmp_milan.c:2341-2357 | on exit every stack connection that was open is closed, once |
| MilanTalker.ReconcileIdempotent | avdecc/acmp_milan.c:1665-1769 | a second reconcile changes nothing and sends nothing, from any state; and what exactly the fixed points are |
| MilanTalker.GuardExact | avdecc/acmp_milan.c:1632-2163 | the redeclare guard holds over every admissible run that can follow an event, if and only if the event is not an unannounced change of a declared address |
| MilanTalker.UnannouncedBreaksGuard | avdecc/acmp_milan.c:2124-2163 | after any unannounced change, the listeners leaving, the probe timer and a new probe lead to a declaration of other parameters inside the withdraw window |
| MilanTalker.StepExact | avdecc/acmp_milan.c:1665-2173 | an event keeps the whole invariant, which includes that what is declared is the last declaration sent, if and only if it is such |
| MilanTalker.InvMeans | avdecc/acmp_milan.c:1609-1769 | declared implies an address and a recent probe or a registered listener; these imply declared, or waiting for the end of a withdraw window with other parameters; connected implies declared and a registered listener, declared with an active listener implies connected, the window flag is its timer and excludes declared, starts minus stops is 1 iff connected |
| MilanTalker.StepOutcome | avdecc/acmp_milan.c:1665-2188 | after every event from MAAP, SRP, a probe or a timer: what the talker was told, when it is declared, streams and keeps a window open, and that exactly the differences are sent, withdrawals first |
| MilanTalker.ListenersOutlastProbes | avdecc/acmp_milan.c:1617-1622 | while a listener is registered, an expiring probe timer changes nothing that is declared or streams |
| MilanTalker.WindowEnds | avdecc/acmp_milan.c:2165-2173 | a talker that is wanted is declared at the latest when the withdraw window ends |
| MilanTalker.GuardedAt | avdecc/acmp_milan.c:1632-1658 | at any place in the log: a declaration inside the withdraw window repeats exactly the last declared parameters |
| MilanTalker.RunKeeps | avdecc/acmp_milan.c:1665-2173 | over every run the talker is reconciled and the redeclare guard holds |
| MilanTalker.UnannouncedAddressBreaksGuard | avdecc/acmp_milan.c:2124-2163 | the shortest run that breaks the guard, as an illustration |
| MilanTalker.StreamOutput.Update | avdecc/acmp_milan.c:1665-1769 | the update is the reconcile function |
| MilanTalker.StreamOutput.MaapValidRcv | avdecc/acmp_milan.c:2124-2163 | a MAAP address keeps the invariant exactly when it does not move a declared talker |
| MilanTalker.StreamOutput.MaapConflictRcv | avdecc/acmp_milan.c:2062-2115 | after a conflict nothing is declared or connected |
| MilanTalker.StreamOutput.ListenerStatusRcv | avdecc/acmp_milan.c:1812-1835 | a listener status is recorded and reconciled |
| MilanTalker.StreamOutput.ProbeTxRcv | avdecc/acmp_milan.c:1880-1912 | the status of the response for each case; SUCCESS means declared, or waiting for the window to declare other parameters |
| MilanTalker.StreamOutput.ProbeTimerRcv | avdecc/acmp_milan.c:2175-2188 | an old probe no longer counts |
| MilanTalker.StreamOutput.WithdrawTimerRcv | avdecc/acmp_milan.c:2165-2173 | after two LeaveAll periods a waiting declaration is made |
| MilanTalker.StreamOutput.Exit | avdecc/acmp_milan.c:2359-2386 | nothing stays declared or connected; what was is withdrawn and disconnected once |
| AdvertiseMachine.StepExact | avdecc/adp_ieee.c:98-357 | every event ends in stable states with the delay timer running iff DELAY and the reannounce timer iff WAITING, for any number of interfaces, if and only if no timer was lost; and between two resets of the available index, which BEGIN and TERMINATE do, no interface announces the same round twice or an earlier one later |
| AdvertiseMachine.WireIndexAdvances | avdecc/adp_ieee.c:175-184 | between two resets, the index an interface sends advances by at least one announcement from each of its messages to a later one, modulo 2^32 |
| AdvertiseMachine.DelayAnnounces | avdecc/adp_ieee.c:137-155 | after the delay exactly one ENTITY_AVAILABLE goes out on every waiting interface |
| AdvertiseMachine.MessagesExact | avdecc/adp_ieee.c:147-150 | the loop over the interfaces sends one message for each waiting one, in order, and nothing else |
| AdvertiseMachine.ExitDeparts | avdecc/adp_ieee.c:157-175 | a waiting entity says ENTITY_DEPARTING on every interface; a delaying one leaves without a message |
| AdvertiseMachine.RunKeeps | avdecc/adp_ieee.c:98-357 | every run that loses no timer ends with all states stable, the timers as the states say, and the announcements in order between two resets of the index |
| AdvertiseMachine.AnnouncesAgain | avdecc/adp_ieee.c:98-210 | a started entity announces itself again after at most two timer events: every waiting interface sends ENTITY_AVAILABLE, with the next index when it was waiting |
| AdvertiseOutcomes.RequestOutcome | avdecc/adp_ieee.c:175-306 | a discover message or a new grandmaster at an advertised interface, or a link that comes up, makes a waiting entity delay its next announcement under the next index; otherwise only the interface waits |
| AdvertiseOutcomes.RequestAnnounces | avdecc/adp_ieee.c:137-306 | after that delay exactly one ENTITY_AVAILABLE with that index goes out on every waiting interface, the one that asked among them |
| AdvertiseOutcomes.OtherwiseUnmoved | avdecc/adp_ieee.c:234-306 | any other event of an interface changes nothing but its link; an advertised interface whose link goes down is advertised no longer |
| AdvertiseOutcomes.StartOutcome | avdecc/adp_ieee.c:112-127 | starting sets the index to zero and delays the first announcement, on the interfaces whose link is up |
| AdvertiseOutcomes.ExitOutcome | avdecc/adp_ieee.c:129-173 | a waiting entity sends one ENTITY_DEPARTING with index zero on every advertised interface, which is not started then; a delaying one leaves without a message |
| AdvertiseOutcomes.TimerOutcome | avdecc/adp_ieee.c:130-185 | the delay timer announces the current index, the reannounce timer starts the delay of the next one |
| AdvertiseOutcomes.LostDelaySilences | avdecc/adp_ieee.c:347-357 | once the delay timer fires while the entity is not ready, no run of events without an exit ever sends another message |
| AdvertiseOutcomes.LostReannounceHeals | avdecc/adp_ieee.c:336-345 | a lost reannounce timer is without consequence once the next request comes |
| AdpAdvertise.TransitionThenRest | avdecc/adp_ieee.c:228-334 | repeating transitions until the state stays the same runs an event to completion |
| AdpAdvertise.Advertiser.InterfaceSm | avdecc/adp_ieee.c:219-334 | the interface machine terminates and does one event to completion; an unknown interface is an error |
| AdpAdvertise.Advertiser.EntitySm | avdecc/adp_ieee.c:98-210 | the entity machine terminates and does one event to completion |
| AdpAdvertise.Advertiser.DelayTimeoutFired | avdecc/adp_ieee.c:347-357 | the timer callback keeps the invariant exactly when the entity is ready |
| AdpAdvertise.Advertiser.ReannounceTimeoutFired | avdecc/adp_ieee.c:336-345 | likewise |
| AdpAdvertise.Advertiser.AdvertiseStart | avdecc/adp_ieee.c:85-90 | starting is the specified step |
| AdpAdvertise.Advertiser.AdvertiseExit | avdecc/adp_ieee.c:423-435 | terminating is the specified step |
| AdpAdvertise.Advertiser.DiscoverRcv | avdecc/adp.c:159-185 | a discover message re-enters the entity machine from an interface and ends in stable states |
| AdpAdvertise.Advertiser.GmStatus | avdecc/avdecc.c:1136-1152 | likewise a change of the grandmaster |
| AdpAdvertise.Advertiser.MacServiceStatus | avdecc/avdecc.c:2030-2069 | likewise a change of the link state, which only acts on a change |
| TalkerTable.ConnectKeeps | avdecc/acmp_ieee.c:517-622 | a stream streams iff somebody listens, to no more listeners than it may have; SUCCESS iff the listener is connected afterwards |
| TalkerTable.WithoutKeeps | avdecc/acmp_ieee.c:633-675 | the last listener that leaves ends the stream |
| TalkerTable.ConnectOutcome | avdecc/acmp_ieee.c:517-622 | a connected listener stays; a new one is connected iff there is room, the output has its class, and the stream is idle or runs with that class; the status of every refusal, which changes nothing |
| TalkerTable.DisconnectOutcome | avdecc/acmp_ieee.c:633-675 | only the named listener leaves, and the stream ends iff it was the last; an unknown one is refused |
| TalkerTable.DisconnectUndoesConnect | avdecc/acmp_ieee.c:517-675 | disconnecting undoes a successful connect |
| TalkerTable.CountIsCardinality | avdecc/acmp_ieee.c:477-508 | the number of connected slots is the number of distinct listeners |
| TalkerTable.CountFull | avdecc/acmp_ieee.c:495-508 | a free slot exists exactly when the count is below the number of slots |
| TalkerTable.ConnectSlot | avdecc/acmp_ieee.c:612-618 | filling a free slot adds one listener and keeps the pairs distinct |
| TalkerTable.DisconnectSlot | avdecc/acmp_ieee.c:640-642 | clearing a slot removes exactly its listener |
| IeeeTalker.SliceUpdate | avdecc/acmp_ieee.c:1010-1011 | writing a slot of one talker leaves the slices of all others alone |
| IeeeTalker.Talkers.ConnectedTo | avdecc/acmp_ieee.c:477-488 | finds the slot of a listener exactly when it is connected |
| IeeeTalker.Talkers.GetFreeListener | avdecc/acmp_ieee.c:495-508 | finds a free slot exactly when the count is below the maximum |
| IeeeTalker.Talkers.ConnectTx | avdecc/acmp_ieee.c:886-913 | CONNECT_TX on the array is the specified operation on the set of listeners, with its status; no other talker changes |
| IeeeTalker.Talkers.DisconnectTx | avdecc/acmp_ieee.c:915-930 | likewise DISCONNECT_TX |
| IeeeTalker.Talkers.GetTxConnection | avdecc/acmp_ieee.c:939-955 | tells the listener of a slot, or that there is none |
| IeeeTalker.Talkers.LocalDisconnect | avdecc/acmp_ieee.c:685-707 | empties every table and ends every stream that had listeners, once |
| SytPlacement.SytIntervalLn2 | avtp/61883_iidc.c:133-142 | the smallest power of two from 8 on that covers a packet |
| SytPlacement.StampsCounts | avtp/61883_iidc.c:846-854 | which frames have a timestamp: the multiples of the interval, one timestamp each |
| SytPlacement.StampsStep | avtp/61883_iidc.c:833-853 | a packet contains at most one frame with a timestamp, the next one |
| SytPlacement.TsBatchIsExact | avtp/61883_iidc.c:784-789 | the ceiling formula on wrapping counters gives the number of timestamps in a batch |
| SytPlacement.TsBatchOfPackets | avtp/61883_iidc.c:789-794 | that is at most one a packet, so the clamp is never reached |
| SytPlacement.IsAheadIsExact | avtp/61883_iidc.c:846 | the signed comparison of wrapping counters says whether a packet contains the next frame with a timestamp |
| SytPlacement.StampsInBatch | avtp/61883_iidc.c:846-854 | every timestamp put into a packet of a batch is one that was asked for, also for a partial packet |
| SytPlacement.LaunchReadInBatch | avtp/61883_iidc.c:833-838 | so is every timestamp read for a launch time, although that read comes before it is decided who takes the timestamp |
| SytPlacement.CarriesNext | avtp/61883_iidc.c:846-857 | the timestamp a packet carries belongs to the one frame in it that has one |
| Iec61883.Talker.TimestampsNeeded | avtp/61883_iidc.c:784-797 | asks for the true number of timestamps, under 32-bit wrap |
| Iec61883.Talker.SendPacket | avtp/61883_iidc.c:822-877 | one packet of the ideal stream; the counters stay those of the ideal stream, wrapped |
| Iec61883.Talker.SendBatch | avtp/61883_iidc.c:814-878 | a batch uses exactly the timestamps asked for, and continues the run of ideal packets; a partial packet ends it |
| Iec61883.Talker.LaunchRead | avtp/61883_iidc.c:833-838 | before every packet of a batch, the timestamp a launch time may be read from is there |
| Iec61883.Talker.NetTx | avtp/61883_iidc.c:760-895 | every call, whatever fails, leaves the counters right or starts the stream over |
| Iec61883Listener.CounterIsStateless | avtp/61883_iidc.c:442-448 | the stateful 8-bit counter always equals the stateless formula, after any loss |
| Iec61883Listener.Listener.NetRx | avtp/61883_iidc.c:411-505 | what the media stack gets depends on each packet alone |
| Iec61883Listener.DeliveredExactly | avtp/61883_iidc.c:411-505 | which packets reach the media stack, by each header field, and with what: payload, alarm, and the timestamp or the mark of an uncertain one, whatever else is in the batch |
| Iec61883Listener.OffsetLawExact | avtp/61883_iidc.c:484-489 | the computed offset is that of the frame with the timestamp in every packet of every run, if and only if the interval is at most 256 or packets fill whole intervals |
| Iec61883Listener.EndToEnd | avtp/61883_iidc.c:442-489 | whatever packets of a talker's run arrive, lost, repeated or reordered, their payloads are delivered in that order and every timestamp is put on the frame the talker gave it to |
| Crf.MeasureFacts | avtp/crf.c:203-240 | the smoothed period never leaves [N-E, N+E+1] despite rounding; a batch without a jump is regular throughout |
| CrfRecovery.RegularExact | avtp/crf.c:213-215 | on wrapping timestamps, a distance is regular iff it is off by at most a 64th of the nominal period |
| CrfRecovery.JumpsExact | avtp/crf.c:210-240 | a batch jumps iff one of its distances, the first counted from the timestamp before, is irregular |
| CrfRecovery.PeriodMoves | avtp/crf.c:219-222 | the first distance is taken as the period; every later one moves it a quarter of the way, rounding aside, and never beyond |
| CrfRecovery.SteadyPeriod | avtp/crf.c:210-232 | timestamps all p apart give the period p, or p + 1 by rounding; two give p |
| CrfRecovery.PeriodConverges | avtp/crf.c:219-222 | whatever was measured before, timestamps p apart bring the period to within what rounding holds of p, by at least one each |
| CrfRecovery.NominalBefore | avtp/crf.c:727-729 | before anything is received the period is the nominal one |
| CrfRecovery.Extrapolates | avtp/crf.c:242-261 | what is generated continues the last timestamp handed over, k periods after it, modulo 2^32 |
| CrfRecovery.TimeoutContinues | avtp/crf.c:203-261 | when nothing follows received timestamps that were p apart, they are continued with that period |
| CrfRecovery.StateAfter | avtp/crf.c:316-447 | the next state for both events, from the state, the regularity of the batch after its reference, and the count |
| CrfRecovery.FlaggedOnce | avtp/crf.c:394-408 | only the first timestamp after locking again from a discontinuity is flagged |
| CrfRecovery.Recovers | avtp/crf.c:346-447 | from any state, three regular batches with more timestamps after the first than the delay asks for lock the listener |
| Crf.StreakGrows | avtp/crf.c:228-232 | the timestamp counter is at most the number of regular timestamps in a row |
| Crf.StepSound | avtp/crf.c:316-467 | every event, without exception, keeps the period in its range, the listener locked onto the timestamp it handed over last, and the count of regular timestamps right |
| Crf.StepExact | avtp/crf.c:316-467 | whatever comes next continues what was handed over, in every reachable state, exactly when the listener has not started to generate before it ever received a timestamp |
| Crf.OneGap | avtp/crf.c:316-467 | in any run at most one timestamp is neither a period away from the one before it nor flagged: the first one ever received, by a listener that had started to generate |
| Crf.RunContinuous | avtp/crf.c:316-467 | once a batch from the network was processed, whatever came before it, consecutive timestamps from that batch on are spaced in [N-E, N+E+1] modulo 2^32, within and across batches, except where flagged; LOCKED implies that the last timestamp received is the last one handed over |
| Crf.StitchEarned | avtp/crf.c:398-408 | a discontinuity is flagged only when more regular timestamps in a row were received than the delay asks for |
| Crf.LockedPassesThrough | avtp/crf.c:324-345 | the listener is locked exactly when it handed over what it received |
| Crf.GeneratedSpaced | avtp/crf.c:242-261 | generated timestamps are a period apart, from the last one handed over on |
| CrfListener.Listener.MeasurePeriod | avtp/crf.c:203-240 | the loop over the array measures as specified; its result tells a jump, or enough regular timestamps |
| CrfListener.Listener.GenerateTimestamps | avtp/crf.c:242-261 | overwrites the array with generated timestamps |
| CrfListener.Listener.Transition | avtp/crf.c:316-447 | the decision of every state for both events |
| CrfListener.Listener.StateHandler | avtp/crf.c:316-467 | one call is one step of the specification, in place, and leaves the timer running; what was handed over stays continuous from where it was, or from the one unchecked batch on |
| ClockSource.FilledGaps | avtp/clock_source.c:36-41 | every distance up to and including the first hardware timestamp is regular |
| ClockSource.EnoughAndRegular | avtp/clock_source.c:52-73 | min_valid_count timestamps before the write index, or as many as the hardware wrote if that is more, the hardware's own among them unchanged |
| ClockSource.FilledAt | avtp/clock_source.c:20-42 | every filled slot is so many periods before the hardware's first timestamp, with the hardware's first distance as period if there is one and it is regular, the nominal one otherwise |
| ClockSource.BadGapsCounts | avtp/clock_source.c:81-100 | what the check counts is the number of distances off by more than the jitter |
| ClockSource.FirstErrorsAre | avtp/clock_source.c:66-99 | what the first check counts: the irregular distances of the hardware, and their first one twice when nothing was filled in |
| ClockSource.CleanStartExact | avtp/clock_source.c:54-99 | a regular clock is never reported irregular at its first update, whatever the ring held, if and only if two timestamps have to be valid or were written |
| ClockSource.SlotsDiffer | avtp/clock_source.c:37-40 | indices less than a ring apart are different slots |
| ClockSource.Source.GridExpand | avtp/clock_source.c:20-42 | fills the slots before the start and changes no other slot of the ring |
| ClockSource.Source.CheckPeriods | avtp/clock_source.c:81-100 | counts the irregular distances of the new timestamps |
| ClockSource.FilledIsReady | avtp/clock_source.c:52-73 | the ring after the first update: at least min_valid_count timestamps up to the write index, the hardware's own unchanged among them, the rest of the ring untouched, every distance up to the first of them regular |
| ClockSource.Source.HwUpdate | avtp/clock_source.c:44-107 | the whole update, first or later: ring, index, counts, last timestamp and error counter |
| H264Payload.FragmentsUndone | avtp/cvf.c:354-395 | however a NAL unit is cut, start code and unit arrive exactly when its forbidden bit is clear; its end is marked once, on the last fragment, unless there is only one |
| H264Payload.StreamUndone | avtp/cvf.c:121-250 | a stream of NAL units, whole or fragmented, arrives as their byte stream |
| H264Payload.AggregateUndone | avtp/cvf.c:121-176 | a STAP-A of one or two units becomes start code and unit for each, one of more is dropped |
| H264Payload.PackedCount | avtp/cvf.c:135-152 | the parse of an aggregate finds its units; a last one that is cut short counts, two bytes or less do not |
| H264Payload.AggregateCutShort | avtp/cvf.c:131-180 | an aggregate whose last unit is shorter than its size says is unpacked as if the size were right |
| H264Payload.ReceivedByType | avtp/cvf.c:98-250 | which types of payload are dropped, and which pass as whole units behind a start code |
| H264Payload.ReceivedFragment | avtp/cvf.c:192-219 | what becomes of the first and of later fragments, of either type |
| H264Payload.UnitKeepsHeader | avtp/cvf.c:354-395 | every later fragment of a unit carries the type and importance of the unit's header, and the end bit on the last only |
| Cvf.CvfTalker.PreparePacket | avtp/cvf.c:337-447 | the two header bytes written in place, the state kept for the next fragment, and which packets carry the unit's timestamp |
| Cvf.TimestampReads | avtp/cvf.c:57-96 | the H.264 timestamp is read in network byte order |
| Cvf.CountUnits | avtp/cvf.c:131-152 | the loop counts the units of an aggregate, the last of which may be cut short |
| Cvf.RewriteTwoUnits | avtp/cvf.c:163-177 | moving the first unit and writing start codes over headers, byte for byte |
| Cvf.RewriteStapA | avtp/cvf.c:121-180 | the aggregate rewritten in place holds what the specification says |
| Cvf.RewriteFuStart | avtp/cvf.c:194-211 | the first fragment rewritten in place |
| Cvf.NetRx | avtp/cvf.c:57-281 | for every type of payload: freed, or memory that holds the specified bytes, starting no earlier than the H.264 header, with the end of frame and the timestamp read before it is overwritten |

## Left out

- Failures of allocation, IPC and transmission, and synchronous loopback of multicast messages: assumed not to happen.
- PDU layout, endianness, descriptors, logging and message names: sends are appended to traces.
- Diagnostic counters and statistics, accumulated latency, failure information, start and stop streaming flags, unsolicited notification timers, and the format and latency checks at connection.
- Milan listener: the cases of the sink machine are grouped by event instead of by state; each state keeps its own timer, cancel and stack calls, and what all states do alike is written once; the check of the sink index is made when the message is received; the RESET of the discovery machine is a method of the sink instead of a re-entrant call.
- MilanListener.Listener.AcmpInflightTimeout: commands of a controller application are not in the pool, so their answers and timeouts are not modelled.
- Milan talker: MAAP port, range and count filters, allocation requests, declaration status and the state queries.
- MilanTalker.StreamOutput.WithdrawTimerRcv: the two LeaveAll periods are a timer that fires at some time, not a duration.
- All timers are armed or not and fire at some time while armed; random delays and time values are not modelled.
- IEEE 1722.1: the listener of acmp_ieee.c, fast connect, and stream parameters such as address and VLAN; every stream output has its descriptors.
- Iec61883.Talker.SendPacket: the values of launch times, the time per packet, sequence numbers and the media clock restart bit are not modelled, because they do not influence where timestamps go.
- Iec61883Listener.Listener.NetRx: mismatches of stride, rate and format that are only counted are not modelled; the latency statistics neither.
- CrfListener.Listener.StateHandler: the interval of the next timeout is not modelled; without a clock source the source does not hand over anything, so a clock source is attached.
- The CRF talker, and reception before the state handler (header matching and validity of timestamps): the events carry the timestamps that pass.
- ClockSource.Source.HwUpdate: the state of the clock domain, which every call ends by setting to locked, is not modelled; the ring size is a power of two, so masks are written as remainders.
- Cvf.NetRx: the IEEE 1722-2016 header layout only; in the other layouts the start code overwrites the marker bit that is read afterwards. Payloads have at least their NAL unit header, and fragments their two header bytes.
- Cvf.CvfTalker.PreparePacket: a batch is the sequence of its packets; AVTP timestamps, sequence numbers and MJPEG are not modelled.
- avtp/aaf.c, avdecc/aecp.c, the discovery table of avdecc/adp.c, the Milan advertise machine, media clock generation and the public API.
