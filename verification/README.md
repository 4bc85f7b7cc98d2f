# FlexRIC protocol core: a verified model

FlexRIC connects three kinds of programs. The near-RT RIC asks E2 agents for subscriptions,
subscription deletes and control actions over E2AP (sections 8.2.1 to 8.2.4 and 8.3.1 of O-RAN E2AP
v01.01). Each E2 agent serves one ready file descriptor at a time. An xApp talks to its peer over
the E42 dialect from a user-interface thread, while an event loop handles the answers and a
dispatcher runs the callbacks. Their handlers are full of assertions ("response finds its pending
entry", "unknown event happened", "ric_req_id not registered") that no single function can justify:
they depend on both ends of a link and on the order in which a thread registers, arms and sends.

The model has three layers. *Classes* (`NearRtRic`, `E2Agent`, `E42XApp`, `NodeTable`,
`PubSubTable`, `Agents`) update in place the fields the C structures have, and every method is
proved against a function on the class's `View()` and, field by field, against what the source does
to it. *State machines* (`E2Link`, `AgentRuns`,
`XAppRuns`, `NodeRegistry`, `AgentTable`) interleave those same functions in every order the threads
and channels allow; an assertion of the source is the `Enabled` condition of the step that makes it.
*Theorems* speak about every run of a machine. The smaller algorithms (identifier codecs, setup
handshake, publishing, down-sampling, configuration values, byte arrays) have their loops proved
against independent characterisations.

| file | contents |
|---|---|
| E2apTypes.dfy, BiMaps.dfy | messages, pending keys and their order, the bidirectional map |
| NearRic.dfy, E2Agents.dfy | the two ends of E2AP |
| E2Link.dfy | both ends over FIFO channels: the machine, conservation of requests |
| E2Flow.dfy, E2Rest.dfy | on that machine: which identifiers are issued, what becomes of every message; that it can come to rest |
| E2Timers.dfy, E2Trace.dfy | on that machine: the timer lookup of the event loop, the trace language |
| AgentRuns.dfy | whole runs of the agent: event classification, setup retry |
| XApps.dfy, XAppRuns.dfy | the xApp, and the interleaving of its threads with the peer |
| XAppExtraction.dfy, XAppDelivery.dfy | on that machine: extraction by kind, delivery of indications |
| SetupHandshake.dfy, NodeRegistry.dfy | E2 setup on both ends, the RIC's records of its nodes |
| PubSub.dfy | listener table and publication |
| AgentTable.dfy | one agent per RIC, started and stopped concurrently |
| GnbIds.dfy, FixedWidthIds.dfy | identifier bit strings |
| Shrink.dfy, ConfFile.dfy, ByteArrays.dfy | down-sampling, configuration values, strings and bytes |

`dafny verify dfyconfig.toml` checks everything.

## What the code promises and where it does not keep it

Where a property the code relies on is false of the code, the model keeps the code's behaviour, a
lemma gives a run or an input on which it fails, and another lemma states exactly when it holds.

- Requests may be issued again while pending: the pending map accepts equal keys. Conservation
  therefore counts copies and needs no assumption (`RequestsAreConserved`).
- A forwarded subscription rewinds the RIC's counter to its own number, so the RIC's next report to the
  same function is given the very identifier that was forwarded (`ForwardedNumberIsReissued`). Without
  forwarded subscriptions the values drawn are distinct exactly up to 2^32 of them
  (`ValuesAreDistinctIff`).
- The RIC's event loop looks a reported timer up and asserts that it is there, while other threads
  insert, extract, close and reuse descriptors. The lookup is right exactly in the runs without
  overlap (`LookupsAreSafeIffNoOverlap`, `LookupIsExact`); four runs show each way to overlap
  (`StoppedBeforeLookup`, `ReportedBeforeClose`, `ReportedBeforeInsertion`, `ReusedBeforeLookup`).
- A connection lost while a setup timer is pending empties the map without closing the timer, whose
  next expiry is an "Unknown event" (`UnknownEventIffUncleanLoss`, `LossBeforeResponseLeaksTimer`).
- After a setup retry the peer owes two responses; the second one aborts the agent
  (`SetupRetrySafety`, `SecondResponseAfterRetryFails`). The transaction identifier on the wire has 8
  bits although the counter has 32, so identifiers repeat after 256 unanswered requests. A retry that
  cannot be encoded takes the timer with it, and no further retry comes (`StalledByUnencodedRetry`).
- The setup-timer event closes the fired descriptor twice. With several agent threads in the process
  the second close can hit a descriptor opened in between (`SecondCloseSparesOtherIff`).
- xApp deletes and control requests are sent before their timer is registered, so a quick answer
  finds no pending event (`AnswerIsSafeOutsideWindow`, `DeleteAnswerCanBeatItsTimer`).
- The xApp's pending map compares kinds only. That is harmless while at most one request per kind is
  outstanding (`KindExtractionIsExact`), and for pending events exactly as long as none is armed over
  another of its kind (`ExtractionsAlikeIffNeverArmedOver`); a timed-out wait makes that possible
  (`TimedOutWaitMixesTimers`).
- A setup request sent again leaves the node listed twice, and still listed after its association is
  gone (`StaleExactlyAfterRepeatedSetup`, `RetriedSetupLeavesStaleNode`).
- `publish_ind_msg` reads the listeners of the front entry instead of the matched one
  (`PublishingIsRightIffFrontAgrees`). The default listeners are the same everywhere, so nothing is
  visible today (`DefaultPublishing`).
- The agent counter is never lowered when an agent's thread ends, so twenty short-lived agents block
  the table until the next stop (`EndedAgentsFillTheTable`).
- The NR cell id decoder sign-extends bit 31 (`DecodeEncodeNr`).
- `rtrim` alone does not trim a blank string that has white space in front of it; after `ltrim` this
  cannot matter (`Rtrim`, `TrimAt`). A 24-character value passes the length assertion and leaves the
  24-byte buffer without a terminator (`CopyToBuffer`).
- `cmp_str_ba` compares signed characters with unsigned bytes (`CmpAgreesWithByteOrder`,
  `SevenBitIsExact`).

## Model

| member | source | states |
|---|---|---|
| E2apTypes.PendingKeyOrderIsTotal | src/lib/pending_event_ric.c:28-42 | The comparison behind the RIC's pending map is a total order that answers 0 exactly for equal keys, so its tree searches find by equality; among keys of one kind the smaller request number comes first. |
| E2apTypes.AnswerStopsItsOwnRequest | src/ric/msg_handler_ric.c:104-118 | The answer to a request has the matching kind and the same identifier and stops the very key the request was registered under; different requests never share a key or an answer. |
| BiMaps.CountInsert | src/util/alg_ds/ds/assoc_container/bimap.c:55-86 | Inserting a fresh descriptor adds one copy of its key and of no other. |
| BiMaps.CountExtract | src/util/alg_ds/ds/assoc_container/bimap.c:116-141 | Extracting a descriptor takes one copy of its key and of no other. |
| BiMaps.CountOneIsUnique | src/util/alg_ds/ds/assoc_container/bimap.c:116-141 | With one copy of a key, extraction by key has only one possible result. |
| NearRic.AddPendingKeepsValid | src/ric/near_ric.c:740-784 | The epoll set stays the disjoint union of the endpoint, the timers not inserted yet, the keys of the pending map and the timers being closed. |
| NearRic.CreateKeepsValid | src/ric/near_ric.c:755-756 | So it does when a timer is only created. |
| NearRic.InsertKeepsValid | src/ric/near_ric.c:758-761 | And when a created timer is inserted later. |
| NearRic.ExtractKeepsValid | src/ric/msg_handler_ric.c:74-79 | And when a worker has taken a timer from the map and not closed it. |
| NearRic.CloseKeepsValid | src/ric/msg_handler_ric.c:84-85 | And when it closes it. |
| NearRic.StopKeepsValid | src/ric/msg_handler_ric.c:68-86 | And over the whole of stop_pending_event. |
| NearRic.NearRtRic.constructor | src/ric/near_ric.c:181-247 | A new RIC has only its endpoint registered and nothing pending. |
| NearRic.NearRtRic.ReportService | src/ric/near_ric.c:740-784 | Returns and registers a subscription with the counter's value as its number, instance 0 and the given function; the counter grows by one in 32 bits; the descriptor invariant is kept. |
| NearRic.NearRtRic.RmReportService | src/ric/near_ric.c:796-837 | Registers a delete under the caller's number, instance 0 and the given function, without any duplicate check; the counter stays. |
| NearRic.NearRtRic.ControlService | src/ric/near_ric.c:862-897 | The same as a report for a control request: numbered with the counter, which grows by one in 32 bits. |
| NearRic.NearRtRic.FwdSubscriptionRequest | src/ric/near_ric.c:938-988 | Registers the forwarded request under its own identifier, rewinds the counter to its low 16 bits and keeps the highest forwarded number. |
| NearRic.NearRtRic.FwdSubscriptionDelete | src/ric/near_ric.c:990-1030 | Sent if and only if no pending entry has both this kind and this identifier; then that entry is added, otherwise nothing changes. |
| NearRic.FwdControlKeepsHighHalf | src/ric/near_ric.c:1041-1042 | The forwarded identifier has the low 16 bits of the counter, the high 16 bits of the caller's request number and the caller's instance and function. |
| NearRic.NearRtRic.FwdControlRequestTo | src/ric/near_ric.c:1032-1063 | Registers the request under that identifier; the counter grows by one in 32 bits. |
| NearRic.NearRtRic.StopPendingEvent | src/ric/msg_handler_ric.c:68-86 | Fails exactly when the key has no entry; otherwise removes one of its descriptors from the map and the epoll set. |
| NearRic.NearRtRic.PendingTimeout | src/ric/near_ric.c:517-530 | A timeout moves the retry counter 0, 1, 2, 3 and back to 0, and changes nothing else. |
| NearRic.RetryCounterCycles | src/ric/near_ric.c:517-525 | Consecutive timeouts take the retry counter from 0 through 1, 2, 3 to 0 again. |
| NearRic.NearRtRic.OnReply | src/ric/msg_handler_ric.c:104-268 | Each answer stops the entry of its own kind and identifier, or fails when there is none; an indication stops nothing. |
| E2Agents.RequestKeepsValid | src/agent/msg_handler_agent.c:161-295 | Every request handler keeps endpoint, pipe, subscription timers, setup timers and leaked descriptors disjoint and together equal to the epoll set. |
| E2Agents.PendingEventKeepsValid | src/agent/e2_agent.c:463-535 | So does the setup-timer event, whether or not the new request can be encoded. |
| E2Agents.ShutdownKeepsValid | src/agent/e2_agent.c:537-569 | So does a connection loss, if the pending timers it forgets count as leaked. |
| E2Agents.SecondCloseSparesOtherIff | src/agent/e2_agent.c:488-498 | The second close of the fired timer leaves a descriptor opened meanwhile by another thread open if and only if it is not the fired number handed out again. |
| E2Agents.ClassificationIsExact | src/agent/e2_agent.c:165-301 | A ready descriptor is classified as what created it; unknown are exactly the leaked ones. |
| E2Agents.TimerSplitIsExact | src/agent/asio_agent.c:120-128 | Seconds and nanoseconds of a period add up to the period, with fewer than 10^9 nanoseconds. |
| E2Agents.FindConnectionIsFirst | src/agent/e2_agent.c:471-477 | The search for the agent's RIC returns the first connection with its address. |
| E2Agents.E2Agent.constructor | src/agent/e2_agent.c:731-800 | A new agent has its endpoint and pipe registered, no timers and a zero counter. |
| E2Agents.E2Agent.StartAgent | src/agent/e2_agent.c:802-874 | Start leaves one setup timer and a counted attempt, and sends the first identifier unless the request cannot be encoded; the timer stays in both cases. |
| E2Agents.E2Agent.GenSetupRequest | src/agent/gen_msg_agent.c:79-85 | The request carries the low 8 bits of the counter, which then grows by one in 32 bits. |
| E2Agents.E2Agent.HandleSubscriptionRequest | src/agent/msg_handler_agent.c:161-213 | Registers the subscription's timer and answers with the same identifier; setup timers, counter and connections stay. |
| E2Agents.E2Agent.StopIndEvent | src/agent/msg_handler_agent.c:52-90 | Reports whether the subscription had a timer, and removes one of its timers if so. |
| E2Agents.E2Agent.HandleSubscriptionDelete | src/agent/msg_handler_agent.c:215-239 | Always answers with the same identifier; takes one timer of that subscription out of map and epoll set when there is one, and otherwise changes nothing. |
| E2Agents.E2Agent.HandleControlRequest | src/agent/msg_handler_agent.c:261-295 | A control request is acknowledged under its own identifier. |
| E2Agents.E2Agent.OnIndicationTimer | src/agent/e2_agent.c:655-683 | A subscription's timer sends an indication with that subscription's identifier if and only if there is something to report. |
| E2Agents.E2Agent.OnSetupResponse | src/agent/msg_handler_agent.c:307-345 | Succeeds exactly when a setup timer is pending and the counter is positive; then the timer is gone and the counter is zero. |
| E2Agents.E2Agent.FindRic | src/agent/e2_agent.c:471-477 | The loop finds the first connection with the agent's RIC address. |
| E2Agents.E2Agent.ClosePendingTimers | src/agent/e2_agent.c:488-498 | The loop closes every pending timer and no other descriptor, and empties the map. |
| E2Agents.E2Agent.OnPendingTimer | src/agent/e2_agent.c:463-535 | Replaces all setup timers by one, counts the attempt at the first connection with the RIC's address, tells which identifier was sent, if any, and does nothing but close the fired timer when the RIC is not listed. |
| E2Agents.E2Agent.OnConnectionShutdown | src/agent/e2_agent.c:537-569 | Leaves one fresh setup timer in the map and closes none of the old ones. |
| E2Agents.E2Agent.NextAsyncEvent | src/agent/e2_agent.c:264-301 | Classifies in the order endpoint, pipe, subscription timers, setup timers. |
| AgentRuns.RunKeepsInv | src/agent/e2_agent.c:571-729 | Every run of the loop keeps the partition of the epoll set. |
| AgentRuns.UnknownEventIffUncleanLoss | src/agent/e2_agent.c:264-301 | After a run, no registered descriptor is unknown if and only if every connection loss of the run came with no setup timer pending. |
| AgentRuns.LossBeforeResponseLeaksTimer | src/agent/e2_agent.c:551-555 | A connection lost before the first setup response makes an unknown event possible. |
| AgentRuns.SetupRetrySafety | src/agent/msg_handler_agent.c:320-345 | Over every run, encoding failures included: at most one setup timer; the counter is the number of requests generated since the last response; their wire identifiers are distinct if and only if there are at most 256; a response is handled if and only if a timer is pending and the counter is positive, and then clears both; with a positive counter the timer is missing if and only if the retries have stalled. |
| AgentRuns.StalledByUnencodedRetry | src/agent/e2_agent.c:520-528 | They have stalled if and only if the last event that moved the setup timer was a retry that could not be encoded; never while every retry is encoded. |
| AgentRuns.SecondResponseAfterRetryFails | src/agent/msg_handler_agent.c:330-340 | After one retry the first response is handled and no second one can be. |
| AgentRuns.RetriesAreCounted | src/agent/e2_agent.c:471-500 | Over every run, the first connection with the RIC's address counts exactly the setup-timer events, and no other connection changes. |
| AgentRuns.TimersFollowRequests | src/agent/msg_handler_agent.c:161-239 | Over every run, a subscription has exactly the timers that its own requests leave: one more per subscription, one fewer per delete that finds one. |
| AgentRuns.LoopIsReceptive | src/agent/e2_agent.c:571-729 | In every reachable state every request can be served, every timer can fire and the connection can be lost without a failed assertion. |
| E2Link.StepKeepsInv | src/ric/near_ric.c:740-1063 | Every step of either end keeps, per request, the pending entries equal to the copies under way. |
| E2Link.RequestsAreConserved | src/ric/near_ric.c:740-1063 | Over every run, pending entries per key equal the copies registered but unsent, in flight, answered in flight, or held by a worker; the epoll set is the endpoint, the pending timers and those that threads hold before insertion or after extraction. |
| E2Link.WorkerFindsPendingEntry | src/ric/msg_handler_ric.c:68-86 | In every reachable state every reply held by a worker has its entry: stop_pending_event cannot fail. |
| E2Link.QuiescentRicHasNoTimer | src/ric/msg_handler_ric.c:68-86 | With no message under way nothing is pending, and no timer is left but those that threads hold before insertion or after extraction. |
| E2Link.TimersConserve | src/ric/near_ric.c:517-530 | Reporting, looking up and closing timers change neither the pending map nor the balance. |
| E2Link.AtMostOneForwardedDelete | src/ric/near_ric.c:1001-1020 | In runs that do not delete this identifier directly, at most one copy of its delete is under way, whatever else is deleted. |
| E2Flow.GeneratedAreNumbered | src/ric/near_ric.c:1032-1042 | Over every run, forwarded subscriptions included, the i-th request drawn is the one asked for, numbered with the counter value that the draws before it leave. |
| E2Flow.ValuesAreDistinctIff | src/ric/near_ric.c:677-684 | Without forwarded subscriptions the values that reports, controls and forwarded controls take are pairwise distinct if and only if at most 2^32 were taken. |
| E2Flow.NumbersAreConsecutive | src/ric/near_ric.c:839-845 | Over every such run, the numbers of reports and control requests are the consecutive counter values, and two are equal if and only if the values taken from the first to the second are a multiple of 2^32. |
| E2Flow.ForwardedNumberIsReissued | src/ric/near_ric.c:954-962 | A report drawn right after a forwarded subscription gets the same identifier if and only if that has instance 0, the same function and a 16-bit number. |
| E2Flow.LastIsHighest | src/ric/near_ric.c:954-959 | Over every run, the last identifier is the highest number forwarded, or the initial one. |
| E2Flow.TimeoutsAreCounted | src/ric/near_ric.c:517-525 | Over every run, the retry counter is the number of timeouts modulo 4. |
| E2Flow.ChannelIsFifo | src/ric/near_ric.c:740-1063 | Over every run, requests served followed by requests on the wire are the requests sent, in order. |
| E2Flow.OutputIsExact | src/agent/e2_agent.c:571-683 | Over every run, the agent's output is one answer per request served, of its kind and identifier and in order, and one indication per expiry of a subscription timer, in order. |
| E2Flow.NextIndicationGoesLast | src/agent/e2_agent.c:659-678 | In every reachable state a subscription with a timer can indicate, and its indication goes behind everything output before. |
| E2Flow.RequestsAreAccounted | src/ric/near_ric.c:740-1063 | Over every run and per request: drawn or forwarded is waiting or registered, and registered is under way or its answer handled; nothing is lost or invented. |
| E2Flow.ForwardedDeleteIsExact | src/ric/near_ric.c:990-1030 | In every reachable state a forwarded delete brings the copies under way to the larger of 1 and what they were, and leaves every other request alone. |
| E2Rest.LinkCanComeToRest | src/ric/near_ric.c:740-1063 | No deadlock: from every reachable state, finishing steps alone bring everything under way to its end, and then nothing is pending. |
| E2Timers.StepKeepsTimerInv | src/ric/near_ric.c:342-400 | Every step keeps this: a timer no worker has extracted is still open behind its descriptor, and a younger timer on a descriptor has a higher serial number. |
| E2Timers.LookupIsExact | src/ric/near_ric.c:342-361 | Over every run, a lookup finds the reported timer's own entry if and only if that timer has been inserted and no worker has extracted it; an entry of another timer is found only on a reused descriptor. |
| E2Timers.LookupsAreSafeIffNoOverlap | src/ric/near_ric.c:363-400 | Over every run, descriptor reuse included: all reported timers stay findable as themselves until their lookup if and only if no timer is reported before its insertion or after its extraction and no worker extracts a reported timer. |
| E2Timers.StoppedBeforeLookup | src/ric/near_ric.c:357 | A run in which a worker extracts a reported timer, and the lookup fails. |
| E2Timers.ReportedBeforeClose | src/ric/msg_handler_ric.c:75-84 | A run in which a timer is reported between its extraction and its close, and the lookup fails. |
| E2Timers.ReportedBeforeInsertion | src/ric/near_ric.c:755-761 | A run in which a timer is reported before its insertion, and the lookup fails. |
| E2Timers.ReusedBeforeLookup | src/ric/near_ric.c:355-358 | A run in which the lookup succeeds on the timer of another request that was given the closed descriptor. |
| E2Trace.OutputInLanguageIffRequestsAlternate | src/agent/msg_handler_agent.c:161-239 | Over every run the agent's output on an identifier is a prefix of (SubscriptionResponse Indication* DeleteResponse)* if and only if the requests it served alternate. |
| E2Trace.LanguageIsAutomaton | src/agent/msg_handler_agent.c:161-239 | That language is the one of the three-letter automaton. |
| E2Trace.OneTimerWhileActive | src/agent/msg_handler_agent.c:161-239 | While the requests served alternate, an open subscription has exactly one timer and a closed one has none. |
| E2Trace.IndicationIsBracketed | src/agent/e2_agent.c:655-683 | In that language every indication has an earlier response that no delete response has closed. |
| E2Trace.NoIndicationOutsideSubscription | src/agent/e2_agent.c:571-683 | When the requests on the wire alternate, the RIC dequeues no indication before the response and none after the delete response. |
| XApps.FindReturnsIssuedId | src/xApp/act_proc.c:74-130 | Right after registration the registry rebuilds exactly the issued identifier and callback; right after removal it has none. |
| XApps.KindCountInsert | src/xApp/pending_event_xapp.c:95-104 | Inserting adds one event of its kind and of no other. |
| XApps.KindCountExtract | src/xApp/pending_event_xapp.c:167-186 | Extraction shrinks the map by one event of the kind: the size check cannot fail. |
| XApps.E42XApp.constructor | src/xApp/e42_xapp.c:173-252 | Keys start at 1, nothing is registered, pending or queued. |
| XApps.E42XApp.GenerateRicGenId | src/xApp/e42_xapp.c:478-491 | Fails exactly when the key does not fit in 16 bits; otherwise issues the key with instance 0 and the function; the key is registered with the callback and never issued again. |
| XApps.E42XApp.Find | src/xApp/act_proc.c:105-130 | Finds by key and completes the stored identifier. |
| XApps.E42XApp.Remove | src/xApp/act_proc.c:91-103 | Succeeds exactly when the key is registered and removes that entry only. |
| XApps.E42XApp.AddPending | src/xApp/msg_handler_xapp.c:74-83 | Arms a timer and registers its event. |
| XApps.E42XApp.RmPending | src/xApp/pending_event_xapp.c:167-186 | Fails exactly when no event of the kind is pending; otherwise removes one of that kind, whatever its identifier. |
| XApps.E42XApp.OnAnswer | src/xApp/msg_handler_xapp.c:140-163 | Fails exactly when the low 16 bits are 0 or not registered, or no event of the kind is pending; otherwise removes one event of that kind and its timer and leaves registry keys and queue alone. |
| XApps.E42XApp.OnIndication | src/xApp/msg_handler_xapp.c:236-277 | Queues the data with the registered callback, or drops it when the identifier is unknown. |
| XApps.E42XApp.PopDispatch | src/xApp/msg_dispatcher_xapp.c:29-45 | Takes the oldest element of the queue. |
| XAppRuns.StepKeepsInv | src/xApp/msg_handler_xapp.c:511-590 | Every step of any thread keeps, per procedure, pending events and sent-but-unarmed requests equal to outstanding messages and armed-but-unsent requests, and every identifier on the wire genuine. |
| XAppRuns.RegistryGivesBackIssued | src/xApp/act_proc.c:105-130 | Over every run, a key in the registry gives back the identifier and callback issued under it, until it is removed; then nothing. |
| XAppRuns.IssuedAreRegistrations | src/xApp/e42_xapp.c:478-491 | Over every run, the k-th registration is issued number k, instance 0 and its function, with its callback; nothing else is ever issued. |
| XAppRuns.RequestIsIssued | src/xApp/e42_xapp.c:493-515 | From every idle reachable state a subscription (armed, then sent) and a control request (sent, then armed) can be issued: one message and one pending event of its kind, under the next identifier. |
| XAppRuns.DeleteIsIssued | src/xApp/e42_xapp.c:532-555 | Likewise a delete of any registered key, under the identifier issued for it. |
| XAppRuns.WakingFindsItsProcedure | src/xApp/e42_xapp.c:553-554 | The removal that ends a delete or control procedure always finds its entry and removes it alone; a subscription keeps its entry. |
| XAppRuns.SubscriptionResponseIsSafe | src/xApp/msg_handler_xapp.c:140-163 | In every interleaving a subscription response is handled without failure if and only if its identifier is still registered, and it then meets the procedure it was issued for. |
| XAppRuns.AnswerIsSafeOutsideWindow | src/xApp/msg_handler_xapp.c:541-590 | In every interleaving, timed-out waits included, an answer is handled if and only if its identifier is registered and it is not the only answer owed for a request that is sent but not armed. |
| XAppRuns.DeleteAnswerCanBeatItsTimer | src/xApp/msg_handler_xapp.c:553-560 | A run in which a quick delete answer cannot be handled. |
| XAppExtraction.KindExtractionIsExact | src/xApp/pending_event_xapp.c:32-83 | While at most one request per kind is outstanding, whether or not waits time out, extraction by kind and extraction by kind and identifier have the same single result. |
| XAppExtraction.ExtractionsAlikeIffNeverArmedOver | src/xApp/pending_event_xapp.c:68-104 | Over every run, both extractions choose alike for every pending event in every state if and only if no event was armed while another of its kind was pending. |
| XAppExtraction.TimedOutWaitMixesTimers | src/xApp/pending_event_xapp.c:68-83 | A run with a timed-out wait in which the first answer can take the second request's timer. |
| XAppDelivery.DeliveryRefinesFilter | src/xApp/msg_dispatcher_xapp.c:29-72 | Over every run, callbacks invoked followed by the queue are the arrivals registered on arrival, in order, each once, with the callback given at registration. |
| XAppDelivery.ArrivalsAreExact | src/xApp/msg_handler_xapp.c:236-277 | Over every run, arrivals followed by the indications on the channel are those the peer sent, in order; the next one can be handled unless its key is 0. |
| XAppDelivery.DeliveryCompletes | src/xApp/msg_dispatcher_xapp.c:29-45 | From every reachable state the dispatcher alone runs the callbacks of everything queued, and then exactly the expected ones have run. |
| SetupHandshake.GenSetupRequest | src/agent/gen_msg_agent.c:69-112 | Succeeds exactly for a non-empty consistent registry; lists it in order. |
| SetupHandshake.AcceptRanFunc | src/ric/generate_setup_response.c:40-75 | Succeeds exactly when every identifier is known; then accepts all of them in request order. |
| SetupHandshake.GenerateSetupResponse | src/ric/generate_setup_response.c:104-135 | Succeeds exactly for known functions and 1 to 1024 components; echoes the transaction identifier and acknowledges every component in order. |
| SetupHandshake.InitE2Node | src/ric/e2_node.c:29-47 | The record holds the node's identifier and the accepted list. |
| SetupHandshake.CpE2Node | src/ric/e2_node.c:61-80 | The copy equals the record. |
| SetupHandshake.Handshake | src/ric/msg_handler_ric.c:334-341 | End to end: when exactly the handshake succeeds, and that the stored list is the agent's registry in order. |
| NodeRegistry.NodesAreConserved | src/ric/near_ric.c:408-438 | Over every run, the map's nodes are, as a multiset, the listed ones and those whose setup is in progress. |
| NodeRegistry.StaleExactlyAfterRepeatedSetup | src/ric/not_handler_ric.c:23-57 | After its handlers have finished a node's shutdown finds it; it is still listed afterwards if and only if it was registered more than once. |
| NodeRegistry.RegistriesAgree | src/ric/map_e2_node_sockaddr.c:85-139 | With one setup per association, list and map agree in every reachable state and neither has duplicates. |
| NodeRegistry.ShutdownIsExact | src/ric/not_handler_ric.c:23-57 | Then a shutdown has one outcome and no failure: exactly that address's pair and node go, the rest keeps its order. |
| NodeRegistry.AppendKeepsDuplicateFree | src/ric/msg_handler_ric.c:337-341 | Appending keeps the list duplicate-free if and only if the node is not listed. |
| NodeRegistry.RetriedSetupLeavesStaleNode | src/ric/msg_handler_ric.c:299-344 | A run with a repeated setup that leaves the node listed after its shutdown. |
| NodeRegistry.ListKeepsOrder | src/ric/msg_handler_ric.c:337-341 | Over every run, the list holds appended nodes in the order in which their setups finished, with the functions accepted; all of them when there was no shutdown. |
| NodeRegistry.NodeTable.AddSockAddr | src/ric/map_e2_node_sockaddr.c:85-114 | Performs the registering step of the machine and keeps the conservation of nodes; the map is one-to-one afterwards if and only if it was and neither node nor address was in it. |
| NodeRegistry.NodeTable.PushBack | src/ric/msg_handler_ric.c:340-341 | Puts the node at the end of the list, which is the appending step of the machine, and keeps the conservation of nodes; a duplicate-free list stays so if and only if it did not hold the node. |
| NodeRegistry.NodeTable.FindSockAddr | src/ric/map_e2_node_sockaddr.c:141-161 | Fails exactly for an unregistered node; returns an address registered for it, the only one when the map is one-to-one. |
| NodeRegistry.NodeTable.NotificationHandle | src/ric/not_handler_ric.c:23-57 | Performs a shutdown step of the machine for the address, or one of its assertions fails; with a one-to-one map it succeeds if and only if the address is registered and its node listed. |
| PubSub.TableIsExact | src/ric/near_ric.c:85-109 | After any registrations, keys ascend and every function owns exactly the listeners registered for it, each once, in order. |
| PubSub.DefaultsForEveryPlugin | src/ric/near_ric.c:111-134 | Every loaded function gets the three default listeners once, in order; no other function gets an entry. |
| PubSub.DefaultPublishing | src/ric/msg_handler_ric.c:179-203 | For any plugin set an indication of a loaded function notifies its listeners once, in order. |
| PubSub.PublishingIsRightIffFrontAgrees | src/ric/msg_handler_ric.c:192 | Publishing through the front entry is right if and only if the function's listeners are those of the smallest registered function. |
| PubSub.ExtraListenerIsNotNotified | src/ric/msg_handler_ric.c:192 | An input on which it is not. |
| PubSub.PubSubTable.RegisterListener | src/ric/near_ric.c:85-109 | Search, then insert or append, keeping the keys ascending. |
| PubSub.PubSubTable.LoadDefault | src/ric/near_ric.c:111-134 | The loop makes the default registrations in order. |
| PubSub.PubSubTable.Publish | src/ric/msg_handler_ric.c:179-203 | Calls the front entry's listeners in order, or fails when the function has no entry. |
| AgentTable.StepKeepsInv | src/agent/e2_agent_api.c:315-500 | Every step of initialisation, threads and stop keeps the table sound. |
| AgentTable.TableIsSound | src/agent/e2_agent_api.c:315-500 | In every reachable state 0 <= count <= 20, active slots lie below the count, no two serve the same RIC, and active means created or running. |
| AgentTable.StopLeavesNothing | src/agent/e2_agent_api.c:471-500 | A completed stop leaves count 0, no active slot and no live thread. |
| AgentTable.AdmissionIsExact | src/agent/e2_agent_api.c:336-359 | An agent is admitted if and only if fewer than 20 were started since the last stop, no live thread in the whole table serves that RIC, the address is short enough, and agent and thread could be created; the new table is given for every outcome. |
| AgentTable.StopNeverSticks | src/agent/e2_agent_api.c:471-500 | From wherever a stop stands, steps of the stop and of the threads complete it. |
| AgentTable.EndedAgentsFillTheTable | src/agent/e2_agent_api.c:336-341 | Twenty agents that have ended leave a table without threads that refuses every other one. |
| AgentTable.Agents.InitAgentApi | src/agent/e2_agent_api.c:315-469 | The whole initialisation, with its duplicate search, is one step of the machine. |
| AgentTable.Agents.StaticStartAgent | src/agent/e2_agent_api.c:67-76 | A thread's life is its start and end step. |
| AgentTable.Agents.StopAgentApi | src/agent/e2_agent_api.c:471-500 | The stop loop is a run of the machine that ends with count 0 and every active slot below it joined and cleared. |
| GnbIds.DecodeEncode | src/util/conversions.c:115-179 | Every gNB id of 22 to 32 bits comes back, in 3 or 4 bytes with clear padding. |
| GnbIds.EncodeDecode | src/util/conversions.c:115-179 | A string of 22 to 32 bits comes back if and only if its padding is clear. |
| GnbIds.EncodedShortNumber | src/util/conversions.c:135-140 | Three bytes, read as a big-endian number, are the id shifted left by the unused bits. |
| GnbIds.EncodedLongNumber | src/util/conversions.c:141-147 | So are four bytes. |
| GnbIds.DecodedShortNumber | src/util/conversions.c:163-168 | The decoded id is the three-byte big-endian number shifted right by the unused bits. |
| GnbIds.DecodedLongNumber | src/util/conversions.c:169-178 | Likewise for four bytes. |
| GnbIds.NumbersAreSums | src/util/conversions.c:135-168 | The big-endian number weighs the bytes with powers of 256. |
| GnbIds.DomainsAreExact | src/util/conversions.c:125-162 | These theorems cover exactly the ids below 2^(32 - unused) with at most 10 unused bits, and the strings of 22 to 32 bits in 3 or 4 bytes. |
| GnbIds.CpGnbIdToBitString | src/util/conversions.c:115-152 | The byte-by-byte encoder produces the string of those theorems: each byte is the named 8 bits of the id. |
| FixedWidthIds.DecodeEncode3 | src/util/conversions.c:215-243 | 20-, 21- and 18-bit eNB and ng-eNB ids come back, with clear padding. |
| FixedWidthIds.EncodeDecode3 | src/util/conversions.c:342-433 | A three-byte string comes back if and only if its padding is clear. |
| FixedWidthIds.DecodeEncode4 | src/util/conversions.c:182-213 | E-UTRA cell ids and home eNB ids come back, with clear padding. |
| FixedWidthIds.EncodeDecode4 | src/util/conversions.c:247-277 | A four-byte string comes back if and only if its padding is clear. |
| FixedWidthIds.DecodeEncodeNr | src/util/conversions.c:82-113 | An NR cell id below 2^36 is encoded with clear padding and comes back if and only if bit 31 is clear; otherwise the high 32 bits are set as well. |
| FixedWidthIds.DecodedNrIsEncodable | src/util/conversions.c:101-113 | A decoded value is in range if and only if the fourth byte is below 128. |
| FixedWidthIds.EncodeDecodeNr | src/util/conversions.c:82-113 | In range, the string comes back if and only if its padding is clear. |
| FixedWidthIds.AmfRoundTrips | src/util/conversions.c:28-80 | AMF set ids and pointers come back, with clear padding; strings come back if and only if their padding is clear. |
| FixedWidthIds.BitsOfThree | src/util/conversions.c:215-243 | The first byte is the lowest 8 bits of the id, the second the next 8, and the high bits of the third the rest, in both directions. |
| FixedWidthIds.BitsOfFour | src/util/conversions.c:182-213 | Likewise for four bytes: every byte and its bits, in both directions. |
| FixedWidthIds.BitsOfNr | src/util/conversions.c:82-113 | Likewise for the five bytes of an NR cell id; decoding a fourth byte above 127 sets the high 32 bits instead. |
| FixedWidthIds.BitsOfAmf | src/util/conversions.c:28-80 | The first byte of an AMF set id is its high 8 bits, the top of the second its low 2, in both directions. |
| FixedWidthIds.CpToBitString3 | src/util/conversions.c:215-230 | The three-byte encoder as it runs. |
| FixedWidthIds.CpToBitString4 | src/util/conversions.c:182-198 | The four-byte encoder as it runs. |
| FixedWidthIds.CpNrCellIdToBitString | src/util/conversions.c:82-99 | The five-byte encoder as it runs. |
| Shrink.SelectedIsOnePerBucket | xapp_analytics/shrink_database.py:107-119 | Every answer of the query is an earliest row of every non-empty bucket, once, in time order. |
| Shrink.SelectionByIntervals | xapp_analytics/shrink_database.py:107-119 | An interval of one step, counted from the first time stamp, holds a selected row if and only if it holds a row. |
| Shrink.SelectedOfInterval | xapp_analytics/shrink_database.py:107-119 | It holds only one selected row, and no row of the interval is earlier. |
| Shrink.SelectionIsSmall | xapp_analytics/shrink_database.py:100-119 | It has between 1 and floor((max - min) / step) + 1 rows. |
| Shrink.NotMoreThanRows | xapp_analytics/shrink_database.py:107-119 | It never has more rows than the table. |
| Shrink.ShrinkingIsIdempotent | xapp_analytics/shrink_database.py:107-119 | Shrinking a shrunk table with the same step gives the same table. |
| Shrink.SelectionExists | xapp_analytics/shrink_database.py:107-119 | Every table with rows has an answer. |
| Shrink.NegativeStepSameBuckets | xapp_analytics/shrink_database.py:111-112 | With SQL's truncating division a negative step makes the same buckets and distances as its magnitude. |
| Shrink.CopyInChunks | xapp_analytics/shrink_database.py:131-147 | Chunked copying loses, repeats and reorders nothing, and counts right. |
| Shrink.ShrinkDatabase | xapp_analytics/shrink_database.py:99-150 | Fails exactly on the empty table; otherwise the target holds one earliest row per bucket, or, for step 0, one row. |
| ConfFile.TrimIsUnique | src/util/conf_file.c:238-252 | However a string is cut into white space, trimmed middle and white space, the middle is its trimming. |
| ConfFile.TrimCuts | src/util/conf_file.c:238-252 | There is such a cut. |
| ConfFile.Ltrim | src/util/conf_file.c:238-243 | The pointer stops at the first character that is not white space, at the latest at the terminator. |
| ConfFile.Rtrim | src/util/conf_file.c:245-252 | The backward walk never reaches a non-blank character before the string, and trims unless it runs below a blank string. |
| ConfFile.TrimAt | src/util/conf_file.c:425-427 | Left then right trim yield the trimming, and leave everything up to the needle alone. |
| ConfFile.TrimmedValue | src/util/conf_file.c:421-432 | One turn of the line loop yields a value if and only if the line holds the needle; the line is then text without an earlier needle, the needle, white space, the value and white space, and the value is trimmed. |
| ConfFile.SpacesByCode | src/util/conf_file.c:238-252 | White space is the codes 9 to 13 and 32. |
| ConfFile.ValueIsUnique | src/util/conf_file.c:421-432 | Such a cut of a line has only one value. |
| ConfFile.FirstValueMeans | src/util/conf_file.c:421-432 | The value of a file is that of the first line with the needle, or empty when no line has it. |
| ConfFile.CopyToBuffer | src/util/conf_file.c:420-429 | The buffer holds a terminated string if and only if the value is shorter than 24, and then that string is the value. |
| ConfFile.ReadValue | src/util/conf_file.c:421-432 | The value is that of the first line that has one. |
| ConfFile.GetNearRicIp | src/util/conf_file.c:401-442 | With v the value read: the address v if and only if 7 <= |v| < 24 and inet_pton accepts it, exit if and only if |v| < 24 and it is shorter than 7 or refused, an unterminated buffer if and only if |v| = 24, a failed assertion if and only if |v| > 24; a server address given beforehand is returned as it is. |
| ByteArrays.EqByteArray | src/util/byte_array.c:43-59 | Equality of contents. |
| ByteArrays.PatternIsKept | src/util/byte_array.c:61-89 | Characters and bytes agree modulo 256, and each copy undoes the other. |
| ByteArrays.CpStrToBa | src/util/byte_array.c:61-75 | Copies the characters as bytes. |
| ByteArrays.CpBaToStr | src/util/byte_array.c:77-89 | Copies and terminates; what is read back stops at the first zero byte. |
| ByteArrays.StringRoundTrip | src/util/byte_array.c:61-89 | A string copied to bytes and back is the string. |
| ByteArrays.ByteRoundTrip | src/util/byte_array.c:61-89 | A byte array comes back if and only if it holds no zero byte. |
| ByteArrays.CmpStrBa | src/util/byte_array.c:91-111 | The loop computes the signed lexicographic comparison. |
| ByteArrays.LexDecides | src/util/byte_array.c:91-111 | That comparison is decided by the first different position, or by which sequence ends first. |
| ByteArrays.CmpIsZero | src/util/byte_array.c:91-111 | It is 0 if and only if the array is the string's bytes and the string is 7-bit. |
| ByteArrays.CmpAgreesWithByteOrder | src/util/byte_array.c:91-111 | It agrees with the byte order if and only if that order says "smaller" or the deciding characters are 7-bit; on 7-bit strings always. |
| ByteArrays.SevenBitIsExact | src/util/byte_array.c:91-111 | A string compares in byte order with every non-empty array if and only if it is 7-bit. |
| ByteArrays.HighCharacterSortsLow | src/util/byte_array.c:98-101 | An input on which it does not. |

## Left out

- SCTP, epoll, timerfd and socket calls: only sets of open descriptors and FIFO channels remain; which descriptor the kernel hands out and which one is ready are parameters.
- ASN.1 and flatbuffer encoders: encoding is the identity on messages; the failure branch of the agent's setup encoder is kept.
- Payload contents, action lists and the handlers' assertions about them; the agent admits exactly one action.
- Aperiodic indications: all of them share descriptor 0, and that branch ends the process.
- Setup messages are not part of `E2Link`: the agent's setup machine runs against an arbitrary peer in `AgentRuns`.
- Several agents on one RIC and the iApp between RIC and xApps: `E2Link` has one agent, `XAppRuns` an arbitrary peer.
- The xApp's own E42 setup, its retry counter and the timeouts of its event loop.
- On the agent and in the xApp, timer creation and the insertion that follows it are one step, and so are extraction and close: there the thread that looks timers up is the one that extracts them, and timeouts of the xApp are not modelled. In the RIC they are separate steps, except in the forwarded delete, whose creation and insertion share the lock that the lookup takes.
- Timer creation never fails, as the source asserts.
- The rewritten half of a forwarded control identifier is the low one, as on little-endian machines.
- AgentRuns: the agent is alone in its process, so the second close of a fired timer finds it closed; `SecondCloseSparesOtherIff` speaks of several agents.
- The shape of the search trees: a map with several descriptors per key, from which extraction takes any of them.
- Handlers that only assert "Not implemented", and the shutdown and thread killing of free_near_ric.
- Memory ownership, freeing and copying of identifiers; `connection_state`, which nothing reads.
- The fields of near_ric_t are split over the classes `NearRtRic`, `NodeTable` and `PubSubTable`.
- NearRic.NearRtRic.PendingTimeout: does not say whether the expired timer stays readable, because epoll readiness is not modelled.
- PubSub: the repository registers only the default listeners; other registrations model a new caller of the same function.
- AgentTable: the argument assertions of init_agent_api; MAX_RIC_IP_LENGTH is not defined in the repository, so the limit is a parameter.
- AgentTable.Agents.StopAgentApi: runs without interference from other threads, because a method has one thread of control; the interleavings are in the machine.
- DEBUG-only assertions of the node map, which would turn a repeated setup into an abort.
- cp_amf_region_id: a copied byte.
- The NR decoder's `buf[3] << 24` overflows a signed int for bytes above 127; the model takes the wrap-around of two's complement compilers.
- isspace is the C locale's on ASCII; inet_pton is a parameter; a configuration file that cannot be opened ends the program.
- Shrink: time stamps are integers; the SQL schema and index copies.
- IPv4 and MaskedIMEISV macros, PLMN digits, plotting scripts, example xApps and build scripts.
