# EasyTier core: verified models

EasyTier is a mesh VPN written in Rust. This project models the parts of its
core whose correctness rests on an invariant over whole runs, and proves those
invariants for all inputs, all call sequences and all interleavings.

* **Operation broker** - the lifecycle store for asynchronous operations
  (`OperationBroker`, `OperationBrokerRuns`): a class whose methods refine a
  step function on values, and theorems over every sequence of calls. An account
  a caller keeps of its own calls and replies determines the store and every
  further reply (`OperationBrokerLedger`).
* **Token bucket** - a one-line credit law with its waits (`TokenBucket`), the
  rate bound over runs and windows (`TokenBucketRuns`), and the object whose lazy
  saturating refill refines the law, with sleeping callers among others
  (`TokenBucketConsumers`).
* **UDP broadcast relay** - parsing, in-place rewriting and re-checksumming of
  packets (`UdpBroadcast`, with `Checksum` after sections 1 and 2 of RFC 1071
  and `Ipv4Address` for netmask arithmetic), and what it makes of packets encoded
  field by field (`UdpBroadcastFields`). Header layouts follow section 3.1 of
  RFC 791 and RFC 768.
* **Config-server client** - delivery and tracking against stop
  (`ConfigServerHooks`), the events each call owes and sends
  (`ConfigServerEvents`), and start against stop (`ConfigServerLifecycle`).
* **Port-forward admission** - semaphore permits shared by client entries,
  response tasks and forward loops, with eviction, reaper, reload and stop
  (`PortForwardSlots`), which client is evicted (`PortForwardActivity`), the wait
  of an evicting reservation (`PortForwardEviction`), and evictions with a free
  permit (`PortForwardWitness`).
* **Interface-address cache** - single flight, time-to-live and eviction
  (`InterfaceAddrCache`), and how often it collects
  (`InterfaceAddrCollections`).
* **Peer task manager** - the version-plus-notify signal (`PeerTaskSignal`), the
  loop with ending tasks, stop and dropped stops (`PeerTaskLoop`), what a pass
  keeps and replaces (`PeerTaskPasses`), what dropped awaits can lead to
  (`PeerTaskDrops`), and one reconcile pass as a class that refines the loop's
  steps (`PeerTasks`).
* **Metric registry** - handles against the cleanup sweep (`MetricRegistry`), and
  what the registry reports (`MetricHistory`).
* **Tunnel schemes and URLs** - splitting, building and normalizing
  (`TunnelUrl`).

The concurrent components are state machines: `Step` is one atomic step of one
thread (an action that is not enabled changes nothing), `Run` is any schedule,
and the results quantify over all schedules. Clocks, the results of foreign
calls, the order of hash-map iteration and task endings are chosen freely by
the schedule. Mutexes are not poisoned and atomics are sequentially consistent.
Results named "follow schedule" compare the state with an independent reading of
the schedule: a recursive function that folds the moves for one key and looks
only at where the moving thread stands.

Five properties one would expect do not hold of the code. Each has a witness
and the exact condition under which it does hold:

* Eviction of a UDP client "only when no permit is free": a permit can be
  returned between the failed `try_acquire` and the removal
  (`EvictionWithFreePermit`, `EvictsOnlyWhenFullIff`). The wait for a permit
  that follows is nevertheless never stuck (`WaitingReservationIsNotStuck`).
* "No notify is lost": the u64 version wraps (`WrappedVersionLosesNotifies`,
  `ParksOnUnseenIff`).
* "Never two live tasks for one item": a join can be dropped while its task
  runs, with the loop that a stop aborts or with a stop that is itself dropped;
  and a stop dropped while the loop it aborted is still inside a poll leaves that
  loop astray, beside the one of a start that comes before it ends
  (`OneTaskPerItem`, `DroppedJoinCanDuplicate`, `OverlapCanDuplicate`, and a run
  for each case).
* "After a pass the map's keys are the collected peers": the same stray loop
  can add and remove entries beside the current one (`CallsCanOverlap`,
  `PassEndsWithCollectedPeers`, `OverlapCanMissPeers`).
* "A metric touched within three epochs is kept": a touch reads the epoch and
  stores it in two steps (`SlowTouchIsForgotten`, `DroppedIffStampOld`).

The comment on `MetricData` speaks of the last active epoch; the code stores the
epoch read before the store, and the model follows the code.

## Model

| member | source | states |
|---|---|---|
| `OperationBroker.StepKeepsInv` | rust/easytier-core/src/foundation/operation_broker.rs:58-351 | every broker call, with any arguments, keeps: the queue lists exactly the queued ids, each once; metadata is present iff the operation is not a tombstone; a tombstone's token has fired; the store stays within `max_operations` |
| `OperationBroker.NotifyIsTheEmptyEdge` | rust/easytier-core/src/foundation/operation_broker.rs:123-177 | over all calls, the reply is "notify" iff the call takes the completion queue from empty to non-empty |
| `OperationBroker.DrainSplits` | rust/easytier-core/src/foundation/operation_broker.rs:221-248 | `drain(a)` then `drain(b)` reports and leaves exactly what `drain(a + b)` does |
| `OperationBroker.Broker.constructor` | rust/easytier-core/src/foundation/operation_broker.rs:84-92 | a new broker satisfies the invariant, is empty, and issues ids from 1 |
| `OperationBroker.Broker.Admit` | rust/easytier-core/src/foundation/operation_broker.rs:94-116 | refuses at capacity first, then at id exhaustion, changing nothing; otherwise stores a pending operation under a fresh id; the invariant is kept |
| `OperationBroker.Broker.ResolvePendingWith` | rust/easytier-core/src/foundation/operation_broker.rs:139-177 | the remove-and-reinsert code has the effect of one resolve call on the store, and its `expect` cannot fail |
| `OperationBroker.Broker.Free` | rust/easytier-core/src/foundation/operation_broker.rs:179-219 | releases metadata and outcome of a live operation, leaving a tombstone only for a pending one; the three `expect`s cannot fail |
| `OperationBroker.Broker.Drain` | rust/easytier-core/src/foundation/operation_broker.rs:221-248 | the popping loop reports the queue's longest prefix within the limit, in order, with the caller's status; both skip branches are unreachable |
| `OperationBroker.Broker.RequestCancellation` | rust/easytier-core/src/foundation/operation_broker.rs:260-269 | fires the token of a pending operation and of no other, and changes nothing else |
| `OperationBroker.Broker.WithDrained` | rust/easytier-core/src/foundation/operation_broker.rs:271-293 | succeeds iff the operation is drained, is `Missing` iff absent, and always finds the metadata |
| `OperationBroker.Broker.TakeWith` | rust/easytier-core/src/foundation/operation_broker.rs:295-324 | takes a drained operation out, with its metadata, iff the caller's `take` yields a value; on every other path the store is as before |
| `OperationBroker.Broker.InvalidateWaiters` | rust/easytier-core/src/foundation/operation_broker.rs:339-341 | advances the wake generation, wrapping, and keeps the invariant |
| `OperationBroker.Broker.DiscardAll` | rust/easytier-core/src/foundation/operation_broker.rs:343-350 | empties the store and queue, fires every stored token and advances the wake generation; the id counter is untouched |
| `OperationBrokerRuns.RunInv` | rust/easytier-core/src/foundation/operation_broker.rs:58-351 | the three run invariants (ids, hand-outs, completion order) hold after every sequence of calls |
| `OperationBrokerRuns.IdsNeverReused` | rust/easytier-core/src/foundation/operation_broker.rs:94-116 | over any run, `discard_all` included, admitted ids strictly increase, none repeats, and every stored id was admitted |
| `OperationBrokerRuns.DrainsReportCompletionOrderOnce` | rust/easytier-core/src/foundation/operation_broker.rs:139-248 | over any run no id is drained twice, and the drained ids followed by the waiting ones are the completion order with exactly the ids freed or discarded before draining left out |
| `OperationBrokerRuns.MetadataHandedOutOnce` | rust/easytier-core/src/foundation/operation_broker.rs:179-324 | over any run no operation's metadata is handed out twice by `free` and `take_with` together, and what was handed out is no longer stored |
| `OperationBrokerRuns.WaitingCompletionsWereSignalled` | rust/easytier-core/src/foundation/operation_broker.rs:123-252 | in every reachable state with waiting completions, the call that ended the last empty period replied "notify" |
| `OperationBrokerRuns.LateCompletionIsAbsorbed` | rust/easytier-core/src/foundation/operation_broker.rs:139-219 | a freed pending operation keeps its slot until its late completion, which removes it without queueing or signalling; a cancel in between changes nothing |
| `OperationBrokerLedger.LedgerDescribesStore` | rust/easytier-core/src/foundation/operation_broker.rs:58-351 | an account kept only from calls and replies determines, in every run, every stored operation with kind, metadata, outcome and state, every fired token and the wake generation |
| `OperationBrokerLedger.RepliesAreExpected` | rust/easytier-core/src/foundation/operation_broker.rs:94-351 | in every run every reply is the one the account calls for: what is admitted or refused and why, what a drain reports in order, what `free` and `take_with` hand out, whether a cancellation was requested |
| `OperationBrokerLedger.NoOperationIsLost` | rust/easytier-core/src/foundation/operation_broker.rs:94-351 | in every run an admitted operation is stored with its metadata exactly as long as it was neither handed out nor stored at a `discard_all` |
| `OperationBrokerLedger.RefusalChangesNothing` | rust/easytier-core/src/foundation/operation_broker.rs:94-324 | a refused admission, release, access, take or cancellation leaves the whole store unchanged |
| `TokenBucketConsumers.Bucket.FromConfig` | rust/easytier-core/src/foundation/token_bucket.rs:78-92 | zero capacity or rate becomes one; the bucket starts full with no remainder |
| `TokenBucketConsumers.Bucket.Refill` | rust/easytier-core/src/foundation/token_bucket.rs:96-122 | for all u64 rates and capacities and every duration, the saturating u128 code yields the state holding min(capacity * 10^9, credit + rate * elapsed), with the remainder below 10^9 and zero at capacity |
| `TokenBucket.SaturationIsInvisible` | rust/easytier-core/src/foundation/token_bucket.rs:108-122 | whether the bucket fills, and the amount generated when it does not, are the same with saturating and with exact arithmetic |
| `TokenBucket.RefilledCredit` | rust/easytier-core/src/foundation/token_bucket.rs:96-122 | the refilled state is valid, holds exactly the specified credit, and is unchanged when the clock is not ahead |
| `TokenBucket.RefillStepsAgree` | rust/easytier-core/src/foundation/token_bucket.rs:96-122 | refilling at any number of readings, in any order, equals refilling once at the latest |
| `TokenBucket.WaitIsLeast` | rust/easytier-core/src/foundation/token_bucket.rs:167-182 | the computed wait is at least 1 and is the least number of nanoseconds after which the chunk is available: available after n iff n is at least the wait |
| `TokenBucket.SleepSuffices` | rust/easytier-core/src/foundation/token_bucket.rs:167-182 | if the wait fits a u64, the chunk is available after the clamped sleep however late the wake-up |
| `TokenBucket.SleepIsShortest` | rust/easytier-core/src/foundation/token_bucket.rs:167-182 | the clamped sleep is the shortest of at least a millisecond after which the chunk is available |
| `TokenBucket.AttemptIsExact` | rust/easytier-core/src/foundation/token_bucket.rs:128-189 | an attempt leaves exactly the credit of its reading less 10^9 for each token it grants; an oversized one leaves the state alone |
| `TokenBucketConsumers.Bucket.TryConsume` | rust/easytier-core/src/foundation/token_bucket.rs:128-145 | a stopped bucket grants without charging; otherwise the call is one attempt: oversized refused untouched, short refused after refilling, else charged exactly the tokens asked for |
| `TokenBucketConsumers.Bucket.ConsumeChunk` | rust/easytier-core/src/foundation/token_bucket.rs:160-189 | with other callers' requests before any attempt, any wake-up delays and a stop before or after any attempt's check: each attempt comes the computed sleep and the delay after the refused one before it, the last is granted and takes exactly the chunk, unless a check finds the bucket stopped, as the first check after the stop does; terminates once the others have had their turns; alone, after at most one sleep when the clock is not behind and the wait fits a u64 |
| `TokenBucketConsumers.RoundsAreARun` | rust/easytier-core/src/foundation/token_bucket.rs:160-189 | the rounds of one chunk, with the others' turns, are a run of everyone's requests, which grants at least the chunk if the last attempt is granted |
| `TokenBucket.RefusalMakesProgress` | rust/easytier-core/src/foundation/token_bucket.rs:160-189 | a refused attempt leaves the state alone if the clock is not ahead of the last refill, and otherwise strictly more credit, still short of a full bucket |
| `TokenBucket.SecondAttemptSucceeds` | rust/easytier-core/src/foundation/token_bucket.rs:160-189 | after a refusal and the computed sleep the same request is granted if nobody else asks, the clock is not behind and the wait fits a u64 |
| `TokenBucketConsumers.Bucket.Consume` | rust/easytier-core/src/foundation/token_bucket.rs:148-158 | with other callers, delays and a stop anywhere: terminates; the chunks are all of capacity but a smaller last one and sum to the requested total unless the bucket is stopped; all requests together are a run of the bucket that grants at least that sum, exactly it when nobody else asks, and grants, final credit and clipped credit together are initial credit plus rate times elapsed time |
| `TokenBucketConsumers.Bucket.Stop` | rust/easytier-core/src/foundation/token_bucket.rs:191-194 | the bucket is stopped and its credit untouched |
| `TokenBucketRuns.RefusedIffShort` | rust/easytier-core/src/foundation/token_bucket.rs:128-145 | an attempt is refused iff the request exceeds capacity or the credit at that reading |
| `TokenBucketRuns.GrantsAreExact` | rust/easytier-core/src/foundation/token_bucket.rs:96-189 | over any run of attempts with any clock readings, tokens granted * 10^9, final credit and the credit clipped at capacity are together exactly initial credit plus rate * elapsed |
| `TokenBucketRuns.GrantsAreCovered` | rust/easytier-core/src/foundation/token_bucket.rs:96-189 | hence tokens granted * 10^9 plus final credit never exceed initial credit plus rate * elapsed |
| `TokenBucketRuns.EarlyRefillIsInvisible` | rust/easytier-core/src/foundation/token_bucket.rs:96-145 | refilling before all readings of a run changes none of its grants |
| `TokenBucketRuns.WindowRateBound` | rust/easytier-core/src/foundation/token_bucket.rs:96-189 | any attempts whose readings lie in a window, in any order, are granted at most capacity plus rate * window |
| `Ipv4Address.NetmaskParsesIffContiguous` | rust/easytier-core/src/gateway/udp_broadcast.rs:208-217 | a netmask parses to a prefix iff it is that many leading ones followed by zeros |
| `Ipv4Address.DirectedBroadcastIsLargest` | rust/easytier-core/src/gateway/udp_broadcast.rs:219-230 | for every prefix up to 32 the directed broadcast is in the address's subnet and no address of the subnet is larger |
| `UdpBroadcast.ObservationYieldsInterfaceIff` | rust/easytier-core/src/gateway/udp_broadcast.rs:24-50 | a contiguous-mask observation yields an interface iff the address is usable, not the virtual one and the prefix is at most 30; its broadcast is the last address of the subnet |
| `UdpBroadcast.Eligible` | rust/easytier-core/src/gateway/udp_broadcast.rs:68-82 | the interfaces kept are those not on the virtual address, each once |
| `UdpBroadcastFields.EligiblePrefix` | rust/easytier-core/src/gateway/udp_broadcast.rs:68-82 | a later interface never changes the order of the earlier ones |
| `UdpBroadcast.NewRelayConfig` | rust/easytier-core/src/gateway/udp_broadcast.rs:68-82 | the loop keeps exactly the interfaces not on the virtual address, each once, in first-occurrence order |
| `UdpBroadcastFields.ObservationOutcome` | rust/easytier-core/src/gateway/udp_broadcast.rs:24-40 | an internal, virtual or maskless observation is passed over; it is an error, naming the mask, iff it is none of these and no prefix length has that mask |
| `UdpBroadcastFields.ClassesByOctets` | rust/easytier-core/src/gateway/udp_broadcast.rs:204-206 | the ignored address classes in terms of the four octets |
| `Checksum.FoldCombines` | rust/easytier-core/src/gateway/udp_broadcast.rs:289-324 | folding partial sums (pseudo-header, datagram) before adding gives the folded total |
| `Checksum.AllOnesIff` | rust/easytier-core/src/gateway/udp_broadcast.rs:289-324 | a folded sum is all ones, the acceptance test of RFC 1071, iff the sum is a positive multiple of 2^16 - 1 |
| `UdpBroadcast.StoredUdpChecksumVerifies` | rust/easytier-core/src/gateway/udp_broadcast.rs:308-315 | storing the computed UDP checksum makes any datagram, of odd or even length, verify and never reads as "no checksum" |
| `UdpBroadcast.StoredIpv4ChecksumVerifies` | rust/easytier-core/src/gateway/udp_broadcast.rs:317-319 | storing the computed header checksum makes a header with any options verify |
| `UdpBroadcast.NormalizeUdpBroadcastPacket` | rust/easytier-core/src/gateway/udp_broadcast.rs:289-324 | the in-place rewrite of the copied bytes yields the specified packet, and every rejection is passed on |
| `UdpBroadcast.AcceptedPacketIsRewritten` | rust/easytier-core/src/gateway/udp_broadcast.rs:289-324 | an accepted packet keeps its total length and every byte outside addresses and checksums, and carries the virtual source and mapped destination |
| `UdpBroadcast.ChecksumsVerify` | rust/easytier-core/src/gateway/udp_broadcast.rs:289-324 | for every accepted packet the output's own header describes it fully and both its checksums verify |
| `UdpBroadcast.TrailingBytesIgnored` | rust/easytier-core/src/gateway/udp_broadcast.rs:232-324 | an accepted packet's result depends only on its first total-length bytes |
| `UdpBroadcast.SummariesAgree` | rust/easytier-core/src/gateway/udp_broadcast.rs:127-162 | the summary parser accepts input and output, with equal ports and lengths |
| `UdpBroadcast.OutputIsNotRelayedAgain` | rust/easytier-core/src/gateway/udp_broadcast.rs:257-324 | the output fed back under the same configuration is always rejected |
| `UdpBroadcastFields.DestinationOfOutput` | rust/easytier-core/src/gateway/udp_broadcast.rs:98-324 | the output of an accepted packet goes to 255.255.255.255 or the multicast group it was sent to, and otherwise, the destination being some interface's directed broadcast, to the address of the virtual subnet than which none is larger |
| `UdpBroadcastFields.FieldsReadBack` | rust/easytier-core/src/gateway/udp_broadcast.rs:232-256 | read from a header encoded field by field, every accessor gives the field: version, lengths, protocol, fragment flag and offset, addresses |
| `UdpBroadcastFields.EveryHeaderIsEncoded` | rust/easytier-core/src/gateway/udp_broadcast.rs:232-256 | every packet of at least 20 bytes starts with such a header |
| `UdpBroadcastFields.WellFormedByFields` | rust/easytier-core/src/gateway/udp_broadcast.rs:232-287 | an encoded packet with any options is well formed iff it says unfragmented UDP over IPv4 and header, datagram and buffer lengths agree |
| `UdpBroadcastFields.SummaryByFields` | rust/easytier-core/src/gateway/udp_broadcast.rs:127-162 | its summary, given for fragments too, has exactly the encoded addresses, ports and lengths |
| `UdpBroadcastFields.RejectedForFirstDefect` | rust/easytier-core/src/gateway/udp_broadcast.rs:164-287 | a packet is accepted iff it has no defect, and otherwise rejected for the first one in the order of the rejection reasons |
| `ConfigServerHooks.RemovalIsOnce` | rust/easytier-contrib/easytier-ffi/src/config_server.rs:112-118 | a removal returns exactly the requested ids that were tracked, each once, and what it returns plus what stays is what was tracked |
| `ConfigServerHooks.RunKeepsInv` | rust/easytier-contrib/easytier-ffi/src/config_server.rs:112-284 | in every interleaving the delivery lock has the one owner its threads say, and each tracked id is still tracked or was retired once, by one removal or by the stop |
| `ConfigServerHooks.StopQuiets` | rust/easytier-contrib/easytier-ffi/src/config_server.rs:131-143 | the drain leaves no thread between its stopping check and its event; outside a callback it leaves no callback running |
| `ConfigServerHooks.QuietForever` | rust/easytier-contrib/easytier-ffi/src/config_server.rs:112-284 | from a drained state no schedule delivers an event, tracks an id or enters a callback |
| `ConfigServerHooks.NothingAfterStop` | rust/easytier-contrib/easytier-ffi/src/config_server.rs:112-284 | for every schedule before and after `start_stopping`: no further event, tracked set empty, every id ever tracked retired exactly once; outside a callback, none runs afterwards |
| `ConfigServerEvents.EventsAreThoseOwed` | rust/easytier-contrib/easytier-ffi/src/config_server.rs:152-284 | in every interleaving a thread sends the events its calls owe, a run event per validated instance and a delete event per tracked instance removed, each once and in order; with a callback all of them until the stop and none after, without one none |
| `ConfigServerEvents.TrackedFollowsSchedule` | rust/easytier-contrib/easytier-ffi/src/config_server.rs:112-284 | in every interleaving an id is tracked iff the schedule inserted it and no removal, failed validation or stop came since |
| `ConfigServerEvents.PostRunDelivers` | rust/easytier-contrib/easytier-ffi/src/config_server.rs:227-258 | undisturbed, `post_run` tracks the instance and delivers its run event |
| `ConfigServerEvents.RefusedRunDoesNothing` | rust/easytier-contrib/easytier-ffi/src/config_server.rs:227-243 | for an instance not found, or once stopped, it tracks and delivers nothing |
| `ConfigServerEvents.PostRemoveDelivers` | rust/easytier-contrib/easytier-ffi/src/config_server.rs:260-271 | undisturbed, `post_remove` untracks exactly the requested ids and delivers one delete event for each that was tracked, in order |
| `ConfigServerEvents.StopDrains` | rust/easytier-contrib/easytier-ffi/src/config_server.rs:131-143 | undisturbed, `start_stopping` sets the flag, untracks everything and delivers nothing |
| `ConfigServerLifecycle.RunKeepsInv` | rust/easytier-contrib/easytier-ffi/src/config_server.rs:367-473 | the invariant tying slot, flags, lock and every caller's position holds in every interleaving of start and stop calls |
| `ConfigServerLifecycle.FlagsAgreeWithSlot` | rust/easytier-contrib/easytier-ffi/src/config_server.rs:367-473 | a client stored or being started is ACTIVE, so no late store of false hits a newer start; a stop past its swap has STOPPING set, is the only one, and excludes a running start |
| `ConfigServerLifecycle.StopRemovesTheClientItDrained` | rust/easytier-contrib/easytier-ffi/src/config_server.rs:441-460 | a stop takes out the very client whose hooks it drained; over the run each client is taken out at most once, in start order |
| `ConfigServerLifecycle.FlagsAreExact` | rust/easytier-contrib/easytier-ffi/src/config_server.rs:367-473 | in every interleaving STOPPING is set iff some stop tears a client down; whenever no call is under way it is clear, the lock is free, and ACTIVE is set iff a client is stored |
| `ConfigServerLifecycle.StartStoresClient` | rust/easytier-contrib/easytier-ffi/src/config_server.rs:367-425 | undisturbed, a start stores a new client and sets ACTIVE; if the client does not run, the slot stays empty and ACTIVE is cleared |
| `ConfigServerLifecycle.RefusedStartDoesNothing` | rust/easytier-contrib/easytier-ffi/src/config_server.rs:367-395 | a start that finds a client, a stop under way or the data plane in use changes nothing |
| `ConfigServerLifecycle.StopClears` | rust/easytier-contrib/easytier-ffi/src/config_server.rs:427-473 | undisturbed, a stop drains the client's hooks, empties the slot and clears both flags |
| `ConfigServerLifecycle.StopWithoutClient` | rust/easytier-contrib/easytier-ffi/src/config_server.rs:427-447 | a stop that finds no client clears ACTIVE; one that finds a stop under way changes nothing |
| `PortForwardSlots.RunKeepsInv` | rust/easytier-core/src/gateway/port_forward.rs:306-574 | permit accounting, distinct permits of entries, and every loop's admission and eviction facts hold in every interleaving |
| `PortForwardSlots.StepKeepsPermits` | rust/easytier-core/src/gateway/port_forward.rs:345-449 | every step of loops, reaper, reload, stop and ending tasks keeps free plus live permits constant, a permit being live exactly while something refers to it |
| `PortForwardSlots.ClientsWithinCapacity` | rust/easytier-core/src/gateway/port_forward.rs:345-574 | in every reachable state free plus live permits equal the semaphore's size, and there are never more client entries than permits |
| `PortForwardSlots.AtMost256Clients` | rust/easytier-core/src/gateway/port_forward.rs:48-48 | the client map never holds more than 256 entries |
| `PortForwardSlots.AtMostOneEviction` | rust/easytier-core/src/gateway/port_forward.rs:553-573 | a reservation evicts at most one client over its whole course |
| `PortForwardSlots.EvictionIsExclusive` | rust/easytier-core/src/gateway/port_forward.rs:537-574 | when a client is evicted no other loop is between admission and publication of its response task |
| `PortForwardSlots.EvictsOnlyWhenFullIff` | rust/easytier-core/src/gateway/port_forward.rs:553-573 | an eviction finds no permit free iff none was returned since the reservation's failed `try_acquire` |
| `PortForwardActivity.ClientsFollowSchedule` | rust/easytier-core/src/gateway/port_forward.rs:345-449 | in every interleaving the client map is the one read off the schedule: each client with the permit of its publication and, as last activity, its publication or the latest stamp by a loop that has it, a stamp meant for an earlier client of the key not counting; gone with its eviction or removal |
| `PortForwardActivity.ChoosesLeastRecentlyActive` | rust/easytier-core/src/gateway/port_forward.rs:553-561 | in every interleaving a loop that finds no permit chooses a client than which none was active less recently at that moment |
| `PortForwardActivity.FindsClientUnlessNone` | rust/easytier-core/src/gateway/port_forward.rs:553-561 | it finds one unless there is no client at all, and then gives up and lets admission go |
| `PortForwardActivity.PacketFindsClient` | rust/easytier-core/src/gateway/port_forward.rs:345-372 | a packet of a known client goes out under that client's permit; only for an unknown one a flow is opened |
| `PortForwardActivity.HandlesFollowSchedule` | rust/easytier-core/src/gateway/port_forward.rs:391-449 | in every interleaving the kept task handles are those the schedule leaves: of the task last started for a key, until an eviction, the reaper, a reload or the stop drops it |
| `PortForwardActivity.GivenUpHoldsNothing` | rust/easytier-core/src/gateway/port_forward.rs:334-428 | a loop cancelled at an await, or whose flow does not open, holds no admission and no permit |
| `PortForwardWitness.EvictionWithFreePermit` | rust/easytier-core/src/gateway/port_forward.rs:553-573 | for every semaphore size: a run exists in which a client is evicted although a permit is free iff there are at least two permits, so also for the 256 of the code |
| `PortForwardEviction.RunKeepsKeyInv` | rust/easytier-core/src/gateway/port_forward.rs:345-574 | in every interleaving a client's entry and the handle of its task are under the same key, and an evicted permit has neither entry nor handle |
| `PortForwardEviction.EvictedPermitHolders` | rust/easytier-core/src/gateway/port_forward.rs:561-571 | what still holds the permit of an evicted client while its reservation waits is aborted response tasks and loops that are about to send or sending; none has or wants admission |
| `PortForwardEviction.WaitersOnlyShrink` | rust/easytier-core/src/gateway/port_forward.rs:345-574 | no step of any loop or of the reaper, reload or stop adds a reference to an evicted permit |
| `PortForwardEviction.FreeOnceWaitersAreGone` | rust/easytier-core/src/gateway/port_forward.rs:567-571 | in every schedule, once no task and no loop refers to the evicted permit any more, a permit is free for the waiting reservation |
| `PortForwardEviction.WaitingReservationIsNotStuck` | rust/easytier-core/src/gateway/port_forward.rs:567-571 | from every reachable state in which a reservation waits for a permit while holding admission, aborted tasks being dropped and sends finishing, and nothing else, lead to a state in which it takes one |
| `InterfaceAddrCache.RunKeepsInv` | rust/easytier-core/src/connectivity/composite.rs:55-100 | table, lock, cache and reply invariants hold in every interleaving of calls, cancellations and the clock |
| `InterfaceAddrCache.SingleFlight` | rust/easytier-core/src/connectivity/composite.rs:55-100 | one entry per context, and at most one collection in flight per context |
| `InterfaceAddrCache.HeldEntryIsNotEvicted` | rust/easytier-core/src/connectivity/composite.rs:60-83 | no lookup removes an entry another call holds |
| `InterfaceAddrCache.EvictedIffStaleAndUnheld` | rust/easytier-core/src/connectivity/composite.rs:62-72 | a lookup removes an entry iff no call holds it and its value is missing or has reached the time-to-live; the failed `try_lock` case never decides |
| `InterfaceAddrCache.ReturnsAreFreshAndOwn` | rust/easytier-core/src/connectivity/composite.rs:85-99 | every response returned was collected for the caller's context, by this call or less than the time-to-live before |
| `InterfaceAddrCollections.CollectsOncePerTtl` | rust/easytier-core/src/connectivity/composite.rs:55-100 | in every interleaving a call collects for a context only if no collection for it was finished less than the time-to-live ago, so two of them finish at least that far apart |
| `InterfaceAddrCollections.ReturnsLatestCollection` | rust/easytier-core/src/connectivity/composite.rs:85-99 | every response returned is that of a collection for its context, and no later one was finished by then |
| `InterfaceAddrCollections.EndedCallHasReturned` | rust/easytier-core/src/connectivity/composite.rs:85-99 | a call that ends without being cancelled has returned exactly once, for its own context |
| `PeerTaskSignal.NoNotifyLost` | rust/easytier-core/src/foundation/task.rs:156-237 | a loop parked with no wake pending has collected after every finished notify, unless 2^64 or more bumps came between recording and comparing the version |
| `PeerTaskSignal.ParksOnUnseenIff` | rust/easytier-core/src/foundation/task.rs:212-219 | a loop comparing versions parks iff the bumps since it recorded the version are a multiple of 2^64, so on notifies its collection has not seen only after that many; otherwise it collects again |
| `PeerTaskSignal.WakeLeadsToCollection` | rust/easytier-core/src/foundation/task.rs:221-229 | a parked loop that wakes, by a pending wake or its timer, goes on to a collection that begins after every finished notify |
| `PeerTaskSignal.WakePendingIffNotified` | rust/easytier-core/src/foundation/task.rs:212-229 | in every interleaving a wake is pending iff some notify reached its wake since the loop made its future |
| `PeerTaskSignal.VersionIsAsRecorded` | rust/easytier-core/src/foundation/task.rs:156-231 | in every interleaving the version compared is that of the latest start, changed comparison or notified wake, not of a timer's wake |
| `PeerTaskSignal.WrappedVersionLosesNotifies` | rust/easytier-core/src/foundation/task.rs:51-58 | a run exists in which the wrapped version makes the loop park on unseen notifies |
| `PeerTasks.TaskMap.RemoveAndJoin` | rust/easytier-core/src/foundation/task.rs:168-190 | takes out one item and its task, which no longer runs; a missing item changes nothing; the loop's remove, end and join steps |
| `PeerTasks.TaskMap.ChooseRemovals` | rust/easytier-core/src/foundation/task.rs:161-166 | chooses, one look at a time while tasks end: every item not collected, every item whose task had finished before, and of the collected ones none whose task has not ended on its own; the looks are the loop's steps |
| `PeerTasks.TaskMap.RemoveAll` | rust/easytier-core/src/foundation/task.rs:168-190 | removes exactly the chosen items, whatever tasks end meanwhile |
| `PeerTasks.TaskMap.LaunchMissing` | rust/easytier-core/src/foundation/task.rs:192-208 | reaches the end of the pass; entries that were there keep their task and every other key gets a task launched in the pass |
| `PeerTasks.TaskMap.Reconcile` | rust/easytier-core/src/foundation/task.rs:158-210 | whatever tasks end meanwhile, the loops of a pass are a run of the loop's steps from a collection to the wait; the keys are then exactly the collected items; a task that had finished before is replaced by a new one, a collected item's task is kept unless it had finished or ended on its own, and every running task that is no orphan is the one its item maps to |
| `PeerTaskLoop.RunKeepsInv` | rust/easytier-core/src/foundation/task.rs:115-210 | in every run, with stops dropped at any await, until a call is made beside a stray loop (one still inside a poll whose stop was dropped): every running task is in the map, being joined, or was orphaned by a dropped join |
| `PeerTaskLoop.PassEndsWithCollectedPeers` | rust/easytier-core/src/foundation/task.rs:158-210 | in every run in which no start or stop is called beside a stray loop, whatever tasks end and whatever stops are dropped: after every pass the map's keys are exactly the collected peers |
| `PeerTaskLoop.OneTaskPerItem` | rust/easytier-core/src/foundation/task.rs:129-210 | in every run in which no call is made beside a stray loop and no join is dropped while its task runs, no item has two running tasks |
| `PeerTaskLoop.StopJoinsEveryTask` | rust/easytier-core/src/foundation/task.rs:129-148 | under the same condition a stop that runs to its end leaves an empty map and no running task |
| `PeerTaskLoop.LoopRunKeepsInv` | rust/easytier-core/src/foundation/task.rs:150-210 | a single loop keeps the same facts through any of its steps and ending tasks |
| `PeerTaskPasses.PassReconciles` | rust/easytier-core/src/foundation/task.rs:158-210 | in every run in which no call is made beside a stray loop, after every pass: the keys are the peers the pass collected; an item keeps the task it had unless the pass found it finished, and gets one launched in the pass otherwise; a task that had ended before the pass was found finished; and a task that does not run ended during the pass |
| `PeerTaskPasses.LoopRunReconciles` | rust/easytier-core/src/foundation/task.rs:158-210 | the same for any steps of one loop with ending tasks, from a collection to a wait |
| `PeerTaskDrops.DroppedJoinCanDuplicate` | rust/easytier-core/src/foundation/task.rs:129-148 | conversely every run that drops the join of a running task, with the aborted loop or with the stop, extends to one in which that task and another run for the joined item |
| `PeerTaskDrops.OverlapCanDuplicate` | rust/easytier-core/src/foundation/task.rs:115-134 | and every run in which start or stop is called beside a stray loop extends to one in which any given item has two running tasks |
| `PeerTaskDrops.OverlapCanMissPeers` | rust/easytier-core/src/foundation/task.rs:115-210 | as it does to one in which the current loop has ended a pass that collected nobody with any given item in the map |
| `PeerTaskDrops.SuspendedJoinCanBeDropped` | rust/easytier-core/src/foundation/task.rs:129-134 | a run exists in which a stop aborts a loop suspended in the join of a running task |
| `PeerTaskDrops.PolledJoinCanBeDropped` | rust/easytier-core/src/foundation/task.rs:129-134 | a run exists in which an aborted loop inside a poll ends in the join of a running task |
| `PeerTaskDrops.StrayJoinCanBeDropped` | rust/easytier-core/src/foundation/task.rs:129-134 | a run exists in which a stray loop does |
| `PeerTaskDrops.StopJoinCanBeDropped` | rust/easytier-core/src/foundation/task.rs:140-145 | a run exists in which a stop is dropped while it joins a running task |
| `PeerTaskDrops.CallsCanOverlap` | rust/easytier-core/src/foundation/task.rs:115-134 | a run exists in which start, and one in which stop, is called beside a stray loop |
| `TunnelUrl.BuildInjective` | rust/easytier-proto/src/common.rs:307-324 | a scheme string has at most one decomposition into legal prefix, known scheme and suffix |
| `TunnelUrl.SplitInvertsBuild` | rust/easytier-proto/src/common.rs:307-324 | splitting recovers all three parts of every scheme string built from a legal prefix, a known scheme and an optional suffix |
| `TunnelUrl.BuildInvertsSplit` | rust/easytier-proto/src/common.rs:307-324 | whatever splits was built from the returned legal parts |
| `TunnelUrl.SchemeNormalizes` | rust/easytier-proto/src/common.rs:326-330 | normalizing a tunnel scheme keeps prefix and scheme and has the suffix iff it had it or the endpoint is IPv6 |
| `TunnelUrl.SchemeNormalizesIff` | rust/easytier-proto/src/common.rs:307-330 | a string normalizes iff it is a legal prefix, a known scheme and an optional suffix |
| `TunnelUrl.ParseInvertsDecimal` | rust/easytier-proto/src/common.rs:345-355 | a formatted port parses back to itself |
| `TunnelUrl.PortNormalizes` | rust/easytier-proto/src/common.rs:345-355 | a formatted port normalizes to itself; with a 6 behind it, to the longer number if that is a port, else to itself for IPv6 and to nothing otherwise |
| `TunnelUrl.BracketedNormalizes` | rust/easytier-proto/src/common.rs:357-371 | a bracketed URL of any tunnel scheme becomes the canonical one with the suffix, its host and the port its tail means, and is refused iff the tail means nothing |
| `TunnelUrl.NormalizedHasParts` | rust/easytier-proto/src/common.rs:357-371 | conversely only such URLs normalize |
| `TunnelUrl.RenderedIsFixed` | rust/easytier-proto/src/common.rs:357-371 | a canonical bracketed URL with a suffixed scheme normalizes to itself |
| `TunnelUrl.NormalizeBracketedIdempotent` | rust/easytier-proto/src/common.rs:357-371 | normalizing any bracketed URL twice gives the same string as once |
| `MetricRegistry.RunKeepsInv` | rust/easytier-core/src/foundation/stats.rs:574-768 | sharing and stamp invariants hold in every interleaving of handles and sweeps |
| `MetricRegistry.HandlesShareOneCounter` | rust/easytier-core/src/foundation/stats.rs:758-768 | all live handles of a key share one counter, the one the registry reports |
| `MetricHistory.CountersFollowSchedule` | rust/easytier-core/src/foundation/stats.rs:513-768 | in every interleaving the registry has exactly the counters the schedule leaves; each reports the saturating sum of everything added since it was created or last set, and is stamped with the epoch current when the touch stored last read it |
| `MetricHistory.HandlesReadCurrentEpoch` | rust/easytier-core/src/foundation/stats.rs:584-588 | a handle between its read and its store holds the epoch current at the read |
| `MetricHistory.SweepForgetsIff` | rust/easytier-core/src/foundation/stats.rs:595-602 | a sweep drops a counter iff nobody holds a handle of its key and the epoch is more than three above its stamp, all told from the schedule |
| `MetricHistory.HandlesFollowSchedule` | rust/easytier-core/src/foundation/stats.rs:634-768 | in every interleaving the live handles are those given out and not dropped, a clone's for the key of its original, and none is dropped during an update |
| `MetricRegistry.SweepSparesHeldAndRecent` | rust/easytier-core/src/foundation/stats.rs:595-602 | a dropped metric has no live handle and a stamp read more than three epochs ago, wrap-around included |
| `MetricRegistry.PromptTouchProtects` | rust/easytier-core/src/foundation/stats.rs:584-602 | a touch stored in the epoch it read protects its metric for three epochs |
| `MetricRegistry.DroppedIffStampOld` | rust/easytier-core/src/foundation/stats.rs:584-602 | an unheld metric is dropped iff the epoch is more than three above its stamp as u32 values, whenever the stamp was stored; the counter's wrap included |
| `MetricRegistry.DroppedIffReadLongAgo` | rust/easytier-core/src/foundation/stats.rs:584-602 | without a wrap since the stamp was read, that is iff the read is more than three epochs old |
| `MetricRegistry.SlowTouchIsForgotten` | rust/easytier-core/src/foundation/stats.rs:584-588 | a run exists in which a metric is dropped in the epoch its stamp was stored |

## Left out

- DHCP (`gateway/dhcp.rs`): choosing the lowest free host address of a network, keeping a leased one while it stays valid, and writing the choice into the runtime configuration are not covered.
- `LabelSet` ordering, metric snapshots' sort, Prometheus export and `StatsManager::clear`: value-to-value formatting, or outside the runs the registry's promises are about.
- `TokenBucketManager`, the `ByteLimiter` adapter and the broker's read-only queries `pending_kind`, `pending_ids`, `has_completions`: one-line lookups.
- The unbracketed branch of `normalize_tunnel_url` and `infer_tunnel_ipv6`: they depend on the `url` crate's parser.
- PeerTaskLoop.RunKeepsInv: start and stop calls do not overlap each other, a stop being over once it has returned or was dropped; launching a task is one step, so a launcher aborted after spawning but before returning its handle is not modelled; after a call beside a stray loop nothing is promised.
- PeerTaskSignal.NoNotifyLost: stated for a manager with an external signal; without one the loop only sleeps or waits for its own signal.
- ConfigServerLifecycle.RunKeepsInv: waiting for callback delivery before ACTIVE is cleared is not a step, since it changes no flag or slot.
- ConfigServerHooks.RunKeepsInv: data-plane session cleanup and the text of events are not modelled.
- PortForwardSlots.RunKeepsInv: the reaper's ten-minute test and the reload's keep test are replaced by arbitrary removals; the oldest client is found in one step.
- PortForwardActivity.ChoosesLeastRecentlyActive: the stamps are compared at one moment; the code reads them one after the other, so a client that becomes active during the search can still be chosen.
- The concurrent components other than the broker, the bucket, the packet rewrite and the reconcile pass are modelled on values, so update in place and aliasing of shared maps are not captured; `Arc` counts are derived from who holds a reference.
- `MalformedUdp` is a rejection the code never produces; the model omits it.
- smoltcp, cidr and tokio internals: header accessors and checksums follow the RFCs, and mutex, semaphore and notify are atomic primitives.
- TCP forwarding, socket and data-plane input and output, foreign-function pointer handling, the command line, configuration conversion, cryptography and access rules: thin adapters or flat copies.
- Mutex poisoning, weak memory and data races on `UnsafeCounter`.
