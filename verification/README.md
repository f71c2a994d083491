# Verified model of the RFID gateway

This project models the parts of the gateway where state, threads or bytes make mistakes easy, and proves
what those parts guarantee. `dafny verify dfyconfig.toml` checks all of it.

## What is modelled

**The submit pipeline** (`internal/gobot/service/service.go`, `internal/gobot/cache/store.go`). Tags come in
from any number of callers; those that belong to a draft are reserved in `queued`, put into a bounded channel,
taken off by workers and submitted to the ERP with retries. There are two views of it, and a proof that they
are one.

- `Pipeline.dfy` is a transition system. Every section under the service mutex, every channel operation,
  every cache call and every submit is a step of its own, with one program counter per caller and per worker,
  and a schedule is any sequence of (thread, step). The loop that collects a replay holds the mutex while it asks
  the cache about one EPC after another. `PipelineSafety.dfy`, `PipelineDrafts.dfy` and `PipelineSeen.dfy` prove
  what holds in every reachable state, for any number of threads, and `PipelineLimits.dfy` what does not, and when.
  `PipelineCounters.dfy` tells each counter by what has happened in the schedule, and `PipelineProgress.dfy` proves
  that without new input every schedule comes to a stand, and that everything is settled then.
- `Service.dfy` is the class with the fields and methods of the gateway's service, run one call at a time. Each
  method's contract gives the whole new state as a function of the old one. `ServiceCalls.dfy` says field by field
  what a call answers and counts, `Replay.dfy` what a replay achieves, and `RecentSeen.dfy` what the TTL window
  holds.
- `Sequential.dfy` proves that each call of the class is what the steps of one thread of the transition
  system do when no other thread moves in between.

**The wire codec** (`internal/protocol/reader18/protocol.go`). `Crc16.dfy` has the bitwise checksum
(CRC-16/MCRF4XX: the register update of FCS-16 in Appendix C.2 of RFC 1662, without its final complement) and
the errors it reveals, `BitPowers.dfy` and `PairErrors.dfy` those in two bits;
`Reader18.dfy` the packets and their check; `Scanner.dfy` and `Streaming.dfy` the resynchronising scanner; and
`InventoryTags.dfy` the nested tag list.

**The inventory runtime** (`sdk/client_inventory_runtime.go`, `sdk/client_inventory_control.go`, fed by
`internal/reader/client.go`). `Inventory.dfy` has the client as a class and its specification,
`InventoryRuns.dfy` what holds over whole runs, in which rounds of the sending goroutine may fall between any two
locked sections of the receiving one; `InventoryFrames.dfy` tells what an answer does by its bytes, and
`InventoryLog.dfy` what goes out by what has gone in. `Antennas.dfy` has the antenna rotation, `Transport.dfy` the
read loop.

**The scan manager** (`internal/gobot/reader/manager.go`). `ScanManager.dfy` is a transition system of Start,
Stop, the scan loops and the inventory runs of their clients. It assumes of an inventory run only that it can
still close its channel once the client is marked as off. `ScanStarts.dfy` proves when a Start lasts, and that a
loop that is not cancelled can always connect.

**The test mode** (`internal/gobot/testmode/manager.go`, `internal/gobot/testmode/parser.go`):
`TestSession.dfy`, `TestSessionRuns.dfy`, and `TestSessionAnswers.dfy`, which tells state and answers by the calls
alone.

**The connect plan** (`internal/tui/update/helpers.go`, `internal/tui/update_connect.go`): `ConnectPlan.dfy`,
`ConnectWalk.dfy`, `Endpoints.dfy`.

Shared by these: `Epcs.dfy` and `EpcLists.dfy` (normal form of EPCs), `Dedup.dfy` (first occurrences),
`Effects.dfy` (steps with events, and runs of them), `Folds.dfy`, `Threads.dfy` (sums over threads),
`Modular.dfy`, `Bytes.dfy`.

## What the proofs found

These are properties that one might expect and that the code does not have, each with the exact condition.

- An EPC can be queued and in flight at once. `PipelineLimits.OverlapBeginsIff` says that this begins exactly when
  a worker locks an EPC that is queued again; `PipelineLimits.OverlapHappens` is a run with one caller and one
  worker.
- A draft can be submitted again after it has left the cache. `PipelineLimits.SubmittedAgainIff` says when: in a
  reachable state in which the EPC is out of the cache, and without any new draft, a successful submit of it can
  still follow exactly when some worker has passed the cache check and not yet tried to lock it, or has it under
  submission. `PipelineLimits.DraftSubmittedTwice` is a run in which two workers do.
- Eager deletion from `recentSeen` loses a sighting exactly when the clock has gone back far enough in between
  (`RecentSeen.LostIff`); with times that never go back it loses nothing.
- Adding drafts replays only EPCs of those drafts exactly when one of them is usable or there is nothing to replay
  (`Replay.OnlyAddedDraftsAreReplayedIff`): a focus without a usable EPC filters nothing, so everything that was
  seen and is a draft is replayed (`Replay.NoUsableDraftReplaysAll`).
- A packet that `BuildCommand` has built passes `VerifyPacket` exactly when its payload has 1 to 251 bytes
  (`Reader18.BuiltPacketVerifiesIff`): five-byte packets without payload are below the minimum of the check,
  and a longer payload overflows the length byte.
- The frame scanner can keep bytes that no continuation can turn into a packet. `Streaming.WaitsInVainIff` says
  exactly which: fewer than six bytes that begin with a length byte below 5 (`Streaming.ShortNoiseIsKept`), or a
  packet of which only the high checksum byte is missing while the low one is wrong
  (`Streaming.WrongLowByteIsKept`).
- A failed parse of a tag list is not always reported. `Inventory.FailureIsSilentIff` says that nothing is said
  exactly when the payload ends behind the EPC of one of the announced tags, and `Inventory.LoneTagWithoutRssiIsLost`
  is such an answer: the text of the error for a missing RSSI byte has neither of the words that the client looks for.
- The checksum misses an error in two bits exactly when they are a multiple of 32767 bits apart
  (`PairErrors.PairUnnoticedIff`); no packet is that long (`Reader18.PairErrorRejected`).
- A connect plan is not cleared when every connect has failed: `retryNextConnect` clears it only in its own copy
  of the model, which `onConnectFinished` discards. `ConnectWalk.PlanIsKeptIff` says that a plan is still shown,
  with no connect under way, exactly when it is not empty and each of its endpoints has failed;
  `ConnectWalk.LonePlanIsKept` is a plan of one endpoint.
- A Start of the scan manager that comes while a Stop is under way is lost, without an error:
  `ScanStarts.StartIsLostIff` says that this is exactly when the manager is running without a cancel function, and
  `ScanStarts.StartLastsIff` exactly when a Start leaves a loop that lasts; `ScanStarts.StartDuringStop` is a run.
- The second "no valid EPC" error of `LoadFile` cannot occur, since normalizing twice is normalizing once
  (`TestSession.Manager.LoadFile`, `Epcs.NormalizeIsIdempotent`).

## Model

| member | source | states |
|---|---|---|
| PipelineSafety.AlwaysInvariant | internal/gobot/service/service.go:302-418 | The channel bound, token ownership, lock ownership, the ledger and the submit effort hold in every state that any schedule of any number of callers and workers reaches. |
| PipelineSafety.TokenOwnership | internal/gobot/service/service.go:302-402 | In every reachable state each EPC in `queued` is held exactly once, by a caller between reservation and send or rollback, by a channel slot, or by a worker between receive and delete; nothing else is held, so the channel has no duplicates. |
| PipelineSafety.QueuedSize | internal/gobot/service/service.go:375-402 | The size of `queued` is the channel's length plus the callers and workers that hold a reservation, hence at most QueueSize plus the number of threads. |
| PipelineSafety.InflightExclusion | internal/gobot/service/service.go:404-418 | `inflight` is exactly the set of EPCs of workers between lock and unlock, no two of which have the same EPC; its size is their number. |
| PipelineSafety.LedgerConservation | internal/gobot/service/service.go:198-402 | In every reachable state sends, receives, skips, refusals, acquisitions and all counters balance against the threads that are between two counts. |
| PipelineSafety.SubmitEffort | internal/gobot/service/service.go:332-372 | Each acquisition makes between 1 and SubmitRetry + 1 submit calls; only the last reply can be terminal, and retrying stops at it. |
| PipelineSafety.QuietStateIsSettled | internal/gobot/service/service.go:302-418 | When all threads rest, `queued` is the content of the channel, nothing is in flight, every sent EPC is still in the channel or was skipped, submitted, not found or failed, and every counter is final. |
| PipelineCounters.SubmitCountersAreExact | internal/gobot/service/service.go:341-402 | In every reachable state SubmittedOK, SubmitNotFound and SubmitErrors are the numbers of submits answered with success, answered with not-found, and failed for the last time, less the workers that have yet to count theirs; QueueDropped is the number of sends that found the channel full, less the callers that have yet to count. |
| PipelineCounters.TagCountersAreExact | internal/gobot/service/service.go:198-233 | The same for SeenTotal, ScanInactive, CacheHits and CacheMisses, each with its own outcome of a tag. |
| PipelineCounters.QuietCountersAreFinal | internal/gobot/service/service.go:198-402 | When all threads rest, every counter is the number of times that its outcome has happened. |
| PipelineSafety.MutexIsExclusive | internal/gobot/service/service.go:434-449 | At most one caller at a time is in the loop that collects a replay, which runs under the mutex. |
| PipelineProgress.RunsDown | internal/gobot/service/service.go:302-450 | From any state, the steps of a schedule without input that change anything are bounded by a number that the state determines, whatever the schedule. |
| PipelineProgress.SomethingCanMove | internal/gobot/service/service.go:302-450 | No deadlock: in any reachable state that is not at rest, some thread has a step that changes something, is not an input and stops no worker. |
| PipelineProgress.AtRestIff | internal/gobot/service/service.go:302-450 | In any reachable state, nothing can move without input iff all threads rest and the channel is empty or has no worker left. |
| PipelineProgress.StandIsDrained | internal/gobot/service/service.go:302-450 | A run that has come to a stand with a worker left has settled everything: the channel, `queued` and `inflight` are empty, and what was sent was skipped, submitted, not found or failed. |
| PipelineProgress.AlwaysDrains | internal/gobot/service/service.go:302-450 | From any reachable state with a worker left, some schedule without input gets there. |
| PipelineLimits.OverlapBeginsIff | internal/gobot/service/service.go:385-411 | An EPC comes to be both queued and in flight exactly by a lock taken while it is queued again. |
| PipelineLimits.OverlapHappens | internal/gobot/service/service.go:375-411 | A run of one caller and one worker in which an EPC is queued and in flight at once. |
| PipelineDrafts.OnlyDraftsAreReserved | internal/gobot/service/service.go:198-418 | In any run, only what was in the cache at the start or came in as a draft is ever reserved, sent, received or worked on. |
| PipelineDrafts.SettledStaysOut | internal/gobot/service/service.go:341-355 | Without new drafts, an EPC with a terminal reply is out of the cache before the reply is counted, and the cache never grows. |
| PipelineDrafts.NothingIsReservedWhileOff | internal/gobot/service/service.go:152-217 | As long as nobody switches the scan on, nothing is reserved, sent, submitted or counted as a submit, whatever tags and drafts come in. |
| PipelineDrafts.NoNewSubmitters | internal/gobot/service/service.go:323-336 | Once an EPC is out of the cache and no draft arrives, no worker comes to be about to lock or submit it that was not already. |
| PipelineLimits.SubmittedAgainIff | internal/gobot/service/service.go:319-373 | In any reachable state with the EPC out of the cache: without a new draft, a successful submit of it can still follow iff some worker is between its cache check and its lock, or has it under submission. |
| PipelineLimits.DraftSubmittedTwice | internal/gobot/service/service.go:319-348 | A run of two workers, without any new draft, that submits one draft successfully twice. |
| PipelineSeen.SeenIsWindow | internal/gobot/service/service.go:204-213 | However the threads interleave, `recentSeen` is the TTL window on the sightings and collections in lock order. |
| PipelineSeen.SeenRefinesHistory | internal/gobot/service/service.go:426-458 | If the times in lock order never go back, `recentSeen` is in every interleaving exactly what a full record of last sightings shows as within the TTL. |
| RecentSeen.WindowIsExact | internal/gobot/service/service.go:452-458 | For any times: an EPC is in the window iff nothing after its last sighting came more than the TTL later, and it is stored with the time of that sighting. |
| RecentSeen.WindowRefinesHistory | internal/gobot/service/service.go:452-458 | With a clock that never goes back, deleting eagerly gives the same as filtering the full history now. |
| RecentSeen.LostIff | internal/gobot/service/service.go:452-458 | A sighting that is fresh by the full history is missing from the window iff the clock was further ahead in between by enough to expire it. |
| Service.Service.Enqueue | internal/gobot/service/service.go:375-402 | Accepts iff the EPC is not empty, queued or in flight and a slot is free; appends and reserves it, or counts a drop, or does nothing. |
| Service.Service.GcRecentSeen | internal/gobot/service/service.go:452-458 | Deletes exactly the entries older than the TTL, whatever the order of iteration. |
| Service.Service.HandleEPC | internal/gobot/service/service.go:198-233 | The result and the whole new state for an invalid EPC, an inactive scan, a cache miss, and a hit. |
| ServiceCalls.HandleIsCounted | internal/gobot/service/service.go:198-233 | Exactly one of five outcomes: queued iff the channel has grown by that EPC; and SeenTotal, ScanInactive, CacheHits and CacheMisses each grow by one for their own outcomes and no other. |
| ServiceCalls.HandleReserves | internal/gobot/service/service.go:198-233 | The reservation goes with the channel, and QueueDropped grows by one iff a new draft finds the channel full. |
| Service.Service.CollectReplayCandidates | internal/gobot/service/service.go:426-450 | Returns each EPC that is fresh, a draft and in a non-empty focus exactly once, and nothing else. |
| Service.Service.SetScanActive | internal/gobot/service/service.go:235-264 | Switching on enqueues the whole replay set and returns its size; otherwise only the flag is set. |
| Service.Service.AddDraftEPCs | internal/gobot/service/service.go:179-196 | Adds the cleaned drafts, returns how many were new and the size of the replay set, and enqueues it if the scan is on. |
| Service.Service.RefreshCache | internal/gobot/service/service.go:137-157 | Replaces the cache by what was fetched and replays what has been seen of it. |
| Service.Service.LockInflight | internal/gobot/service/service.go:404-412 | Succeeds iff the EPC was not in flight; it is in flight afterwards. |
| Service.Service.UnlockInflight | internal/gobot/service/service.go:414-418 | Takes the EPC out of `inflight`, and nothing else. |
| Service.LastAttempt | internal/gobot/service/service.go:332-366 | The last attempt is the first with a terminal reply, or else the last one allowed. |
| ServiceCalls.SubmitIsCounted | internal/gobot/service/service.go:319-373 | The attempts end at the first reply that is no failure, or with the retries; the last reply raises its own counter by one and no other, and the EPC leaves the cache unless it is a failure. |
| Service.Service.ProcessSubmit | internal/gobot/service/service.go:319-373 | Skips an EPC that is empty, no draft or in flight; otherwise the number of calls, the counter and the cache follow from the first terminal reply, and `inflight` is as before. |
| Service.Service.WorkerTurn | internal/gobot/service/service.go:302-317 | A turn takes the front of the channel, clears its reservation and processes it. |
| EpcLists.NormalizeEPCList | internal/gobot/service/service.go:474-489 | Returns the first occurrences of the usable normal forms, in order. |
| EpcLists.CleanedIsCanonical | internal/gobot/service/service.go:474-489 | A cleaned list has exactly the non-empty normal forms of its entries, each once. |
| Replay.EnqueuedAllExactly | internal/gobot/service/service.go:259-261 | Enqueuing a list without repetition sends its new EPCs in order as far as there are free slots, and counts exactly the others as dropped. |
| Replay.ReplayIsComplete | internal/gobot/service/service.go:235-264 | After switching the scan on, every fresh draft is queued or in flight except as many as QueueDropped grew by, which is the number of new ones beyond the free slots; the return value is the size of the replay set. |
| Replay.SightingSurvives | internal/gobot/service/service.go:426-450 | With a clock that never goes back, an EPC is in the replay set of a later collection iff it is a draft by then, its last sighting is within the TTL, and it is in focus or the focus has no usable entry. |
| Replay.OnlyAddedDraftsAreReplayedIff | internal/gobot/service/service.go:179-196 | Adding drafts replays only EPCs of those drafts iff one of them is usable or there is nothing to replay. |
| Replay.NoUsableDraftReplaysAll | internal/gobot/service/service.go:179-196 | A list without a usable EPC replays every draft that is fresh. |
| Sequential.EnqueueAlone | internal/gobot/service/service.go:375-402 | The steps of one caller through `enqueue`, undisturbed, do what the sequential `Enqueue` does. |
| Sequential.HandleAlone | internal/gobot/service/service.go:198-233 | The same for `HandleEPC`. |
| Sequential.SwitchOnAlone | internal/gobot/service/service.go:235-264 | The same for switching the scan on, replay loop included. |
| Sequential.SwitchOtherwiseAlone | internal/gobot/service/service.go:235-264 | Switching off, or to what the scan is already, only sets the flag. |
| Sequential.DraftsAlone | internal/gobot/service/service.go:137-157 | The same for new drafts, replacing the cache or added to it. |
| Sequential.TurnAlone | internal/gobot/service/service.go:302-373 | The same for a worker's turn, retry loop included. |
| CacheStore.Store.Replace | internal/gobot/cache/store.go:17-29 | The cache is then the set of the non-empty entries. |
| CacheStore.Store.Add | internal/gobot/cache/store.go:31-47 | Adds the non-empty entries and returns how many were not there, each counted once. |
| CacheStore.Store.Remove | internal/gobot/cache/store.go:49-56 | Takes out that EPC and no other. |
| Epcs.NormalizeEPC | internal/gobot/erp/client.go:151-165 | The loop computes the upper-case hexadecimal digits of its input, in order. |
| Epcs.NormalizeIsIdempotent | internal/gobot/erp/client.go:151-165 | Normal forms are canonical, exactly the canonical strings are their own normal form, and normalizing twice is normalizing once. |
| Epcs.NormalizeOfConcat | internal/gobot/erp/client.go:151-165 | Normalizing goes character by character. |
| Epcs.NormalizeOfChar | internal/gobot/erp/client.go:151-165 | Digits and A to F stay, a to f become capitals, and nothing else is left. |
| Epcs.NormalizeIgnoresCase | internal/gobot/erp/client.go:151-165 | Strings that differ only in case have the same normal form. |
| Crc16.Compute | internal/protocol/reader18/protocol.go:315-328 | The two nested loops compute the fold of the bit step over all bits. |
| Crc16.KnownAnswers | internal/protocol/reader18/protocol_test.go:18-64 | The checksums of five command packets are the known values. |
| Crc16.BitStepKernel | internal/protocol/reader18/protocol.go:319-325 | A step of the register, linear over xor, takes only 0 to 0. |
| Crc16.FoldLinear | internal/protocol/reader18/protocol.go:315-328 | The checksum register is linear over xor in start value and data. |
| Crc16.Residue | internal/protocol/reader18/protocol.go:315-328 | The last two bytes are the checksum of the rest, low byte first, iff the checksum of everything is 0. |
| Crc16.SyndromeDecides | internal/protocol/reader18/protocol.go:315-328 | Two strings of one length have the same checksum iff their difference folds to 0. |
| Crc16.BurstDetected | internal/protocol/reader18/protocol.go:315-328 | Every error within any 16 consecutive bits changes the checksum. |
| Crc16.OddErrorDetected | internal/protocol/reader18/protocol.go:315-328 | Every error in an odd number of bits changes the checksum. |
| BitPowers.PowerIsOneIff | internal/protocol/reader18/protocol.go:319-325 | The register returns to its top bit after n steps iff n is a multiple of 32767. |
| PairErrors.PairUnnoticedIff | internal/protocol/reader18/protocol.go:315-328 | An error in exactly two bits keeps the checksum iff they are a multiple of 32767 bits apart. |
| Reader18.BuildCommand | internal/protocol/reader18/protocol.go:43-52 | Builds length, address, command, payload and trailer, with the length byte wrapping as in the code. |
| Reader18.BuiltPacketLayout | internal/protocol/reader18/protocol.go:43-52 | For every command with at most 251 payload bytes, the empty payload included: the length byte is one less than the size, address, command and payload stand in their places, and the whole checksum is 0. |
| Reader18.KnownPackets | internal/protocol/reader18/protocol_test.go:18-64 | The packets that the repository's tests fix. |
| Reader18.VerifyPacket | internal/protocol/reader18/protocol.go:55-65 | Accepts exactly packets of at least 6 bytes whose length byte and trailer are right. |
| Reader18.VerifiedIffResidueZero | internal/protocol/reader18/protocol.go:55-65 | A packet is valid iff its length fits and its whole checksum is 0. |
| Reader18.BuiltPacketVerifiesIff | internal/protocol/reader18/protocol.go:43-65 | A built packet verifies iff its payload has 1 to 251 bytes. |
| Reader18.DamageUnnoticedIff | internal/protocol/reader18/protocol.go:55-65 | Damage of the same length goes unnoticed iff the length byte survives and the difference folds to 0. |
| Reader18.BurstRejected | internal/protocol/reader18/protocol.go:55-65 | A packet damaged within 16 consecutive bits, trailer included, is rejected. |
| Reader18.AdjacentBytesRejected | internal/protocol/reader18/protocol.go:55-65 | A packet damaged in one byte or two adjacent ones is rejected. |
| Reader18.OddErrorRejected | internal/protocol/reader18/protocol.go:55-65 | A packet with an odd number of flipped bits is rejected. |
| Reader18.PairErrorRejected | internal/protocol/reader18/protocol.go:55-65 | A packet with any two flipped bits is rejected. |
| Reader18.ParseFrames | internal/protocol/reader18/protocol.go:69-120 | The loop yields the frames and the leftover of the scanner's cut. |
| Scanner.CutPartitions | internal/protocol/reader18/protocol.go:69-120 | Accepted packets, skipped bytes and the leftover are the input, in order. |
| Scanner.RestWaits | internal/protocol/reader18/protocol.go:77-119 | The leftover is waiting for more input and has at most 255 bytes; scanning it again changes nothing. |
| Scanner.FramesOfStream | internal/protocol/reader18/protocol.go:69-120 | Parsing a + b is parsing a, and then b behind the leftover of a: the same frames, the same leftover. |
| Streaming.CanStartIff | internal/protocol/reader18/protocol.go:77-119 | On any buffer, some continuation makes a valid packet begin here iff the scanner takes one now or waits, and not in vain. |
| Streaming.WaitsInVainIff | internal/protocol/reader18/protocol.go:77-119 | On any buffer, the scanner waits where no packet can begin iff there are fewer than six bytes and the length byte is below 5, or only the high checksum byte is missing and the low one is wrong. |
| Streaming.ShortNoiseIsKept | internal/protocol/reader18/protocol.go:78-80 | A single byte below 5 is kept, although no packet can begin with it. |
| Streaming.WrongLowByteIsKept | internal/protocol/reader18/protocol.go:87-89 | A packet with a wrong low checksum byte is kept until its last byte arrives. |
| Streaming.ScannerDecides | internal/protocol/reader18/protocol.go:77-119 | On any buffer, the scanner takes, waits or skips, told by whether a valid packet begins, can begin, or cannot begin here. |
| Streaming.CutIsTheGreedyCut | internal/protocol/reader18/protocol.go:69-120 | The scanner's cut is the one and only greedy cut defined without the scanner. |
| Streaming.RoundTrip | internal/protocol/reader18/protocol.go:43-120 | Built packets with payloads of 1 to 251 bytes, followed by any proper prefix of another, parse to those commands in order and leave exactly that prefix. |
| InventoryTags.ParseInventoryG2Tags | internal/protocol/reader18/protocol.go:218-260 | The cursor loop parses entry by entry, and returns an error or the whole list, never a part of it. |
| InventoryTags.PayloadParses | internal/protocol/reader18/protocol.go:218-312 | Encoding any list of up to 255 tags, with any trailing bytes, parses back to those tags. |
| InventoryTags.LoneTagParses | internal/protocol/reader18/protocol.go:218-260 | A payload with one tag, byte by byte, parses to that antenna, EPC and signal strength. |
| InventoryTags.NoTagIsAnnounced | internal/protocol/reader18/protocol.go:218-229 | The empty list is parsed iff an inventory answer announces no tag; only other answers fail as no inventory frame. |
| InventoryTags.AntennaOfMask | internal/protocol/reader18/protocol.go:291-312 | The mask 2^i names antenna i + 1, and a mask with several bits or none is passed on, plus one. |
| InventoryTags.ParsedReencodes | internal/protocol/reader18/protocol.go:218-260 | Whatever parses is a prefix of Data that encodes exactly the announced number of tags. |
| InventoryTags.FailsAtFirstMissing | internal/protocol/reader18/protocol.go:218-260 | Parsing fails at tag t iff t of the announced entries are there and t + 1 are not. |
| InventoryTags.FailsWithMissingRssiIff | internal/protocol/reader18/protocol.go:247-249 | Parsing fails for want of a signal strength iff the payload ends behind the EPC of an announced tag. |
| Transport.ReadLoop | internal/reader/client.go:85-120 | Puts every non-empty read before the first error into the channel as one packet, unless it is full. |
| Transport.PacketsAreReads | internal/reader/client.go:98-119 | A read adds its bytes as one packet behind those before it, unless it is empty, finds the channel full or comes after an error. |
| Transport.DeliveredToEvents | internal/reader/client.go:98-119 | The client does with the packets that found room what it would do with all their bytes at once, whatever was dropped. |
| Transport.SocketToEvents | internal/reader/client.go:98-119 | If the channel is never full, those are all bytes received before the first error. |
| Inventory.InventoryClient.StartInventory | sdk/client_inventory_control.go:46-72 | Refuses if the transport is not connected or the inventory already on; otherwise resets exactly the run state. |
| Inventory.NormalizeChangesLittle | sdk/types.go:89-115 | A configuration is its own normal form iff it is usable; normalizing keeps the enabled ports, the switching and the single-tag rounds. |
| Inventory.InventoryClient.ObserveNoTag | sdk/client_inventory_runtime.go:150-172 | Counts a no-tag status, or flips the target and resets the count at the threshold. |
| Inventory.InventoryClient.RecordTag | sdk/client_inventory_runtime.go:174-202 | Records an EPC and reports it, as new iff it was not seen. |
| Inventory.InventoryClient.HandleInventoryFrame | sdk/client_inventory_runtime.go:113-136 | Events and state for tag lists, count-only answers, errors and no-tag answers. |
| Inventory.InventoryClient.HandleInventorySingleFrame | sdk/client_inventory_runtime.go:138-148 | The same for single-tag answers. |
| Inventory.FailureIsSilentIff | sdk/client_inventory_runtime.go:113-120 | A failed parse produces no event iff the payload ends behind the EPC of an announced tag. |
| Inventory.LoneTagWithoutRssiIsLost | sdk/client_inventory_runtime.go:113-120 | An answer with one tag that ends behind its EPC fails to parse and produces no event. |
| InventoryFrames.ReadingsAreSighted | sdk/client_inventory_runtime.go:113-126 | The payload of any list of readings is recorded tag by tag, in order, each with its antenna, EPC and signal strength. |
| InventoryFrames.NoTagSections | sdk/client_inventory_runtime.go:128-135 | An inventory answer without tags is a count if its status is 0, and otherwise goes to observeNoTag. |
| InventoryFrames.FailureSections | sdk/client_inventory_runtime.go:113-120 | A payload that does not parse is reported with its error, except for a missing RSSI. |
| InventoryFrames.NoTagStatuses | sdk/client_inventory_runtime.go:150-155 | The statuses 1 to 4 and 0xFB, and no others, count as a no-tag answer. |
| InventoryFrames.SingleParsedIff | internal/protocol/reader18/protocol.go:264-289 | A single-tag answer parses to antenna, count and EPC iff its status is 0 or 1 and its payload is laid out from them, with anything behind it. |
| InventoryFrames.SingleIsSighted | sdk/client_inventory_runtime.go:138-148 | A single-tag answer with a tag records it, without a signal strength; one without goes to observeNoTag. |
| InventoryFrames.UnusableSingle | sdk/client_inventory_runtime.go:138-142 | Any other single-tag answer does nothing. |
| InventoryFrames.NoTagAnswersSwitch | sdk/client_inventory_runtime.go:96-172 | From bytes to the target: after k answers without tags, a fresh run has switched its target k / N times, and has k mod N hits. |
| Inventory.InventoryClient.ConsumeFrame | sdk/client_inventory_runtime.go:96-111 | Adopts the reader's address and dispatches on the command. |
| Inventory.InventoryClient.ConsumePacket | sdk/client_inventory_runtime.go:81-94 | Appends, truncates, parses and consumes, as one step on buffer and run state. |
| Inventory.InventoryClient.NextInventoryCommand | sdk/client_inventory_runtime.go:204-232 | The packets of the next round and the new round state, or nothing when the inventory is off. |
| InventoryRuns.ChunksDoNotMatter | sdk/client_inventory_runtime.go:81-94 | Any split of a stream into packets of at most 4096 bytes ends in the same state and leftover, with the same events, as the stream at once; the truncation never happens. |
| InventoryRuns.TruncationKeepsTheEnd | sdk/client_inventory_runtime.go:83-86 | Of more than 8192 bytes, the last 4096 are kept. |
| InventoryRuns.PacketIsItsSections | sdk/client_inventory_runtime.go:81-202 | Consuming a packet is its locked sections one after the other: adopting the address, recording each tag, counting a no-tag answer. |
| InventoryRuns.UniqueTagsAreCounted | sdk/client_inventory_runtime.go:174-202 | In every interleaving of such sections with rounds, uniqueTags = size of `seen` = number of new events, one per distinct EPC, numbered 1, 2, 3, ... |
| InventoryRuns.SwitchingSchedule | sdk/client_inventory_runtime.go:150-172 | From hit count h below N, k no-tag answers with no tag between them, but with any rounds, switch (h + k) / N times, which adds as much to the target's lowest bit, modulo 2, and changes no other; and leave (h + k) mod N hits. |
| InventoryRuns.NoSwitching | sdk/client_inventory_runtime.go:150-172 | With session at most 1 or no threshold, the target never flips. |
| InventoryRuns.HitsStayBelowThreshold | sdk/client_inventory_runtime.go:150-202 | In every interleaving the hit count stays below the threshold when switching is on. |
| InventoryRuns.AntennasRotate | sdk/client_inventory_runtime.go:204-232 | In every interleaving, round j names the port that the rotation gives, and single-tag commands go out every SingleFallbackEach rounds. |
| InventoryRuns.AntennasShareFairly | sdk/client_inventory_runtime.go:204-281 | In every interleaving with n rounds, each of k enabled antennas is named floor(n/k) or ceil(n/k) times, and no other. |
| InventoryLog.CommandsAreInForce | sdk/client_inventory_runtime.go:150-232 | In every interleaving, each inventory command has the configured Q value, session and scan time and the target of the last switch before it, or the configured one; each switch names the other target of the pair; and nothing else is sent but single-tag commands. |
| InventoryLog.RoundSends | sdk/client_inventory_runtime.go:204-232 | After any sections, a round sends one inventory command to the last adopted address, or that of the start, for the port whose turn it is, and a single-tag command iff one is due. |
| InventoryLog.TagsAreReported | sdk/client_inventory_runtime.go:174-202 | In every interleaving, the tag events are the recorded tags in order, each with its source, antenna, signal strength and the number of rounds before it. |
| InventoryLog.TargetFollowsRows | sdk/client_inventory_runtime.go:150-202 | In every interleaving, the target has been switched once for every N answers of every row of no-tag answers, where a tag ends a row; the hit count is the present row modulo N. |
| Antennas.NextInventoryAntenna | sdk/client_inventory_runtime.go:269-281 | For any start, negative ones included, the next enabled port going round, and the start for the next round. |
| Antennas.PortsAreBits | sdk/client_inventory_runtime.go:269-277 | Port i is enabled iff bit i of the mask is set, and by an empty mask iff it is the first. |
| Antennas.SomePortEnabled | sdk/client_inventory_runtime.go:270-280 | The fallback behind the loop is never reached. |
| Antennas.OneTurnEach | sdk/client_inventory_runtime.go:269-281 | Any k consecutive rounds give each of k enabled ports exactly one turn. |
| Antennas.FairShare | sdk/client_inventory_runtime.go:269-281 | Any n consecutive rounds give each of k enabled ports floor(n/k) or ceil(n/k) turns. |
| Antennas.NoTurnForDisabled | sdk/client_inventory_runtime.go:269-281 | A disabled port never gets a turn. |
| ScanManager.AlwaysInvariant | internal/gobot/reader/manager.go:77-110 | The relation between fields, loops and calls of Stop holds in every interleaving. |
| ScanManager.OneLoopAtATime | internal/gobot/reader/manager.go:77-95 | At most one loop is before its finishStopped; `running` holds iff there is one; `m.done` is then its channel, still open; no channel is closed twice. |
| ScanManager.ConnectedImpliesRunning | internal/gobot/reader/manager.go:219-303 | Connected implies Running, and holds iff the running loop is between its two writes. |
| ScanManager.StopReturnsAfterTheLoop | internal/gobot/reader/manager.go:97-110 | A Stop that waited returns only after its loop has run finishStopped and closed its channel; whatever runs then is a later loop. |
| ScanManager.NobodyWaitsInVain | internal/gobot/reader/manager.go:97-110 | The loop that a Stop waits for is cancelled, or about to be by a Stop that holds its cancel function, or past finishStopped. |
| ScanManager.CancelledLoopEnds | internal/gobot/reader/manager.go:192-243 | A cancelled loop and the inventory run of its client move at most thirteen more times, whatever the other threads do. |
| ScanManager.CancelledLoopCanMove | internal/gobot/reader/manager.go:192-243 | In any reachable state, a cancelled loop that has not closed its channel can move itself, unless it waits in StopInventory for an inventory run that has not ended; then that run can. |
| ScanStarts.StartIsLostIff | internal/gobot/reader/manager.go:77-110 | After a Start in any reachable state a loop is running; a Stop already waits for it iff the Start found `running` set and no cancel function; then it changed nothing, and the loop has been or is about to be cancelled. |
| ScanStarts.CanEndIff | internal/gobot/reader/manager.go:97-243 | In any reachable state, a loop can come to its end without a further Start, Stop or outside cancellation iff it has been cancelled or a Stop is about to cancel it. |
| ScanStarts.StartLastsIff | internal/gobot/reader/manager.go:77-110 | The latest loop after a Start can end when left alone iff the Start found a running loop that had been cancelled or was about to be, as it does whenever a Stop has taken the cancel function, or found none and its own context was cancelled. |
| ScanStarts.OutsideCancelEnds | internal/gobot/reader/manager.go:192-206 | Cancelling the context of a Start lets its loop come to its end. |
| ScanStarts.CanConnect | internal/gobot/reader/manager.go:192-243 | In any reachable state, a loop that is not cancelled can come to be connected without anything from outside, after a failed connect or a lost connection too. |
| ScanStarts.StopCanReturn | internal/gobot/reader/manager.go:97-110 | In any reachable state, a Stop that is under way can return without any further call. |
| ScanStarts.RunsEndWithTheConnection | internal/gobot/reader/manager.go:219-229 | If no inventory run goes off by itself, every loop has waited for the run of its last connection before it sleeps, connects again or ends. |
| ScanStarts.StartDuringStop | internal/gobot/reader/manager.go:77-110 | A run: Start, a Stop that takes the cancel function, Start; the only loop can end, and no further one exists. |
| TestSession.ParseEPCFile | internal/gobot/testmode/parser.go:11-50 | The EPCs and all line counts, the two sums included, are those of the line-by-line tally. |
| TestSession.ParsedIsExact | internal/gobot/testmode/parser.go:22-48 | The tally counts all entries, those with an EPC, and has the distinct EPCs in the order of first occurrence. |
| TestSession.CommentsDoNotCount | internal/gobot/testmode/parser.go:22-31 | A blank line or a comment changes nothing, wherever it stands. |
| TestSession.MarkDoesNotCount | internal/gobot/testmode/parser.go:22-31 | Neither does a byte order mark in front of the file. |
| TestSession.EntriesCount | internal/gobot/testmode/parser.go:32-47 | Any other line counts, as valid iff it has a hexadecimal digit, and its EPC is kept iff it is new. |
| TestSession.Manager.RequestFile | internal/gobot/testmode/manager.go:62-72 | Ends any session and waits for a file of that chat. |
| TestSession.Manager.LoadFile | internal/gobot/testmode/manager.go:83-116 | Fails without a usable EPC, changing nothing; otherwise opens a new session that expects exactly the file's EPCs. |
| TestSession.Manager.RecordRead | internal/gobot/testmode/manager.go:118-152 | Matches, counts and reports a read, the first or a repeated one. |
| TestSession.Manager.Stop | internal/gobot/testmode/manager.go:154-184 | Only the owner stops an active test; the result has its totals. |
| TestSessionRuns.RunIsConsistent | internal/gobot/testmode/manager.go:62-184 | Over any run of calls, every answer fits those before it: reads are new at most once per session and numbered 1, 2, 3, ..., and totals are those reported at load. |
| TestSessionRuns.SessionSafety | internal/gobot/testmode/manager.go:40-190 | No session is active while a file is awaited; inactive means that both sets and the file name are empty; read is a subset of expected; what is read and unread adds up to the unique EPCs reported at load. |
| TestSessionRuns.ReportedOnce | internal/gobot/testmode/manager.go:112-115 | No two loads in a run have the same session number with different totals. |
| TestSessionRuns.NeverActiveAgain | internal/gobot/testmode/manager.go:186-190 | A session that is no longer active is never active again. |
| TestSessionRuns.SessionLastsIff | internal/gobot/testmode/manager.go:62-184 | Over any calls, a session stays active iff none of them requests a file, loads a usable one or is a stop by its owner; until then what is read is what was expected and has been presented. |
| TestSessionAnswers.ActiveIff | internal/gobot/testmode/manager.go:62-190 | After any calls, a test is active iff some load has opened a session that no call since has ended; it has the owner, file name and EPCs of that load, and what is read is what was expected and has been presented since. |
| TestSessionAnswers.AwaitsIff | internal/gobot/testmode/manager.go:74-81 | A file is awaited from a chat iff that chat or chat 0 has made the last request, and no file has been loaded since. |
| TestSessionAnswers.ReadWhileOpen | internal/gobot/testmode/manager.go:118-152 | The answer to a tag in an open session, told by the load and the tags presented since: match, first time, owner, counts and session number. |
| TestSessionAnswers.StopWhileOpen | internal/gobot/testmode/manager.go:154-184 | The answer to a stop in an open session, told the same way. |
| TestSessionAnswers.AnswersToFile | internal/gobot/testmode/manager.go:83-116 | The answer to a file is its counts, with the next session number iff it has a usable EPC. |
| ConnectPlan.CandidateConnectOrder | internal/tui/update/helpers.go:55-78 | The loop computes the first occurrences of the preferred index and all indices, in range. |
| ConnectPlan.OrderIsPermutation | internal/tui/update/helpers.go:55-78 | Every index once, the preferred one first if it is in range, the others ascending. |
| ConnectPlan.MergePortOrder | internal/tui/update/helpers.go:80-103 | The loops compute the first occurrences of the positive ports. |
| ConnectPlan.PortsAreExact | internal/tui/update/helpers.go:80-103 | Exactly the positive ports of both lists, each once, the first primary one first. |
| ConnectPlan.BuildConnectPlan | internal/tui/update/helpers.go:20-53 | The loops, with addresses as keys, compute the first occurrences of all offered endpoints. |
| ConnectPlan.PlanIsExhaustive | internal/tui/update/helpers.go:20-53 | The plan has every positive port of own, scanned and usual ports for every candidate with a host, each endpoint once, in the order of first offer. |
| ConnectPlan.PlanIsOrdered | internal/tui/update/helpers.go:20-53 | Of two entries, the earlier one is offered by an earlier candidate, or by the same one at a port that comes earlier among its own, the scanned and the usual ports. |
| ConnectPlan.PreferredIsFirst | internal/tui/update/helpers.go:20-53 | The preferred candidate at its own port is tried first. |
| Endpoints.AddressIsInjective | internal/reader/client.go:18-20 | Two endpoints with the same address are the same. |
| ConnectWalk.Model.BeginConnectPlan | internal/tui/update_connect.go:12-33 | Starts at the first endpoint of the plan, or rests if there is none. |
| ConnectWalk.Model.RetryNextConnect | internal/tui/update_connect.go:35-67 | Returns a copy of the model that goes on to the next endpoint, or one without a plan behind the last; the model itself is unchanged. |
| ConnectWalk.Model.OnConnectFinished | internal/tui/update_main.go:242-257 | A success clears the plan; a failure adopts the copy that goes on, and keeps plan and attempt if there is none. |
| ConnectWalk.FailuresWalkThePlan | internal/tui/update_main.go:242-252 | After k failures exactly the first k + 1 endpoints have been attempted, in order; behind the last one the plan stays at it, with no connect under way. |
| ConnectWalk.ExhaustedWalk | internal/tui/update_connect.go:12-67 | If every connect fails, every entry of the plan is attempted exactly once, in order. |
| ConnectWalk.PlanIsKeptIff | internal/tui/update_main.go:242-257 | Whatever the outcomes, the plan is still there iff it is not empty and no connect has succeeded, and no connect is under way then iff each endpoint has failed. |
| ConnectWalk.LonePlanIsKept | internal/tui/update_main.go:245-252 | A plan of one endpoint is still there when its connect has failed. |
| ConnectWalk.SuccessEndsTheWalk | internal/tui/update_main.go:242-257 | A success after k failures ends the walk; later results start nothing. |

## Left out

- Network, files and messages: HTTP and IPC servers, the Telegram client, the ERP calls themselves (their replies are arbitrary inputs), JSON, logs and notifications.
- Time: timeouts, sleeps and intervals are steps that may happen at any moment; the times of sightings and collections are arbitrary inputs.
- The terminal interface, discovery probing and scoring, region tables, output power and configuration commands.
- Sections under the service mutex that only write display fields (`draftCount`, `lastRefresh`, `CacheSize`), and `removeSeen`, which nothing calls.
- Counters are unbounded; those of the gateway are 64 bits wide.
- Service.Service.RefreshCache: the display fields that it also writes (`draftCount`, `lastRefresh`, `lastErr`, `CacheSize`) and its notifications are left out.
- Inventory.InventoryClient.ConsumePacket: the class runs it in one go; what falls between its locked sections is covered by the interleavings of `InventoryRuns.dfy`, in which an event is logged with the section it belongs to.
- Epcs.NormalizeEPC: strings are sequences of characters, upper case is that of ASCII, and the trimming of white space is omitted; no other character becomes a hexadecimal digit, so what the filter keeps is the same.
- TestSession.ParseEPCFile: takes lines that are already split and trimmed; the line length limit of the line reader is not part of this model.
- Inventory.InventoryClient.RecordTag: EPCs are byte strings and not their hexadecimal text.
- Inventory.InventoryClient.NextInventoryCommand: the polling interval it returns is left out.
- Dropping of tag events when the event channel is full; the events are those that the client produces. Dropping of packets is part of `Transport.ReadLoop`.
- Starting and stopping the inventory of the SDK client as concurrent calls; only the reset of the run state is modelled.
- ScanManager: `RestartCount`, the settings and the tag statistics of the status are left out; connecting succeeds or fails arbitrarily, and closing a client takes no step of its own.
- ConnectWalk.Model.OnConnectFinished: the screen, status line and pending action that follow a connect are left out.
- The other messages that change a connect plan: a disconnect and an empty scan clear it, and a reader error or a probe timeout calls `retryNextConnect` too.
- The rule by which a host with colons is put in brackets is that of the Go library's `net.JoinHostPort`, whose source is not part of this model.
