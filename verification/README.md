# ZeroFS kernel client: a verified model

This project models the parts of ZeroFS that have to be right under every interleaving: the
native kernel client's session engine (`kernel/client/`), the caches of its VFS layer
(`kernel/vfs.rs`, `kernel/vfs/attributes.rs`) and the two-party commit of the Proxmox deploy
tool (`proxmox/`). `dafny verify dfyconfig.toml` checks all of it.

Each component appears in up to three forms. *Values*: the critical sections as functions.
*Objects*: the code in its own imperative form, fields changed in place and loops with
invariants, each method proved equal to the function it implements. *Machines*: every
interleaving of those critical sections with the events of the network, the server and the
caller, as runs of enabled steps; the promises are theorems about all runs.

| file | what it models |
|---|---|
| `durability.dfy`, `fsync_protocol.dfy`, `fsync_discharge.dfy`, `fsync_exact.dfy`, `fsync_exhaustion.dfy` | what fsync may answer across failovers |
| `tag_space.dfy`, `tag_table.dfy`, `tag_accounting.dfy`, `tag_safety.dfy`, `tag_theorems.dfy`, `tag_leaks.dfy`, `tag_discards.dfy`, `tag_round_trip.dfy`, `tag_session.dfy`, `tag_witness.dfy`, `slot_shards.dfy` | tags, epochs, cancellation, reply credit, read destinations |
| `framing.dfy`, `receiver.dfy` | the stream accumulator and its three delivery paths |
| `tables.dfy`, `lock_ranges.dfy`, `lock_table.dfy`, `lock_registry.dfy` | byte-range lock records and their reservation |
| `fid_registry.dfy`, `fid_lifecycle.dfy` | fid records, interned identities, fid numbers |
| `replay.dfy` | rebuilding a session on a replacement connection |
| `retry.dfy` | operation identity across resends |
| `attributes.dfy`, `hints.dfy`, `dentry_seqlock.dfy` | attribute cache, readdir hints, dentry freshness |
| `deploy_commit.dfy` | the deploy transaction over VM and host |

Sequentially consistent interleavings at lock and atomic granularity are assumed, 64-bit epochs
and generations are unbounded numbers, and the environment is trusted for what the 9P protocol
promises: lineage tokens are nonzero and never decrease, a Tfsyncdur is granted only to a token
that is zero or the connection's own lineage, and the server obeys flush(5) of the Plan 9
Programmer's Manual, section 5. Message sizes, the retry horizon, hash functions and clocks are
parameters.

Where the code and its comments disagree the model follows the code, and where a promise needs a
condition it is stated with it:

- `claim_barrier` is documented the wrong way round at kernel/client/durability.rs:252. In the
  code a returned lineage means adopt, and nothing means issue.
- Adoption does not consult the exhaustion flag, so past 2^64 mutations an fsync that adopts a
  barrier can succeed on a flush older than a mutation it should cover
  (`ExhaustedFsyncCanMislead`). That is the only case: a success by the caller's own barrier, or
  an adopted one for a snapshot taken before exhaustion, is honest (`FsyncIsHonest`).
- An obligation, of an inode or of the mount, older than the live lineage can be discharged,
  exactly when a newer lineage was installed after the discharging caller last bound or sent its
  barrier and before the discharge (`DischargedBehindLive`, `OrphanDischargedBehindLive`). The
  replacement may come after the verdict (`DischargedBehindLiveHappens`) or before the flush is
  even granted (`ReplacedBeforeGrantHappens`).
- The code promises not to throw away a reply that has arrived. It does so exactly when its owner
  finds the connection gone before it has got a control tag, where nobody looks again
  (kernel/client/flush.rs:105-109), or when the owner acts on a look of its own that found the
  request unanswered: the receiver takes only shards, so a reply can be stored between that look
  and the sweep (`ReplyIsDiscardedExactly`, with a run for each way in `tag_witness.dfy`).
- Creating, linking, removing and renaming entries, setattr, fallocate and recording an access time
  fence readdir replies before they drop hints. A data write only drops
  (kernel/vfs/netfs_ops.rs:552 and 571-581), so a readdir begun before it can put the old
  attributes back (`UnfencedDropHappens`); that takes a reply with no fence between its request
  and its recheck (`HintOutlivesDropUnfenced`, `RecheckIsExact`).
- kernel/client/reconnect.rs:161-165 says that no record can change during a replay. A clunk that
  was answered as stale names no connection (kernel/client/ops.rs:877-881), so its caller may
  take a live record and its locks away in the middle of one (`StaleClunkMovesRecords`). Apart
  from what the replay commits itself, nothing else can (`ImageMovesExactly`,
  `RecordsStandStill`, `LocksStandStill`). The object in `replay.dfy` is the replay without such a
  clunk.
- A deploy attempt whose host activation took effect but was reported as failed undoes the VM
  with the host still activated; that is the only case (`HostIsCompensatedFirst`,
  `LostActivationHappens`).

## Model

| member | source | states |
|---|---|---|
| Durability.ObligationTable.Note | kernel/client/durability.rs:179-236 | Recording an acknowledged mutation takes the next stamp, or marks stamps as run out; a named mutation is filed under its inode, replacing a reported lineage and else keeping the smaller, while one without a name, or a new one in a full table, goes to the mount; everything else stays |
| Durability.ObligationTable.Fold | kernel/client/durability.rs:393-403 | A reported orphan is replaced, an unreported one keeps the smaller lineage; its generation never falls |
| Durability.ObligationTable.Snapshot | kernel/client/durability.rs:327-344 | The token is the least lineage owed by the mount or by an inode the scope reaches, each named by inode and not by the scan, and zero exactly when nothing is owed; the snapshot is the current stamp |
| Durability.TokenIsLeastOwed | kernel/client/durability.rs:327-344 | For every ledger and scope the token is one of the lineages owed and no greater than any, or zero if none is owed |
| Durability.OldestCovered | kernel/client/durability.rs:332-337 | A lower bound of all covered lineages that one of them attains |
| Durability.ObligationTable.ClaimBarrier | kernel/client/durability.rs:256-295 | One locked pass adopts a finished barrier if and only if it is of the same connection and reaches the snapshot, else waits if and only if one in flight is, else becomes the issuer; a timed-out wait always issues |
| Durability.ObligationTable.Finish | kernel/client/durability.rs:305-325 | A success on the connection it was claimed for leaves a finished barrier there that reaches its snapshot; nothing else is published, and no published snapshot falls |
| Durability.ObligationTable.Clear | kernel/client/durability.rs:351-363 | Exactly the entries of inodes in scope at or below the snapshot go, and the mount's obligation by its generation; nothing once stamps ran out |
| Durability.ObligationTable.Report | kernel/client/durability.rs:372-385 | Exactly those obligations become reported, and no lineage, stamp or entry changes |
| Durability.Retained | kernel/client/durability.rs:356-358 | What `retain` keeps is the entries no barrier answered, and only those |
| Durability.RetainedDistinct | kernel/client/durability.rs:351-363 | Discharging keeps one entry per inode |
| FsyncProtocol.StepKeepsInv | kernel/client/durability.rs:93-152 | Every critical section and server event keeps the invariant that each acknowledged mutation is verified, answered, or still held by an obligation whose lineage is no newer than its own |
| FsyncProtocol.RunKeepsInv | kernel/client/durability.rs:93-403 | That invariant holds throughout every run, past exhaustion too |
| FsyncProtocol.FsyncIsHonest | kernel/client/durability.rs:93-152 | When an fsync has succeeded, by its own barrier at any time or by an adopted one if its snapshot was taken before stamps ran out, every covered mutation acknowledged before it began was already answered with ESTALE, or a granted flush under that mutation's own lineage was sent after its acknowledgement |
| FsyncProtocol.SnapshotIsEverything | kernel/client/durability.rs:327-344 | The snapshot is every mutation acknowledged before the fsync began, if and only if stamps had not run out |
| FsyncExact.AdoptedStaleIsExact | kernel/client/durability.rs:93-118 | In every run an fsync that finds a barrier to adopt fails as stale if and only if, when it began, the mount or an inode in its scope owed something under another lineage; what other inodes owe never matters |
| FsyncExact.GrantIsExact | kernel/client/durability.rs:93-152 | In every run a flush sent for an fsync passes the server's lineage test if and only if the fsync was owed nothing under another lineage when it began |
| FsyncExact.BoundAfterBegin | kernel/client/durability.rs:93-118 | The connection an fsync is bound to is no older than the one live when it began |
| FsyncExact.NoteIsExact | kernel/client/durability.rs:179-236 | In every run a mutation is filed under its own inode or folded into the mount's obligation, by name and room alone, and no barrier moves |
| FsyncExact.DischargeIsExact | kernel/client/durability.rs:351-363 | In every run, before exhaustion, a success leaves no obligation of its scope and window and takes no other |
| FsyncExact.ReportIsExact | kernel/client/durability.rs:372-385 | In every run, before exhaustion, a reported loss marks exactly the obligations of its scope and window |
| FsyncExact.ReportedIsReplaced | kernel/client/durability.rs:205-212 | The next mutation of an inode whose loss was reported owes its own lineage, so the inode can become durable again |
| FsyncExact.ClaimIsExact | kernel/client/durability.rs:256-295 | In every run a claim adopts, waits or issues by whether a barrier of its connection reaches its snapshot; an expired wait issues |
| FsyncExact.AnswerIsExact | kernel/client/durability.rs:119-152 | A granted barrier leads to the discharge, ESTALE to the report, any other refusal and an interruption to an error, and none of these moves an obligation |
| FsyncExact.EndedStaysEnded | kernel/client/session.rs:455-499 | After a terminal retirement no fsync begins, binds, claims or sends, and no connection is installed |
| FsyncExhaustion.ExhaustedFsyncCanMislead | kernel/client/durability.rs:256-268 | A run of 2^64 + 11 steps in which, past exhaustion, an fsync begun after the last mutation adopts a barrier and succeeds though no flush was sent after it |
| FsyncDischarge.ObligationLeavesOnlyWhenProven | kernel/client/durability.rs:179-236 | In every run a step either keeps an inode's obligation or is a discharge by a covering granted barrier whose snapshot is at least its stamp and whose flush was sent after it; overflow and exhaustion remove nothing |
| FsyncDischarge.OrphanLeavesOnlyWhenProven | kernel/client/durability.rs:351-403 | The same for the mount-wide obligation |
| FsyncDischarge.DischargedBehindLive | kernel/client/durability.rs:131-137 | A discharged obligation is older than the live lineage if and only if a newer lineage was installed after the caller last bound or sent its barrier and before the discharge; it has the lineage that was live at that bind or send |
| FsyncDischarge.OrphanDischargedBehindLive | kernel/client/durability.rs:131-137 | The same for the mount-wide obligation |
| FsyncDischarge.VerdictIsLastUse | kernel/client/durability.rs:93-152 | The lineage a caller goes by is the one that was live when it last bound or sent |
| FsyncDischarge.DischargedBehindLiveHappens | kernel/client/durability.rs:131-137 | A concrete ten-step run with a failover between verdict and discharge |
| FsyncDischarge.ReplacedBeforeGrantHappens | kernel/client/durability.rs:131-137 | A concrete ten-step run with the failover before the flush is granted |
| TagSpace.SearchIsExact | kernel/client/tag_space.rs:45-68 | The cyclic search succeeds exactly when a resident tag is free and returns the first free one from the cursor |
| TagSpace.NextResidentCount | kernel/client/tag_space.rs:71-80 | Growth is strict below the namespace and never passes it |
| TagSpace.ResidentIsAddressable | kernel/client/slots.rs:117-128 | A tag has an element in its shard if and only if it is resident |
| SlotShards.SlotTable.constructor | kernel/client/session.rs:591-608 | The shard-filling loops build the vacant flat table |
| SlotShards.SlotTable.Grow | kernel/client/slots.rs:424-459 | Growth appends vacant tags to the flat table or changes nothing, whichever shard refuses capacity |
| SlotShards.SlotTable.Reserve | kernel/client/slots.rs:150-207 | A reservation takes the first free tag from the cursor in the possibly grown table, charges it and moves the cursor behind it, or finds ordinary credit or every resident tag used up |
| SlotShards.SlotTable.Take | kernel/client/slots.rs:171-201 | One pass over the bitmap takes an idle slot exactly when a bit is clear, and charges its credit |
| SlotShards.SlotTable.Vacate | kernel/client/slots.rs:301-336 | The slot becomes vacant and uncharged but keeps its destination; its credit is refunded and its bit cleared only if no destination is left |
| SlotShards.SlotTable.Sweep | kernel/client/session.rs:490-497 | The nested loops make every reserved or sent slot of the flat table failed, whatever its shard, and change nothing else |
| SlotShards.ShardStepsSweepAll | kernel/client/session.rs:490-497 | Sweeping shard by shard, as the machine does, adds up to one sweep of the table |
| TagTheorems.ReplyReachesItsRequest | kernel/client/receive.rs:429-477 | In every interleaving of sends, receives, retirements, sweeps and flushes, a frame completes only the sent slot of the request that elicited it; that request was sent earlier on the same connection under the same tag |
| TagTheorems.AnsweredAtMostOnce | kernel/client/receive.rs:429-477 | No two completions in a run answer the same reservation |
| TagTheorems.EveryFrameWasSent | kernel/client/slots.rs:255-299 | Whatever is on a connection or in the receiver's hand was put there by an earlier send for the slot's own request |
| TagTheorems.TagsAreNotReusedEarly | kernel/client/flush.rs:268-314 | No tag is reserved, released after a deadline or vacated after a failed flush while the published connection may still answer its request |
| TagTheorems.FlushSettlesItsRequest | kernel/client/flush.rs:316-367 | An accepted Rflush finds its original completed, sent and counted in flight, or failed, with no answer still on the way; a completed one keeps its reply, the others are freed, both tags in one step, so the branch that ends the session is unreachable |
| TagTheorems.SentIsCovered | kernel/client/slots.rs:255-299 | In every run, while connected, the advisory count is at least the number of sent slots plus the stored reply the receiver has yet to count down |
| TagAccounting.StepKeepsCount | kernel/client/session.rs:486-510 | Sends, late countdowns, flushes, sweeps and the reset at retirement keep that bound, and a retirement leaves no sent slot |
| TagDiscards.ReplyIsDiscardedExactly | kernel/client/flush.rs:96-314 | In every run and for every step, a reply that has arrived is thrown away if and only if the connection was found gone before a control tag was got, or the caller acts on its own earlier look at the same request, which found it unanswered: a look under the shard lock, or one followed by its retirement of the connection with the session mutex held throughout |
| TagDiscards.DiscardGuards | kernel/client/slots.rs:301-336 | The same as a condition on the state before the step: which of the callers of the release and of the flush vacating loses a stored reply, and under what guard |
| TagDiscards.HolderStays | kernel/client/flush.rs:276-306 | From its retirement to its vacating nobody replaces what the owner of a failing flush saw |
| TagWitness.BandLostDiscardHappens | kernel/client/flush.rs:105-109 | A concrete run: the reply is stored, another caller retires the connection, and the owner frees its tag without looking |
| TagWitness.FlushDiscardHappens | kernel/client/flush.rs:268-314 | A concrete run: the owner of a flush looks, retires the connection, and frees a reply stored meanwhile |
| TagWitness.OriginalDiscardHappens | kernel/client/flush.rs:63-75 | The same for a caller that fails before it has a control tag |
| TagWitness.LateDiscardHappens | kernel/client/reply.rs:220-246 | A concrete run: the owner past its deadline looks in vain and frees a reply stored before it retires the connection |
| TagDiscards.AbandonedFlush | kernel/client/flush.rs:455-476 | Abandoning a flush frees its tag, and leaves a kept original untouched or frees it |
| TagTheorems.StepSafe | kernel/client/session.rs:455-499 | Each of the 28 steps keeps ownership of tags by awaited requests, stream order of flush replies and the epoch discipline of retire, publish and sweep |
| TagSafety.ServerFlushSafe | kernel/client/flush.rs:158-178 | A server that discards the older request named by a flush leaves none pending on that tag |
| TagSafety.FlushedIsUnawaited | kernel/client/flush.rs:316-340 | Behind an arrived Rflush nothing is owed for the cancelled request |
| TagAccounting.CreditIsConserved | kernel/client/slots.rs:166-201 | In every run used credit is the credit of non-vacant slots plus carried replies, no refund saturates, and ordinary credit stays within the limit |
| TagTheorems.FlushRefundNeverSaturates | kernel/client/flush.rs:345-363 | The combined refund of a flush tag and a freed original never exceeds the used credit |
| TagAccounting.StepKeepsCredit | kernel/client/reply.rs:422-440 | Every reserve, take, release, flush and sweep moves credit without creating or losing any |
| TagAccounting.ReservationNeverFailsClosed | kernel/client/slots.rs:171-201 | In every run the tag the search returns is resident, vacant and without destination, so the bitmap-disagreement branch is unreachable |
| TagAccounting.TagsRunOutOnlyWhenBusy | kernel/client/slots.rs:405-471 | No free tag is found if and only if every resident bit is set |
| TagAccounting.StepKeepsLayout | kernel/client/slots.rs:405-471 | Growth, two-stage release, vacating and sweeping keep a clear bit meaning an idle addressable slot; that idle slots get their bit cleared is `TagLeaks.BitsAreExact` |
| TagLeaks.BitsAreExact | kernel/client/slots.rs:405-471 | In every run a bit is set for every tag with a request or a destination, and for no other than those and the ones their last owner has not released yet |
| TagLeaks.ReleasedTagIsFree | kernel/client/slots.rs:405-421 | Releasing a tag with no request and no destination clears its bit, and no other |
| TagLeaks.NoTagLeaks | kernel/client/slots.rs:405-471 | In every run, once no slot is in use and every owner has released, all tags are free, so one can be reserved |
| TagRoundTrip.AnsweredRequestRestores | kernel/client/reply.rs:113-217 | From any state at rest a request with a read destination can be reserved, sent, answered into it, taken and released; tags, credit, counts, connection and every other slot are then as before |
| TagRoundTrip.CancelledRequestRestores | kernel/client/flush.rs:52-367 | From any state at rest a request can be sent, cancelled and settled by its Rflush, and everything is then as before |
| TagRoundTrip.ReconnectRestores | kernel/client/session.rs:455-560 | From any state at rest a retirement, its sweep and an installation lead back to one at rest on a new connection, with the requests in flight failed, nothing counted in flight and the search at its start |
| TagSession.LinkBegan | kernel/client/receive.rs:123-160 | The receiver reads the connection that was live when its loop began, and has met neither an Rflush nor a frame it could not place since |
| TagSession.NothingPassesAnRflush | kernel/client/flush.rs:392-405 | In every run no frame is read, claimed for or stored and no connection installed while an Rflush waits for its owner |
| TagSession.DeliveredExactly | kernel/client/receive.rs:162-204 | In every run a completion marks its destination delivered exactly if the receiver claimed it, never one already delivered, and touches no other destination |
| TagSession.GrowthMakesRoom | kernel/client/slots.rs:424-459 | In every run growth keeps every slot, appends vacant ones and leaves a tag to reserve |
| TagSession.SearchGoesRound | kernel/client/slots.rs:171-201 | In every run the next search starts just behind the tag handed out |
| TagSession.EndedStaysEnded | kernel/client/session.rs:455-499 | After a terminal retirement nothing is reserved, sent, flushed or installed |
| TagAccounting.DroppedIsNeverClaimed | kernel/client/slots.rs:346-390 | Once a destination guard has dropped, no receiver holds a claim on that iterator and none is ever taken again, whatever vacated the slot meanwhile |
| TagAccounting.StepKeepsDestinations | kernel/client/receive.rs:162-204 | Registrations stay unique and a destination is in use exactly while the one receiver claims it |
| Framing.FramesAreParsed | kernel/client/receive.rs:284-407 | Framing is unambiguous: whole frames that concatenate to a prefix of the stream are its first frames |
| Framing.ParseFirst | zerofs/ninep-proto/src/slice_codec.rs:597-625 | A stream that begins with a frame parses as that frame followed by the parse of the rest |
| Framing.LittleEndian | zerofs/ninep-proto/src/slice_codec.rs:597-625 | The numbers of a header have the bytes read as their digits to base 256, least significant first |
| Framing.CutFrame | kernel/client/receive.rs:227-274 | Cutting one frame across buffer and socket loses and reorders no byte |
| Receiver.Accumulator.ReceiveAvailable | kernel/client/receive.rs:284-407 | For every chunking and mix of delivery paths the stream is the frames handed on followed by the bytes left, the published frames are the stream's next frames, and consumption stops right after a flush reply and otherwise leaves no whole frame. It fails as malformed if and only if the bytes left begin with a broken header, rejects only a frame its slot would refuse, reports a disconnect only when no whole frame is left, and the no-room and bounds errors cannot occur |
| Receiver.Accumulator.TryDirectRead | kernel/client/receive.rs:227-274 | A direct read publishes exactly the frame at the front, or declines without touching anything |
| Receiver.Accumulator.ReceiveOversized | kernel/client/receive.rs:323-351 | A frame larger than the accumulator is completed off the socket and published whole |
| Receiver.Accumulator.DispatchBuffered | kernel/client/receive.rs:296-371 | The inner loop publishes buffered frames in order and stops at an incomplete one or after a flush reply; it fails as malformed if and only if what is left begins with a broken header, and rejects only what a slot would refuse |
| Receiver.Accumulator.Compact | kernel/client/receive.rs:373-377 | The in-place shift keeps the unconsumed bytes at the front |
| LockRanges.SubtractIsDifference | zerofs/ninep-proto/src/slice_codec.rs:113-149 | The at most two fragments hold exactly the bytes of the held range outside the removed one, and the right one is open-ended exactly if the held range reaches the end of the file |
| LockRanges.SubtractIdempotent | kernel/client/registry.rs:755-758 | Subtracting again from a fragment removes nothing, so revisiting an inserted fragment is harmless |
| LockTableSpec.RecordRefinesByteMap | kernel/client/registry.rs:350-374 | Recording a lock or unlock overwrites or removes that range of that fid's byte map; every other byte and every other fid are held as before |
| LockTableSpec.RecordStores | kernel/client/registry.rs:733-770 | With two free slots for a lock or one for an unlock it always stores, spends no more, and keeps each fid's records disjoint |
| LockTableSpec.HoldsOneWay | kernel/client/registry.rs:284-287 | Disjoint records hold each byte of a fid in one way only |
| LockTableSpec.UnlockFromHolds | kernel/client/registry.rs:733-770 | The walk over a table that gains fragments while it is walked removes exactly the range |
| LockTableSpec.ForgetHolds | kernel/client/registry.rs:777-783 | Forgetting a fid drops its bytes and nobody else's |
| LockRegistry.LockTable.UnlockRecordedRange | kernel/client/registry.rs:733-770 | The in-place loop equals that walk |
| LockRegistry.LockTable.RecordLock | kernel/client/registry.rs:350-374 | A store from a replaced connection changes nothing; on the current one it records and settles the claim |
| LockRegistry.LockTable.TryReserve | kernel/client/registry.rs:288-310 | Slots are promised exactly when the free ones cover every outstanding claim as well, else the length to grow to is right |
| Tables.Padded | kernel/client/registry.rs:622-632 | Growth keeps every entry in place and adds only vacancies; a shorter replacement changes nothing |
| LockRegistry.LockTable.Adopt | kernel/client/registry.rs:622-632 | The copying loop does exactly that |
| Tables.GrownLength | kernel/client/registry.rs:608-614 | The next length is longer and covers the minimum, and exists whenever the minimum is longer |
| LockReservations.GrantedLocksAreAlwaysRecorded | kernel/client/registry.rs:288-325 | In every interleaving claims never exceed free slots, so a granted lock on the current connection is never unrecorded and the table stays within its bound |
| LockReservations.PromisesAreReturned | kernel/client/registry.rs:288-325 | In every run a promise counts until a store on the current connection settles it or its owner drops it, and then no more |
| LockReservations.LockRoundTrip | kernel/client/ops.rs:976-1039 | Wherever the slots can be promised a lock can be reserved, granted and stored; its bytes are then held as asked and no claim is left |
| LockReservations.GrowthMakesRoom | kernel/client/registry.rs:608-632 | In every run growth keeps every record and makes the room it was asked for |
| LockReservations.StepMovesOnlyItsBytes | kernel/client/ops.rs:976-1039 | Over a run the recorded bytes change only by a store on the current connection or a clunk of that fid, answered on the current connection or found stale |
| LockReservations.LocksStandStill | kernel/client/reconnect.rs:159-165 | Between a retirement and the next installation no recorded byte of a fid moves unless a clunk found that fid stale |
| FidRegistrySpec.InternCounts | kernel/client/registry.rs:636-657 | Interning adds one reference to the slot of exactly that identity, or reports that every slot is taken |
| FidRegistrySpec.InstallCounts | kernel/client/registry.rs:786-793 | Installing a record moves the caller's reference into the table and gives back the displaced one |
| FidRegistrySpec.DerivedCounts | kernel/client/registry.rs:452-481 | A derived fid retains its source's identity; a missing source tombstones without leaking |
| FidRegistrySpec.RetireCounts | kernel/client/registry.rs:490-520 | A clunk gives back exactly the reference its record held |
| FidRegistrySpec.LiveIsInterned | kernel/client/reconnect.rs:448-453 | Exact counts leave no live record without its identity |
| FidRegistry.FidTable.TryIntern | kernel/client/registry.rs:636-657 | The scan takes a match anywhere before a vacancy, and then the first vacancy |
| FidRegistry.FidTable.RecordFid | kernel/client/registry.rs:438-445 | On the connection that answered the record becomes exactly the one given and no other changes; on a replaced one nothing does |
| FidRegistry.FidTable.RecordDerivedFid | kernel/client/registry.rs:452-481 | From a live source the new record has the inode given, or the source's, the open flags given, or is not open, and the source's identity; without one it is stale and its locks are gone; on a replaced connection nothing changes, and no other record ever |
| FidRegistry.FidTable.RetireClunkedFid | kernel/client/registry.rs:490-520 | Record, locks and number are dropped together, or not at all on a replaced connection; the root and unissued numbers are not recycled |
| FidRegistry.FidTable.AllocateFid | kernel/client/registry.rs:234-241 | A recycled number is used first, the last one returned; else the next one, once the record table covers it; none exactly when both ran out |
| FidLifecycle.IdentitiesStayInterned | kernel/client/registry.rs:405-428 | In every run a credential slot counts exactly the live records naming it plus references held by rebinds, and every live record finds its identity |
| FidLifecycle.FidsKeepTheirIdentity | kernel/client/registry.rs:438-481 | A live fid keeps the identity it was created under through every step; a rebind gives its own, a walk its source's |
| FidLifecycle.IssuedNumbersAreExclusive | kernel/client/registry.rs:586-605 | A number handed out is owned by nobody else, is covered, and carries no record or tombstone of a previous owner |
| FidLifecycle.RecordIsAsTold | kernel/client/registry.rs:438-481 | In every run a live fid's inode and open state are those of the rebind or walk that recorded it last |
| FidLifecycle.AbandonedRebindRestores | kernel/client/registry.rs:405-428 | An identity interned for a rebind that comes to nothing is given back, and the identities are as before |
| FidLifecycle.GrowthMakesRoom | kernel/client/registry.rs:258-287 | In every run growth keeps every slot, and then an identity finds one and the numbers below the new length are covered |
| FidLifecycle.EndedStaysEnded | kernel/client/session.rs:455-499 | After the session ended no number is allocated, no identity interned and no connection installed |
| FidLifecycle.ImageMovesExactly | kernel/client/reconnect.rs:159-165 | While disconnected a step changes what a replay would rebuild if and only if it is the replay's commit of a gone fid or a clunk found stale of a fid that is live or holds a lock |
| FidLifecycle.RecordsStandStill | kernel/client/reconnect.rs:159-165 | Without such steps the image of records and locks is the same from a retirement to the next installation |
| FidLifecycle.StaleClunkMovesRecords | kernel/client/ops.rs:877-881 | A concrete run in which a clunk found stale removes a live record after the retirement |
| Replay.Session.ReplaySession | kernel/client/reconnect.rs:166-223 | On success the candidate's fid table is exactly the live records, reopened where they were open, its lock table exactly the recorded bytes, roots were bound first, and only fids the candidate no longer resolves and nothing was locked through left the records. The session ends for a locked fid only if the candidate lost one, for a lock exactly if it refused one, never for a lost identity; another candidate is tried only if an exchange failed |
| Replay.Session.ReplayPass | kernel/client/reconnect.rs:171-191 | Every fid of the pass is on the candidate or listed as gone, never both; a gone fid with a lock ends the session, and only that or a record without identity does; a retry means an exchange failed, and the other way round |
| Replay.Session.ReplayFid | kernel/client/reconnect.rs:460-512 | A failed reopen clunks the fid it had rebound |
| Replay.Session.ReplayLocks | kernel/client/reconnect.rs:233-275 | The whole recorded set is held, or nothing is held after all the conflicts counted and the loop still waits, or an exchange failed; the session ends exactly if a lock was refused, or if it was terminated during a conflict |
| Replay.Session.Rollback | kernel/client/reconnect.rs:343-371 | An acknowledged rollback leaves none of the attempted bytes held |
| Replay.Session.ReconnectOnce | kernel/client/reconnect.rs:80-106 | A candidate goes live exactly when the attempt succeeds, and then fully rebuilt; one that ends the session or is to be retried was asked to start over, and no other |
| Replay.Session.InstallConnection | kernel/client/session.rs:525-560 | A connection is installed exactly when its socket could be prepared, the session has not ended and no flush reply is pending; a refusal leaves the session as it was |
| ReplaySpec.AllInterned | kernel/client/reconnect.rs:448-453 | With exact counts every live record finds its identity, so replay never ends for a lost one |
| ReplaySpec.PruneAllKeeps | kernel/client/reconnect.rs:193-216 | Committing the gone fids keeps counts exact, every other record and its identity, and every lock record |
| ReplaySpec.CommitMatchesServer | kernel/client/reconnect.rs:193-216 | What the server rebuilt equals the image of the records after the commit |
| Retry.OpAttempt.DriveAttempts | kernel/client/retry.rs:95-188 | After any number of passes and for all connections, clocks and outcomes, fixed in advance and logged by the wire alone, each frame of a mutation carries its operation ID, is a retry if and only if an earlier frame had any outcome but a clean rejection, then names that earliest frame's writer epoch, and was admitted within the horizon of it. A frame goes out for every pass that finds a connection, only a lost connection or lost leadership is resent, a reply is returned exactly when the last frame was answered, and the loop fails only past the grace or horizon, refused a connection, or interrupted |
| Retry.OpAttempt.Attempt | kernel/client/retry.rs:135-188 | One more frame keeps the remembered epoch and time equal to the earliest frame in doubt, whatever its outcome |
| Retry.OpAttempt.ProvenPredispatch | kernel/client/retry.rs:574-579 | The remembered epoch and time are forgotten exactly when the frame was not a retry |
| Retry.OpAttempt.Admit | kernel/client/retry.rs:69-130 | Nothing is admitted past the horizon of the earliest frame in doubt or past the grace, and whatever is refused is past one of them |
| Retry.OpAttempt.ResendBudget | kernel/client/retry.rs:589-612 | Ambiguous disconnect exactly past the horizon, timeout exactly past the grace otherwise, else a nonzero wait within both |
| Retry.RetriesShareOneOrigin | kernel/client/retry.rs:535-548 | Once a frame is a retry all later ones carry the same envelope |
| Retry.SecondExecutionIsMarked | kernel/client/retry.rs:557-579 | Of two frames that may both have been executed the later is marked a retry of the earliest |
| GenerationRegister.GenerationIsHighest | kernel/vfs/attributes.rs:208-270 | Whatever is accepted or refused, a half ends at the highest generation that reached it |
| GenerationRegister.ValidIsTheOffer | kernel/vfs/attributes.rs:411-442 | A valid half holds the value of the reply at its generation, nothing displaced it since, and no expiry is newer |
| AttributeCache.InodeCache.PublishAttributes | kernel/vfs/attributes.rs:208-270 | Each half takes the reply's value, generation and time exactly when its own generation wins, and else stays whole; the baseline is the five content fields of the reply; all four generations advance and neither mapping nor content passes data |
| AttributeCache.InodeCache.CacheGetattr | kernel/vfs/attributes.rs:329-376 | A getattr publishes both halves but never the mapping or baseline, and records a content change against the baseline |
| AttributeCache.InodeCache.PublishCoherent | kernel/vfs/attributes.rs:165-206 | A barriered refresh is published exactly above the data generation, moves data, mapping and baseline together, and records a content change exactly when the reply no longer matches the baseline |
| AttributeCache.InodeCache.PublishMmap | kernel/vfs/file.rs:571-616 | The mmap refresh does the same for the mapping but never touches the link count, and records a content change exactly when the size was refreshed |
| AttributeCache.InodeCache.ApplyKillpriv | kernel/vfs/attributes.rs:305-321 | Each set-id bit is kept exactly if both sides still have it, no other mode bit changes, and the permission half expires |
| AttributeCache.InodeCache.Invalidate | kernel/vfs/attributes.rs:411-442 | Both halves expire at the generation, and a newer content change distrusts the data half too |
| AttributeCache.InodeCache.RecordLocalContentChange | kernel/vfs/attributes.rs:127-138 | New local bytes expire both halves and raise the content generation, not the mapping |
| AttributeCache.InodeCache.CachedStat | kernel/vfs/attributes.rs:378-396 | A stat is returned exactly when both halves are fresh or expiry is allowed; a fresh one is made of one reply per half, each at least as new as every invalidation recorded |
| AttributeCache.WindowIsASecond | kernel/vfs/attributes.rs:378-396 | On a clock that has not gone round the window of a cached value is one second |
| HintTable.HintCache.Insert | kernel/vfs.rs:303-343 | Stores in the key's neighbourhood, keeps one hint per key, replaces only by newer attributes, and evicts at most one, only from a full neighbourhood, an older fence generation first, else in turn |
| HintTable.HintCache.Take | kernel/vfs.rs:345-381 | Returns the key's hint unless expired, removes it, and discards only expired ones besides |
| HintTable.GoodForASecond | kernel/vfs.rs:345-381 | On a clock that has not gone round a hint is expired exactly from one second after its observation |
| HintTable.HintCache.DropEntry | kernel/vfs.rs:396-409 | The bounded probe removes every identity's hint for the entry and nothing else |
| HintTable.HintCache.DropObjects | kernel/vfs.rs:384-393 | Removes exactly the hints describing those objects |
| HintTable.ContentsFunctional | kernel/vfs.rs:285-343 | The table is a partial map from keys |
| HintFence.NoStaleHintAfterFence | kernel/vfs.rs:931-1013 | After a mutation fenced and dropped an entry or an object, a hint about it that a lookup returns comes from a readdir begun after that fence, even if the fence fell between a reply's recheck and its store |
| HintFence.HintOutlivesDropUnfenced | kernel/vfs.rs:931-965 | A hint returned about something dropped earlier was rechecked after the drop, with no fence since any readdir that captured its generation began |
| HintFence.RecheckIsExact | kernel/vfs.rs:931-965 | A reply may be stored if and only if nothing fenced since its readdir began |
| HintFence.TakenIsGone | kernel/vfs.rs:345-381 | In every run a lookup leaves no hint of its key, returns only an unexpired one that was there, and discards nothing else but expired ones |
| HintFence.UnfencedDropHappens | kernel/vfs/netfs_ops.rs:571-581 | A concrete run in which a hint captured before an unfenced drop is returned after it |
| HintFence.RunKeepsInv | kernel/vfs.rs:303-381 | In every run there is one hint per key, and its generation was captured by a readdir |
| DentrySeqlock.FreshIsASnapshot | kernel/vfs.rs:209-245 | Under interleaved writers a lookup that answers true describes identity, time and both generations as stored together at its last load |
| DentrySeqlock.UndisturbedIsExact | kernel/vfs.rs:209-245 | If no writer moved the sequence the answer is true exactly when the record is fresh |
| DentrySeqlock.InvalidationIsRespected | kernel/vfs.rs:197-207 | After an invalidation at g a lookup is true only for an observation at least g |
| DentrySeqlock.MemoryIsLastRecord | kernel/vfs.rs:176-196 | In every run memory between writers holds the identity, time and generation of the last record begun |
| DentrySeqlock.FinishedRecordIsStored | kernel/vfs.rs:176-196 | A recorder that finishes has stored everything it was given |
| DentrySeqlock.FreshIsTheLastRecord | kernel/vfs.rs:209-245 | A lookup that answers true was asked about the identity of the last record, within a second of it, and that record is not invalidated |
| DentrySeqlock.InvalidationTakesHold | kernel/vfs.rs:197-207 | An invalidation above the stored generation is stored when its writer ends |
| DentrySeqlock.GivesUpAfterFour | kernel/vfs.rs:209-245 | A lookup gives up without an undisturbed copy only after exactly four disturbed tries |
| DentrySeqlock.StepKeepsWriter | kernel/vfs.rs:176-207 | The sequence is odd exactly between a writer's two bumps, the invalidated generation never falls, what a recorder has stored so far is its own record, and an invalidation that is through is in memory |
| VmTransaction.Transition.Recover | proxmox/vm_nfs_transition.py:603-612 | Killed anywhere, a decided transaction keeps its mount and any other leaves the journal only with the old mount back |
| VmTransaction.Transition.RollbackTransaction | proxmox/vm_nfs_transition.py:490-585 | Killed anywhere between its writes, the journal says rolled back only once the VM mounts what it did before |
| DeployCommit.FinaliseOnlyAfterDecision | proxmox/deploy.py:2305-2314 | Over any attempts, each failing or killed anywhere, the host is finalised only while the VM durably decided for that deployment |
| DeployCommit.NoRollbackAfterDecision | proxmox/deploy.py:2377-2400 | Once decided no attempt rolls back, recovers or drops either side |
| DeployCommit.DecisionIsDurable | proxmox/vm_nfs_transition.py:587-612 | A decision stays until that deployment itself finishes it with the host finalised |
| DeployCommit.HostIsCompensatedFirst | proxmox/deploy.py:2383-2400 | When the VM begins to be undone the host has an activation outstanding if and only if the step before was an activation that took effect and was reported as failed |
| DeployCommit.FailureIsCompensated | proxmox/deploy.py:2377-2400 | A failed write begins the compensation, the host first if its activation was reported, if and only if the attempt is prepared, nothing may be decided and it is not compensating already |
| DeployCommit.NothingIsRefused | proxmox/deploy.py:2281-2412 | A write is refused if and only if the attempt found another deployment's decision, and every other brings the attempt nearer to its end |
| DeployCommit.AttemptEnds | proxmox/deploy.py:2281-2412 | An attempt that ends by a successful write has moved both sides to its release, or, compensating, left both where they were |
| DeployCommit.CompensationRestores | proxmox/deploy.py:2383-2400 | A compensation whose writes succeed ends with no transaction, the VM on the live release and the activation undone |
| DeployCommit.DecidedIsPromoted | proxmox/deploy.py:2351-2376 | A release activated for maintenance only is promoted before it can be decided on or made final |
| DeployCommit.LostActivationHappens | proxmox/deploy.py:2351-2361 | A concrete run of that one exception |
| DeployCommit.DeploymentIsAtomic | proxmox/deploy.py:2281-2412 | Between transactions VM and host serve the same release; undoing an undecided one brings them back together and finishing a decided one moves both, with kills between the writes of each side |
| DeployAttempt.Coordinator.RunTransaction | proxmox/deploy.py:2281-2412 | The attempt in its own form keeps that invariant on every exit; it completes if and only if no write failed and no other deployment was decided, and then with both sides moved; it leaves another deployment's decision alone; if only the prepared part failed the transaction is gone, and, but for an activation that was reported as failed and took effect, no activation is outstanding |
| DeployAttempt.Coordinator.Compensate | proxmox/deploy.py:2383-2400 | If no write of the handler fails the transaction is dropped with the old mount back and a reported activation undone; if it changes the VM at all after a reported activation, the host was undone first |

## Left out

- Sockets, kernel threads, signal masks, condition variables and page-cache effects: nondeterministic events here.
- CPU memory orderings: interleavings are sequentially consistent.
- Bodies of 9P messages, and the server's deduplication, lease and lock-conflict logic.
- Wake-ups, deadlines and liveness: only safety is stated, and a wait may end at any time.
- The lock flavour check `fid_holds_other_flavor`, which is not atomic with the store.
- Directory reading, prefetching, the mmap revalidation gate, endpoint probing, reply buffer pools and writeback groups.
- The rest of `proxmox/`: staging, ownership receipts and unit files are the points where an attempt may fail.
- FsyncProtocol.FsyncIsHonest: says nothing of a barrier adopted for a snapshot past stamp exhaustion, because there the promise is false (`ExhaustedFsyncCanMislead`).
- Rounding of waits to jiffies, and the lengths of back-off waits.
- HintTable.HintCache.Insert: the FNV hash is an arbitrary function of parent and name.
- AttributeCache.InodeCache.PublishAttributes: the VFS inode's own fields are not modelled, only the cache record; a stat's fields are grouped into the two halves that are published together.
- VmTransaction.Transition.RollbackTransaction: unit files, enablement and legacy artifacts are reduced to which release is mounted.
