# The document layer of Komet, modelled and proved

This project models the state layer of a multi-device sync system (`crates/doc`, with the registry room
of `crates/sync-server`) and proves what the layer promises its callers. There are four machines.

**The registry replica.** A client keeps the server's rows and a queue of unacked batches, and shows the
rows with the queued ops folded in. Rows merge field by field under hybrid logical clocks. `Hlc` shows
that comparing the clock strings is comparing (ms, counter, device), and embeds the strings in the reals
so that everything else compares numbers. `Merge` is `apply_op`, `Delivery` and `Convergence` are its two
central laws (applying an op again does nothing; the order of writes does not matter), `Compaction` and
`Recovery` say what happens to a row when the queue is collapsed and when the server lost its rows, `Arrival`
what a queue and its collapsed form do on a server row that has moved on, and `Reseed` what a wiped server
makes of a collapsed queue. `Outbox` lifts this to the whole queue, `Registry` is the mutable `RegistryDoc`, `SyncRoom` is the
server side together with the wire between the two, and `Session` adds the outbox to that wire.

**The fold.** `Fold` turns agent events into message parts, in place; `FoldLaws`, `FoldOrigins`, `ToolLaws` and
`Cycles` prove what every run keeps and what each part says. Every law is about all runs: a reset forgets what came before it
(`FoldLaws.ResetForgets`), so laws about runs without a reset are laws about the part since the last one.

**The streaming writer.** `DocParts` is the row form of a part and its round trip, `OldRows` reads rows that
lack a column, `RowUpdates` says what a row reads as after an in-place update, `SegmentWriter` is the incremental writer, and `StreamLaws` and
`Streaming` prove that writing bit by bit is writing at once. Answers and decisions recorded in
between, by other devices or by the run itself, are part of the model.

**Frames, splits, joins and the thin rebuild.** `Transcript` is the diff and the patch of a watched
transcript, `IdLists` and `TranscriptLaws` prove when one undoes the other, `PatchLaws` says what the patch makes of any
list a viewer may hold, and `LiveView` applies the two to a streaming entry. `Split`, `SplitLaws` and `Continuations` cover byte-bounded chunking and the join;
`Rebuild` and `RebuildLaws` cover the stripped copy of a document.

Code that changes things step by step is modelled by methods with loops and by classes (`HlcClock`,
`RegistryDoc`, `RegistryRoom`, `Accumulator`, `SegmentWriter`, `SessionDoc`, `Viewer`), each tied to a
function of the old state; the laws are about those functions.

Several comments in the code promise more than the code does. The model follows the code: for each there is
a theorem that says exactly what holds, and for most a concrete input that fails the promise:

- `compact_pending` calls itself lossless: the server is to converge on the same values. `Arrival.CompactionConverges`
  says when it does, for every row the server may hold by the time the queue arrives, and `Outbox.ServerConverges`
  lifts it to the queue. A field the queue clears comes back unless the clear has landed (`Arrival.OverRefinedRow`),
  and a row a peer has deleted meanwhile comes back if only updates were queued and the net row is newer than the
  delete (`Arrival.UpdatesMeetTombstone`, `Arrival.PeersDeleteIsUndone`). What the client itself shows stays the
  same, row by row, exactly when nothing in its cached row outdoes the net row (`Outbox.CompactionIsInvisible`,
  `Outbox.QueueIsInvisible`, `Compaction.ClearedFieldComesBack`), and compacting a compacted queue can hide a row
  (`Compaction.SecondCompactionHidesTheRow`).
- `apply_state` keeps the local rows as the only copy when the server was wiped. Updates at the head of the
  queue reach the empty server ahead of the seeds and are lost, and behind a queued delete the seed can bring
  old fields back: `Recovery.WipedServerIsRebuilt` says for every queue of local writes when either shows. A
  queue that was compacted before the wipe keeps its updates; `Reseed.CompactedIsRebuilt` says for these what is
  lost instead (`Reseed.CompactionCostsRecovery`).
- The registry's notes say that applying any op again is a no-op. An upsert older than a delete and a
  later revival is not (`Delivery.RedeliveryAfterRevival`); `Delivery.RedeliveredWrite` says exactly when it is.
- The cursor is documented as the last number fully applied. The server sends the ack of a push before the
  rows, and a connection lost in between leaves the replica short of rows for good
  (`SyncRoom.AckOvertakingRowsLosesThem`). Over every run the promise holds exactly when every row the cursor
  has passed, on the wire or lost before, was replaced by one past it (`SyncRoom.CursorKeepsItsPromise`). Until
  the rows come, the acked write is gone from the client's view (`Registry.AckBeforeRowsShows`,
  `Registry.HeadAckShows`).
- A diff is not always undone by the patch: entries left in place must keep their relative order
  (`TranscriptLaws.DiffThenPatch`, `TranscriptLaws.MovedEntriesGoAstray`).
- Capping a summary delta by delta is not capping the whole (`Cycles.SummaryInTheDocument`), and can drop a
  character from the middle (`Cycles.CutInTheMiddle`).
- An in-place update never removes a column, so a result that clears an output leaves the old one on show
  (`Streaming.SecondResultLeavesOutput`).
- A denial recorded in the document is meant to be final. Over every run it survives everything but a tick
  that has an approval to write into its row (`Streaming.DenialSurvives`, `Streaming.TickOverrulesDenial`).
- The thin rebuild promises zero information loss. It starts the document's metadata afresh, so provider
  marks are dropped (`RebuildLaws.MetaStartsAfresh`), and outputs of parts that share an id share a sidecar key
  (`RebuildLaws.AllCanBeFetched`).

## Model

| member | source | states |
|---|---|---|
| `Text.WidthIsLeast` | crates/doc/src/parts.rs:830-842 | byte lengths are those of UTF-8: a character takes as few bytes as have room for it |
| `Hlc.RankOrder` | crates/doc/src/registry.rs:47-52 | the order of clock strings is the order of their ranks, and no two strings share a rank |
| `Hlc.EncodeOrder` | crates/doc/src/registry.rs:42-45 | for times below 10^13 ms and counters below 10^6 string order is (ms, counter, device) order, so encoding is injective |
| `Hlc.PaddingRunsOut` | crates/doc/src/registry.rs:42-45 | one millisecond past the bound the string order flips |
| `Hlc.ReadingsIncrease` | crates/doc/src/registry.rs:54-75 | over any sequence of wall clock values, regressions included, successive readings strictly increase and the counter stays within six digits |
| `Hlc.EmittedClocksIncrease` | crates/doc/src/registry.rs:40-75 | so the emitted strings strictly increase |
| `Hlc.HlcClock.Next` | crates/doc/src/registry.rs:63-74 | the clock object advances by the reading that follows its last one, never behind the wall, on the wall with counter 0 when that has moved on, and emits its encoding |
| `Hlc.ReadingIsLatest` | crates/doc/src/registry.rs:63-74 | over every sequence of wall values the last reading is a value of the clock's own: the newest of its start and the walls, with as many ticks as it has stood still, carried over past the counter |
| `Hlc.NeverBehindTheWall` | crates/doc/src/registry.rs:63-74 | no reading is behind the wall value it was read at, nor behind any earlier one |
| `Hlc.ReadingIsNewest` | crates/doc/src/registry.rs:63-74 | the milliseconds of a reading are the maximum of the start and all walls so far while fewer than 10^6 readings have stalled |
| `Hlc.WallsOrderDevices` | crates/doc/src/registry.rs:40-75 | two devices whose earlier clocks are behind their walls emit stamps in the order of the walls |
| `Merge.MaxClock` | crates/doc/src/registry.rs:114-122 | the scan finds the newest of the delete clock and all field clocks, or none when there is none |
| `Merge.MaxClockMeaning` | crates/doc/src/registry.rs:114-122 | the newest clock is unique, and being newer than it is being newer than every clock of the row |
| `Merge.ApplyOp` | crates/doc/src/registry.rs:166-250 | the step-by-step merge is the field-by-field merge, with the changed flag |
| `Merge.MergeWrites` | crates/doc/src/registry.rs:228-249 | the loop over the writes takes exactly the writes newer than the field they hit, and reports whether any did |
| `Merge.MergedAt` | crates/doc/src/registry.rs:228-249 | what one field and its clock are after a merge: the write if it is newer, nothing for a null, else what was there |
| `Merge.ApplyKeepsWellFormed` | crates/doc/src/registry.rs:166-250 | rows stay well formed under every op (tombstones are empty, live fields have clocks and no null), and the flag is false exactly when the row is unchanged |
| `Merge.ReplayKeepsWellFormed` | crates/doc/src/registry.rs:166-250 | the same over every run of ops on a row |
| `Merge.ApplyKeepsOutliving` | crates/doc/src/registry.rs:185-227 | a revived row shows a field newer than its delete, for upserts that carry their clock |
| `Merge.MaxClockRises` | crates/doc/src/registry.rs:114-122 | no op lowers the newest clock of a row |
| `Merge.ReplayIgnoresVersion` | crates/doc/src/registry.rs:166-250 | merging never looks at the server's sequence number |
| `Merge.RowToSeedOp` | crates/doc/src/registry.rs:254-284 | the op built to carry a row with its original clocks, a delete for a tombstone |
| `Merge.SeedRoundTrip` | crates/doc/src/registry.rs:252-284 | a row's own seed changes nothing on it and recreates from nothing what the row shows; only clocks of cleared fields are lost |
| `Delivery.SettledMeansNoOp` | crates/doc/src/registry.rs:166-250 | a row has taken an op in exactly when applying it changes nothing |
| `Delivery.SettledIsStable` | crates/doc/src/registry.rs:166-250 | an op taken in stays taken in under any other op that revives nothing; a delete even under revivals |
| `Delivery.RedeliveryIsNoOp` | crates/doc/src/registry.rs:166-250 | after an op and any run of others that revives no tombstone the op again changes nothing; for deletes over every run |
| `Delivery.DeliveredRunSettles` | crates/doc/src/registry.rs:166-250 | every op of a delivered run stays taken in while later ops revive nothing |
| `Delivery.SettledRunIsNoOp` | crates/doc/src/registry.rs:166-250 | a run of ops already taken in changes nothing when delivered again |
| `Delivery.RedeliveryAfterRevival` | crates/doc/src/registry.rs:200-227 | an old upsert delivered again after a delete and a revival brings a removed field back |
| `Delivery.RedeliveredWrite` | crates/doc/src/registry.rs:166-250 | for local writes, over any run of later ones: a write delivered again changes nothing exactly when the row is gone or has a clock for every field it writes |
| `Delivery.RunsNeverReturn` | crates/doc/src/registry.rs:166-250 | a run of ops leaves a row as it was exactly when none of them would change it |
| `Delivery.UncarriedUpsertReturns` | crates/doc/src/registry.rs:200-227 | an upsert stamped above all its fields comes back after a delete in between |
| `Convergence.ReplayHoldsNewestWrites` | crates/doc/src/registry.rs:228-249 | after any run without deletes every field holds the newest write made to it by the base row or the ops |
| `Convergence.NewestWritesAreUnique` | crates/doc/src/registry.rs:228-249 | that description, which never mentions order, determines the row |
| `Convergence.OrderDoesNotMatter` | crates/doc/src/registry.rs:228-249 | the same writes in any order and with any repetitions leave the same row |
| `Convergence.DeletesDoNotCommute` | crates/doc/src/registry.rs:166-227 | deletes are outside the law: an input where order shows |
| `Compaction.ReplayDescends` | crates/doc/src/registry.rs:166-284 | how a row stands to the row its queue started from: refined by newer writes, deleted by a newer delete, or deleted and reborn with newer clocks only; the queue may hold earlier seeds |
| `Compaction.SeedShows` | crates/doc/src/registry.rs:252-284 | laying the seed of any row over any server row shows that row exactly when the seed holds up: nothing on the server is newer or missing from it |
| `Compaction.CollapsedRow` | crates/doc/src/registry.rs:384-425 | on the cached row, collapsing any run of ops to the seed of its net row is invisible exactly when that seed holds up against the row |
| `Compaction.QueueHoldsUp` | crates/doc/src/registry.rs:384-425 | for queues as the replica builds them, earlier seeds included: exactly when every field of the live server row is still there and the seed is newer than a tombstone |
| `Compaction.CarriedOpsClearTombstones` | crates/doc/src/registry.rs:200-227 | a tombstone never stands in the way of ops that carry their clocks |
| `Compaction.ClearedFieldComesBack` | crates/doc/src/registry.rs:375-384 | a queued clear of a server field is undone by compaction |
| `Compaction.SecondCompactionHidesTheRow` | crates/doc/src/registry.rs:384-425 | a queue whose first compaction is invisible and whose second makes the row disappear |
| `Arrival.CompactionConverges` | crates/doc/src/registry.rs:371-425 | for every server row and every queue that may start with an earlier seed: the net row's seed leaves the server showing what the queue would have made it show exactly when the row converges, a condition on the server row, the last writes of the queue and the net row |
| `Arrival.AllLaid` | crates/doc/src/registry.rs:166-250 | a queue whose deletes lose leaves on a live row the last write of every field that is newer than what is there |
| `Arrival.RevivedIsLaid` | crates/doc/src/registry.rs:166-227 | on a tombstone or a missing row what counts starts at the first upsert newer than it, laid over nothing |
| `Arrival.LandedAlike` | crates/doc/src/registry.rs:166-199 | two rows on which the last delete lands end up alike |
| `Arrival.LandedOnBoth` | crates/doc/src/registry.rs:371-425 | when the last delete lands on the cached row and on the server's, convergence is the seed holding up against the server's row |
| `Arrival.LocalTail` | crates/doc/src/registry.rs:371-425 | local writes that revive a row a peer deleted converge exactly when the net row shows nothing but what was written from the reviving upsert on |
| `Arrival.UpdatesMeetTombstone` | crates/doc/src/registry.rs:371-425 | updates alone leave a row a peer deleted deleted, and so does the collapsed queue exactly when the net row is not newer than that delete |
| `Arrival.OverChangedRow` | crates/doc/src/registry.rs:371-425 | on a live row without queued deletes: exactly when no cached field has gone or grown older on the server and no field the queue cleared is still shown there under an older clock |
| `Arrival.OverRefinedRow` | crates/doc/src/registry.rs:371-425 | if peers only wrote to the row, exactly when no field the queue cleared is still shown there under an older clock |
| `Arrival.SeedThenWrites` | crates/doc/src/registry.rs:371-425 | a compaction's seed with local writes behind it is again such a queue |
| `Arrival.PeersDeleteIsUndone` | crates/doc/src/registry.rs:371-425 | a queued rename and a peer's delete: compaction is invisible on the client, and on the server brings the deleted row back |
| `Recovery.RunsStayRelated` | crates/doc/src/registry.rs:472-533 | the same local writes, not compacted yet, on an empty server and over the old row build rows that differ only in what the old row still contributes |
| `Recovery.LeadingUpdatesAreLost` | crates/doc/src/registry.rs:500-533 | on an empty server the updates a queue starts with might as well not be there |
| `Recovery.WipedServerIsRebuilt` | crates/doc/src/registry.rs:472-533 | for every queue of local writes that has not been compacted: server and client agree after ops and seed exactly when the updates at its head are not missed, and the row is the one shown before exactly when besides a queued delete left no old field to bring back |
| `Recovery.UpdatesAloneAreLost` | crates/doc/src/registry.rs:500-533 | a queue of updates alone, of any length, is lost altogether, and not missed only if it shows nothing new |
| `Reseed.CompactedIsRebuilt` | crates/doc/src/registry.rs:371-533 | for every compacted queue with local writes behind it: server and client agree after a wipe exactly when the cached row is live, a delete is queued, or the queue revives the cached tombstone alike; and the row is the one shown before exactly when besides a queued delete left no old field to bring back |
| `Reseed.LiveRowIsRebuilt` | crates/doc/src/registry.rs:371-533 | without a queued delete a live row is always rebuilt from a compacted queue, updates included |
| `Reseed.CompactionCostsRecovery` | crates/doc/src/registry.rs:371-533 | a queue the wiped server would have rebuilt, whose invisible compaction leaves the server without the row |
| `Outbox.BatchesAreChunks` | crates/doc/src/registry.rs:598-628 | the chunks concatenate to the ops queued, each holds 1 to 400, and all but the last hold 400 |
| `Outbox.BatchesAreFresh` | crates/doc/src/registry.rs:593-628 | every chunk gets an id later than every id before it |
| `Outbox.CompactionShrinks` | crates/doc/src/registry.rs:384-425 | compaction never makes the queue longer and keeps an op for every touched row |
| `Outbox.CompactedFor` | crates/doc/src/registry.rs:384-425 | per row compaction leaves the seed of the net state, or the row's own ops when they never found a row |
| `Outbox.CompactionIsInvisible` | crates/doc/src/registry.rs:384-425 | what the client shows for a row, whatever is queued, is the same after compaction exactly when its net state holds up against the cached row |
| `Outbox.QueueIsInvisible` | crates/doc/src/registry.rs:384-425 | for queues as the replica builds them, exactly when the net state has every field of the live cached row and is newer than its tombstone |
| `Outbox.ServerConverges` | crates/doc/src/registry.rs:371-425 | for the whole queue and any rows on the server: a row ends up shown there as the queue would have it exactly when it converges |
| `Outbox.CompactionConvergesEverywhere` | crates/doc/src/registry.rs:371-425 | the same for every server and every row at once |
| `Outbox.WritesAreInTurn` | crates/doc/src/registry.rs:630-657 | local writes are a queue of the kind the theorem is about |
| `Outbox.CompactedIsInTurn` | crates/doc/src/registry.rs:371-425 | local writes behind a compacted queue are a queue of the kind the theorem is about |
| `Outbox.WritesAfterCompaction` | crates/doc/src/registry.rs:384-425 | local writes alone, and local writes behind any compacted queue, make such a queue, so compaction may be repeated with writes in between |
| `Registry.RegistryDoc.constructor` | crates/doc/src/registry.rs:342-352 | a new replica is empty and its queue invariant holds |
| `Registry.RegistryDoc.NextHlc` | crates/doc/src/registry.rs:593-596 | every clock handed out advances the replica's clock, and is newer than any seed stamp within the clock's range |
| `Registry.RegistryDoc.EnqueueOps` | crates/doc/src/registry.rs:598-628 | the queue grows by the chunks of the ops under fresh increasing ids, and the invariant is kept; nothing happens for no ops |
| `Registry.RegistryDoc.Write` | crates/doc/src/registry.rs:630-640 | one write queues one op stamped with the next clock, newer than any seed stamp within the clock's range, behind everything queued |
| `Registry.RegistryDoc.DeleteRowOps` | crates/doc/src/registry.rs:642-657 | a delete of many rows queues one delete per row under one stamp |
| `Registry.RegistryDoc.TakePushable` | crates/doc/src/registry.rs:561-571 | each unacked batch is handed out at most once per connection, and every one that was not is handed out now, in queue order |
| `Registry.RegistryDoc.MarkDisconnected` | crates/doc/src/registry.rs:573-578 | after a disconnect everything unacked may be handed out again; no op is lost |
| `Registry.RegistryDoc.AckBatch` | crates/doc/src/registry.rs:545-559 | an ack removes at most one batch, never moves the cursor back, and is invisible for every row whose server state already holds the batch |
| `Registry.AckIsInvisible` | crates/doc/src/registry.rs:545-559 | retiring a batch whose ops the server row holds leaves the overlay of the row unchanged |
| `Registry.LastAckShows` | crates/doc/src/registry.rs:545-559 | with nothing else queued for the row the ack shows exactly when some op of the batch has not landed |
| `Registry.HeadAckShows` | crates/doc/src/registry.rs:545-559 | with local writes behind the head batch, its ack shows exactly in the fields it wrote last with something new to show |
| `Registry.AckBeforeRowsShows` | crates/sync-server/src/lib.rs:478-583 | an ack that comes ahead of the rows takes the write from view |
| `Registry.ServerRowsLand` | crates/doc/src/registry.rs:536-559 | a row that results from the batch's ops and a run that revives nothing is such a row |
| `Registry.RegistryDoc.ApplyRows` | crates/doc/src/registry.rs:536-543 | the frame's rows replace the replica's and the cursor never moves back |
| `Registry.RegistryDoc.ApplyState` | crates/doc/src/registry.rs:472-533 | delta, replacement and re-seed: every row known before is authoritative afterwards or queued with its clocks behind the older ops |
| `Registry.WipedServerCatchesUp` | crates/doc/src/registry.rs:472-533 | pushing the resulting queue to an empty server shows a seeded row as the replica does, and as before the wipe, exactly under the two conditions of the row theorem |
| `Registry.CompactedServerCatchesUp` | crates/doc/src/registry.rs:371-533 | the same for a queue that has been compacted with local writes behind it |
| `Registry.CompactionDescends` | crates/doc/src/registry.rs:384-425 | what a compaction leaves of any queue is such a queue, as soon as the writes behind it are newer than the cached and the net row |
| `Registry.RegistryDoc.CompactPending` | crates/doc/src/registry.rs:384-425 | nothing changes while a batch is in flight; otherwise the queue becomes its compaction, no longer than before; for every row what is shown stays the same exactly when its net state holds up, and every server, whatever rows it holds, ends up showing the same exactly when the row converges |
| `Registry.RegistryDoc.OverlayRow` | crates/doc/src/registry.rs:661-678 | the row shown is the server row with all its queued ops folded in, if it is live |
| `Registry.RegistryDoc.OverlayRows` | crates/doc/src/registry.rs:680-703 | the one-pass overlay lists an id exactly when the single-row overlay shows it, with the same row |
| `SyncRoom.PushIsReplay` | crates/sync-server/src/registry.rs:110-140 | row by row, the server is a fold of the client's merge |
| `SyncRoom.PushStampsChanges` | crates/sync-server/src/registry.rs:112-150 | a pushed batch touches no row without stamping it |
| `SyncRoom.RepushIsNoOp` | crates/sync-server/src/registry.rs:112-150 | pushing a batch again after later ops that revived nothing changes neither rows nor numbers |
| `SyncRoom.RegistryRoom.Push` | crates/sync-server/src/registry.rs:112-150 | the batch is merged op by op and the ops that changed something are counted; the number moves and a frame goes out exactly when some row changed, and the frame holds the changed rows |
| `SyncRoom.ChangesAreMoves` | crates/sync-server/src/registry.rs:112-130 | the count a push reports is the number of its ops that left their row with another content than they found |
| `SyncRoom.RegistryRoom.StateFrame` | crates/sync-server/src/registry.rs:88-108 | everything to a client without a usable cursor, otherwise the rows past it, with the room's number and floor |
| `SyncRoom.DeltaCompletes` | crates/sync-server/src/registry.rs:88-108 | a delta reply makes the replica equal to the room exactly when its cursor kept its promise |
| `SyncRoom.StepKeepsWired` | crates/sync-server/src/lib.rs:478-583 | every step, acks and rows arriving in any order, keeps the account: the replica lacks exactly what is on the wire or was lost |
| `SyncRoom.PromiseIsKept` | crates/doc/src/registry.rs:356-362 | in such a state the cursor keeps its promise exactly when every row it has passed, on the wire or lost, was replaced by one past it |
| `SyncRoom.CursorKeepsItsPromise` | crates/doc/src/registry.rs:356-362 | over every run, own pushes and overtaking acks included, the cursor keeps its promise exactly when every row it has passed, on the wire or lost before, was replaced by one past it, and a reconnect leaves the replica equal to the room exactly then |
| `SyncRoom.QuietWireShowsTheRoom` | crates/sync/src/registry.rs:692-727 | after every run, once nothing is on the wire, the replica equals the room exactly when nothing was lost for good |
| `SyncRoom.InOrderLosesNothing` | crates/doc/src/registry.rs:356-362 | if no ack overtakes the rows it counts nothing is ever lost and the promise holds after every step |
| `SyncRoom.AckOvertakingRowsLosesThem` | crates/sync-server/src/lib.rs:478-583 | with the server's own order of ack and rows, a lost connection leaves a row missing although the cursor is at the end |
| `Session.RunForgetsNothing` | crates/doc/src/registry.rs:371-628 | over every run of writes, compactions, pushes, acks, broadcasts and lost connections each batch ever queued is still queued, merged by the room, or folded into others, and each row written to still has a batch queued or merged |
| `Session.DrainedShowsTheRoom` | crates/doc/src/registry.rs:545-628 | after every such run, once the queue is drained the room has merged every batch that was not folded and one for every row written to, and once the wire is quiet the overlay is the room's rows exactly when no row was lost for good |
| `Fold.Accumulator.Fold` | crates/doc/src/parts.rs:423-733 | the in-place fold of one event is the fold function |
| `Fold.Accumulator.FoldCycle` | crates/doc/src/parts.rs:743-828 | a compaction frame refines the one part of its cycle in place |
| `Fold.Cap` | crates/doc/src/parts.rs:833-842 | stepping back to a character boundary keeps the longest prefix of whole characters within the cap |
| `Fold.FittingIsLongest` | crates/doc/src/parts.rs:831-842 | that prefix fits and one more character does not |
| `FoldLaws.ResetForgets` | crates/doc/src/parts.rs:403-404 | after a reset the result does not depend on anything before it, which makes replay safe |
| `FoldLaws.EventGrows` | crates/doc/src/parts.rs:423-733 | one event keeps every part's place, variant and id, lets only the last text grow, never downgrades a known tool call, and takes back no answer, decision or settled status |
| `FoldLaws.RunGrows` | crates/doc/src/schema.rs:1652-1653 | the same over every run, which is what the writer relies on |
| `FoldLaws.RunKeepsShape` | crates/doc/src/parts.rs:423-733 | over every run no two texts are adjacent, text ids are distinct, and each tool call, question, approval, error and cycle has one part |
| `FoldLaws.TextsAreDeltas` | crates/doc/src/parts.rs:432-442 | the texts in order are the deltas in order, none lost and none doubled |
| `FoldLaws.DenyWins` | crates/doc/src/parts.rs:683-703 | over every run a denial wins whenever it comes, otherwise the first choice stands |
| `FoldLaws.RequestsAreShown` | crates/doc/src/parts.rs:527-549 | a question or approval is shown exactly if it was asked before a tool call took the id of its part |
| `FoldOrigins.PartsAreAnnounced` | crates/doc/src/parts.rs:423-682 | after every run each part says what the event that added it said (questions, choices, actions, messages, kinds), and starts without result, answer or decision |
| `FoldOrigins.DeltaEndsTheList` | crates/doc/src/parts.rs:432-442 | a delta always ends the list as a text, be it empty, and touches nothing before it |
| `FoldOrigins.ErrorsAreShown` | crates/doc/src/parts.rs:563-605 | no error is lost, and an end adds none exactly if it repeats the error right before it |
| `FoldOrigins.QuestionsEnd` | crates/doc/src/parts.rs:550-562 | after every run a question is resolved exactly if its resolution came, and is otherwise as it was asked |
| `ToolLaws.LastResultStands` | crates/doc/src/parts.rs:482-526 | after every run a tool part is resolved exactly if a result for it came, and shows the last: a summary only of a failed output, statistics of the diff, no full text |
| `ToolLaws.ChipShowsLastWord` | crates/doc/src/parts.rs:606-648 | of the events a tool heard from inside its subagent while its call was a spawn, the last end or message decides: failed after an end with an error, done after any other end, running after a message; with neither, any traffic shows it running |
| `ToolLaws.LastKnownCallStands` | crates/doc/src/parts.rs:446-481 | after every run a tool part has the last known call it was given, or the last of all if none was known |
| `ToolLaws.SpawnsAreNamed` | crates/doc/src/parts.rs:606-648 | a call counts as a spawn exactly if it is named `Agent`, or `Agent: ` and a description |
| `Cycles.OnePartPerCycle` | crates/doc/src/parts.rs:735-828 | after every run a cycle has one part, which its own frames alone determine |
| `Cycles.CycleCounts` | crates/doc/src/parts.rs:774-828 | the status is the last that settled, the byte count is that of the whole summary, and there is one to fetch exactly when it is not empty |
| `Cycles.CycleDetails` | crates/doc/src/parts.rs:735-828 | the part shows the last trigger, token counts and error that any frame of the cycle gave; a frame without them takes none back |
| `Cycles.JournalKeepsTheText` | crates/doc/src/parts.rs:815-823 | without the policy no summary text reaches the document |
| `Cycles.SummaryInTheDocument` | crates/doc/src/parts.rs:815-842 | the stored text is within the cap, is all of a summary that fits, and is a prefix of the summary exactly when no delta slips in behind a cut |
| `Cycles.CutInTheMiddle` | crates/doc/src/parts.rs:819-823 | two deltas that leave a text that is no prefix of the summary |
| `DocParts.PushPart` | crates/doc/src/schema.rs:1261-1373 | the cascade of column writes builds the part's row |
| `DocParts.UpdatePartFields` | crates/doc/src/schema.rs:1788-1886 | the in-place refresh writes every column the part has, removes none, and leaves id, kind and answers alone |
| `DocParts.PushedReadsBack` | crates/doc/src/schema.rs:174-480 | a written part reads back as its stored form, and as itself exactly when the document can hold it |
| `DocParts.MirrorReads` | crates/doc/src/schema.rs:330-480 | any row that holds a part next to answers and decisions recorded from outside reads as the stored part with those |
| `OldRows.OldApprovalReads` | crates/doc/src/schema.rs:400-422 | an approval without the request's column reads its request from the tuple without the prefix, so it reads as written exactly if the request has no such prefix |
| `OldRows.OldCycleReads` | crates/doc/src/schema.rs:453-462 | a cycle without its id column is known by its part id without the prefix, so it reads as written exactly if that is the cycle's id |
| `OldRows.BareRowsRead` | crates/doc/src/schema.rs:330-480 | a row with nothing but an id and a kind reads as an empty part of that kind; a tool without a call and a switch without its tuple as an empty text |
| `OldRows.BrokenRowsRead` | crates/doc/src/schema.rs:330-480 | whatever else they hold: a tool without a readable call is an empty text, a switch without a readable tuple its message, an unknown kind its text |
| `RowUpdates.UpdatedReads` | crates/doc/src/schema.rs:1788-1886 | an updated row reads as the part over what is stale beneath it, so as the part itself exactly when no column has gone; answers are never lost |
| `RowUpdates.NothingStale` | crates/doc/src/schema.rs:1788-1886 | nothing stale is left outside the shared columns exactly when the part keeps every column |
| `SegmentWriter.SegmentWriter.Begin` | crates/doc/src/schema.rs:1664-1692 | a streaming assistant entry with its id, device and creation time, and no parts |
| `SegmentWriter.SegmentWriter.Sync` | crates/doc/src/schema.rs:1712-1768 | the diff loop over any list, up to the first text without a text container |
| `SegmentWriter.SegmentWriter.Finish` | crates/doc/src/schema.rs:1771-1777 | a last sync, and a terminal status only if it went through |
| `SegmentWriter.SegmentWriter.RecordInputResponse` | crates/doc/src/schema.rs:1091-1133 | the first row that asks reads back resolved, with this answer behind the old ones unless its device had given one; every other row is untouched, and it reports whether the question exists |
| `SegmentWriter.SegmentWriter.DecidePermission` | crates/doc/src/schema.rs:1150-1180 | the first row of the request reads back resolved, with what was given of the decision, the device and the time unless a denial is already there; every other row is untouched |
| `SegmentWriter.AnswerIsRecorded` | crates/doc/src/schema.rs:1091-1133 | recording an answer, read back from the document: the old answers plus this one if its device had none, on the first row that asks and on no other |
| `SegmentWriter.DecisionIsRead` | crates/doc/src/schema.rs:1150-1180 | a decided row read back: a denial as it was, otherwise what was given over what was there |
| `SegmentWriter.RequestFindsItsPart` | crates/doc/src/schema.rs:1091-1180 | a request finds its question by the request, and its approval by the request or the part id |
| `StreamLaws.SyncShows` | crates/doc/src/schema.rs:1712-1768 | a sync of a grown list never fails, keeps all answers, and shows the list exactly when no part lost a column since the last one |
| `StreamLaws.SyncTypes` | crates/doc/src/schema.rs:1726-1750 | slot by slot the history inserts exactly the text that is there and rewrites none |
| `Streaming.EventKeeps` | crates/doc/src/parts.rs:482-526 | one event keeps all columns exactly when it takes nothing back |
| `Streaming.RunFollows` | crates/doc/src/schema.rs:1643-1768 | over every interleaving of events, ticks, answers and decisions that takes nothing back the entry mirrors the last tick's list |
| `Streaming.StreamingIsOneShot` | crates/doc/src/schema.rs:1643-1786 | after each tick the rows are those of writing the whole list at once, next to what was recorded from outside, and read back as the list; rows nobody else wrote are equal to the last cell |
| `Streaming.TidyStreamsAreOneShot` | crates/doc/src/schema.rs:1643-1786 | in particular for every run with at most one result per tool call and no empty full summary |
| `Streaming.RunOwns` | crates/doc/src/schema.rs:1643-1786 | a row that no answer and no decision addressed is the row of its part written at once |
| `Streaming.RunKeepsHistory` | crates/doc/src/schema.rs:1643-1925 | after every run, resets and failed syncs included, the recorded history replays to the texts of the document |
| `Streaming.FirstAnswersStand` | crates/doc/src/schema.rs:1091-1133 | after every run, whatever it folded, a row holds exactly the first answer of each device that addressed it, in the order given |
| `Streaming.FirstsAreFirst` | crates/doc/src/schema.rs:1091-1133 | those are given answers, one for each device that gave any |
| `Streaming.SecondResultLeavesOutput` | crates/doc/src/schema.rs:1788-1886 | a second result that clears an output leaves the old one in the document |
| `Streaming.DenialSurvives` | crates/doc/src/schema.rs:1145-1180 | after every run, whatever it folded, a recorded denial survives every event, answer and decision, and a tick exactly if the tick has no approval to write into the row |
| `Streaming.ApprovalDecides` | crates/doc/src/schema.rs:1643-1768 | in runs that only add, ticks reach every row, so the folded approval alone decides |
| `Streaming.DenialStands` | crates/doc/src/schema.rs:1145-1180 | a recorded denial survives later decisions recorded the same way |
| `Streaming.TickOverrulesDenial` | crates/doc/src/schema.rs:1145-1180 | but not an approval the run folds afterwards |
| `Transcript.TryTextAppend` | crates/doc/src/transcript_delta.rs:78-109 | an append is found exactly when one text grew and nothing else changed, and it is that append |
| `Transcript.DiffTranscript` | crates/doc/src/transcript_delta.rs:116-171 | the loop builds the frame of the specification, with the reset fallback |
| `Transcript.Viewer.Apply` | crates/doc/src/transcript_delta.rs:180-249 | the in-place patch succeeds exactly when the frame's steps do, ends where they end, and with as many entries as told |
| `IdLists.ShuffleReaches` | crates/doc/src/transcript_delta.rs:116-249 | placing the changed ids one by one reaches the new order exactly when the others stood in it |
| `TranscriptLaws.DiffThenPatch` | crates/doc/src/transcript_delta.rs:116-249 | patching with the diff never desyncs and gives the new list exactly when the frame is a reset or the entries left in place keep their order |
| `TranscriptLaws.WholeOnlyIfNeeded` | crates/doc/src/transcript_delta.rs:116-171 | an entry is sent whole exactly if the old list does not have it, unchanged or with a text grown, behind the same neighbour |
| `TranscriptLaws.ResetWhenMostChange` | crates/doc/src/transcript_delta.rs:116-171 | the frame is a reset exactly if the list has more than four entries and at least half of them would be sent whole |
| `TranscriptLaws.WatchFollows` | crates/doc/src/transcript_delta.rs:10-30 | so a chain of frames after a first reset keeps the viewer on the host's state |
| `TranscriptLaws.SurvivorsInOrder` | crates/doc/src/transcript_delta.rs:116-171 | survivors in the same relative order are enough |
| `TranscriptLaws.MovedEntriesGoAstray` | crates/doc/src/transcript_delta.rs:116-249 | four entries, moved, for which the patch gives another order |
| `PatchLaws.AppendsAreExact` | crates/doc/src/transcript_delta.rs:218-240 | on any list the appends are taken exactly if each names a text that with it, and the earlier appends to it, is as long as told; then each text has grown by all that names it and nothing else has changed |
| `PatchLaws.PlaceIs` | crates/doc/src/transcript_delta.rs:198-217 | on any list an upsert takes the first entry of its id out and stands right behind the first entry of its anchor, or in front; without such an entry it desyncs |
| `PatchLaws.PatchIsExact` | crates/doc/src/transcript_delta.rs:180-249 | a delta on any list is taken exactly if every anchor is found in its turn, every append fits and the count is right |
| `PatchLaws.AppendedTexts` | crates/doc/src/transcript_delta.rs:180-249 | after a delta that was taken every appended part shows the text held and what was added, in the length told, and the list has as many entries as told |
| `PatchLaws.MissedFrameIsNoticed` | crates/doc/src/transcript_delta.rs:218-240 | a viewer takes the frame of a grown text only if the text it holds is as long as the host's was: one that has missed a frame of it desyncs |
| `LiveView.TicksAreFollowed` | crates/doc/src/transcript_delta.rs:116-249 | for a streaming entry every tick's frame is followed, whatever the run folded in between |
| `Split.CutAt` | crates/doc/src/parts.rs:996-1006 | one cut takes the longest run of whole characters within the cap |
| `Split.SplitParts` | crates/doc/src/parts.rs:978-1024 | the nested loops pack the cut parts chunk by chunk |
| `Split.SplitMessage` | crates/doc/src/parts.rs:978-1024 | the split with the cap of a message |
| `SplitLaws.GuardIsDead` | crates/doc/src/parts.rs:1003-1006 | for caps of at least four bytes the forward-progress guard is never needed |
| `SplitLaws.SizeIsPayload` | crates/doc/src/parts.rs:355-394 | every byte of the texts a part shows counts towards its size, and of the encoded values it carries; nothing else does |
| `SplitLaws.PieceFits` | crates/doc/src/parts.rs:996-1019 | pieces are numbered from the original id, are not empty, and fit |
| `SplitLaws.PiecesAreTight` | crates/doc/src/parts.rs:996-1019 | no piece could have taken the first character of the next |
| `SplitLaws.SplitIsExact` | crates/doc/src/parts.rs:973-1024 | nothing is lost or reordered, no chunk could have taken the next one's first part, and all chunks are within the cap exactly when all parts that are not text are |
| `SplitLaws.GlueTells` | crates/doc/src/parts.rs:973-1029 | gluing gives the parts back only if no text looks like a piece of the one before it |
| `SplitLaws.SplitThenGlue` | crates/doc/src/parts.rs:973-1029 | joining the chunks and gluing the pieces gives the original parts exactly when no text looks like a piece of the one before it |
| `SplitLaws.FoldedListsComeBack` | crates/doc/src/parts.rs:973-1029 | every folded list comes back |
| `SplitLaws.SplitIsShortest` | crates/doc/src/parts.rs:978-1024 | no other way of cutting into consecutive chunks within the cap needs fewer of them |
| `Continuations.JoinContinuationEntries` | crates/doc/src/schema.rs:1618-1641 | the loop with its index of roots computes the join, and returns the input when there is nothing to join |
| `Continuations.JoinShows` | crates/doc/src/schema.rs:1616-1641 | every root and orphan in its place with its own parts and those of the continuations for which it is the latest root, in order |
| `Continuations.JoinKeepsParts` | crates/doc/src/schema.rs:1618-1641 | every part appears exactly as often as before |
| `Continuations.JoinTwice` | crates/doc/src/schema.rs:1618-1641 | joining again changes nothing |
| `Continuations.SplitThenJoin` | crates/doc/src/parts.rs:967-1029 | an entry written as a root and continuations joins to the entry with its long texts cut, and glues to the entry itself |
| `Continuations.SplitEntryAt` | crates/doc/src/parts.rs:967-971 | the root keeps the id and the first chunk, every further chunk goes into a numbered entry that names the root |
| `Rebuild.StripPart` | crates/doc/src/rebuild.rs:89-131 | taking the fields out one by one gives the stripped part and what is owed for it |
| `Rebuild.RebuildThinDoc` | crates/doc/src/rebuild.rs:47-85 | a new document with fresh metadata, all entries stripped in order and the pending commands, the payloads owed, the number of commands copied, and an error without a chat id; the source is untouched |
| `RebuildLaws.ThinPart` | crates/doc/src/rebuild.rs:87-131 | parts that are not tools are kept whole; a fat output and an inline diff leave references, a byte count and statistics, and nothing else changes |
| `RebuildLaws.StripLosesNothing` | crates/doc/src/rebuild.rs:87-131 | what is owed for a part is its unreferenced output, unless blank, and its inline diff, in full: nothing but blank text is lost |
| `RebuildLaws.RebuiltReads` | crates/doc/src/rebuild.rs:47-85 | the rebuilt document reads as the old one, entry by entry in order, with every part stripped |
| `RebuildLaws.MetaStartsAfresh` | crates/doc/src/rebuild.rs:47-85 | the rebuilt metadata is the chat id, the schema version and the epoch, so all metadata is kept exactly when there was nothing else |
| `RebuildLaws.OnlyPendingCross` | crates/doc/src/rebuild.rs:67-77 | the rebuilt commands are exactly the pending ones, in order, each with only its resolution cleared; settled commands leave no trace |
| `RebuildLaws.RebuildTwice` | crates/doc/src/rebuild.rs:43-46 | rebuilding a rebuilt document gives the same document and owes the sidecar nothing |
| `RebuildLaws.SidecarHoldsAll` | crates/doc/src/rebuild.rs:87-131 | the sidecar holds every unreferenced output that is not blank and every inline diff once, in order, and nothing else |
| `RebuildLaws.AllCanBeFetched` | crates/engine/src/doc_host.rs:2018-2066 | in whatever order the uploads land, each can be fetched back exactly when no two uploads under one key differ |
| `RebuildLaws.KeysAreInjective` | crates/doc/src/rebuild.rs:112-127 | when two parts of a chat share a key: same id, or one is named like the other's diff |
| `RebuildLaws.OutputIsFound` | crates/doc/src/rebuild.rs:107-117 | without a clash, and in whatever order the uploads land, the reference on a stripped part leads back to its whole output |
| `RebuildLaws.DiffIsFound` | crates/doc/src/rebuild.rs:118-127 | without a clash the reference of an inline diff leads back to the whole diff |

## Left out

- Loro: merging of concurrent edits, the oplog's own encoding, snapshots and commits. Containers are plain maps, lists and texts of one replica.
- JSON: encoding is left out, cells hold typed values; reading malformed entries, parts and commands (the salvage paths) is not modelled, nor is the failure of an encoder.
- Machine integers: milliseconds, counters, byte counts and sequence numbers are unbounded; the clock laws state their bounds.
- `Hlc.EncodeHlc`: negative times are encoded, but the order theorem is about times from zero on, which is where the padding is meant to work.
- Clocks in rows and ops are ranks of clock strings; the nested maps by kind and id are one map by (kind, id).
- The order in which a hash map is walked when rows are re-seeded is arbitrary in the model, as in the source.
- Persistence of the registry (`to_bytes`, `from_bytes`), presence, probes and the room's database.
- The typed per-entity setters and readers of the registry, the legacy migration, and the legacy workspace document: each is one write or a field copy.
- Wall clocks are parameters; logging, timers, sockets and uploads are left out, except for the order in which a wire delivers.
- `SyncRoom.Link`: one replica and one room; a frame lost or skipped by a lagging subscriber is modelled by a reconnect, not by reordering of broadcasts among themselves.
- `SyncRoom.RegistryRoom.StateFrame`: the presence records of the reply are not returned.
- `Outbox.ServerConverges`: about queues of rising stamps in which only the first op may be a seed; a re-seeding puts seeds behind other ops, and for those only what the client itself shows is stated (`Outbox.CompactionIsInvisible`).
- `Registry.CompactedServerCatchesUp`: about writes newer than the cached row; a peer's newer write that reaches the cache between a compaction and a wipe is not covered, nor is a second wipe behind a re-seeding.
- `Session.DrainedShowsTheRoom`: a wiped server is not among the moves.
- `summarize_tool_output`, `diff_stat`, the test for blank text and the byte lengths of encoded values are arbitrary functions, so the laws hold for any.
- Payloads the code only copies (questions, choices, actions, tool inputs, metadata values) are text; events that never reach the transcript are one event.
- `sanitize_tool_call`, `sanitize_input_response`, `apply_sidecar_refs` and `latest_plan`: small field maps and a backward search. An answer reaches `RecordInputResponse` already sanitized.
- `SegmentWriter.SegmentWriter.RecordInputResponse`: finds the question within the writer's entry; the source searches all entries.
- `SegmentWriter.SegmentWriter.DecidePermission`: finds the request within the writer's entry; the source searches all entries.
- `RebuildLaws.AllCanBeFetched`: about uploads that land; the source tries each once and logs a failure.
- Other writers of a document (error and switch parts, recovery of interrupted cycles and subagents, truncation) do not run beside the writer in this model.
- Export, statistics, commands, workspaces, agents and processes.
